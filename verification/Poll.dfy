/**
  `poll` (kernel/src/syscall/poll.rs). What a file answers when it is polled is given by an arbitrary
  function of the round and the index, so everything below holds for all behaviours of files.
 */
module Poll {
  import opened Wrappers

  datatype IoEvent = IN | PRI | OUT | ERR | HUP | NVAL | RDNORM | RDHUP

  type Events = set<IoEvent>

  datatype PollFd = PollFd(fd: Option<nat>, events: Events)

  /** How one wait of the poller ends. */
  datatype Wait = Woken | TimedOut | Interrupted

  /** How a poll ends: with events found in some round, without any, with an error, or not yet. */
  datatype Polled = Ready(round: nat) | Expired | Failed | StillWaiting

  /** The answer of round `round` to entry `i`: a missing file answers `NVAL`, no descriptor nothing. */
  function Answer(fds: seq<PollFd>, open: set<nat>, answers: (nat, nat) -> Events, round: nat, i: nat): Events
    requires i < |fds|
  {
    if fds[i].fd.None? then {}
    else if fds[i].fd.value in open then answers(round, i)
    else {NVAL}
  }

  function Answers(fds: seq<PollFd>, open: set<nat>, answers: (nat, nat) -> Events, round: nat): (r: seq<Events>)
    ensures |r| == |fds| && forall i | 0 <= i < |fds| :: r[i] == Answer(fds, open, answers, round, i)
  {
    seq(|fds|, i requires 0 <= i < |fds| => Answer(fds, open, answers, round, i))
  }

  /** The number of entries with something to report. */
  function CountReady(revents: seq<Events>): nat {
    if revents == [] then 0
    else CountReady(revents[..|revents| - 1]) + if revents[|revents| - 1] == {} then 0 else 1
  }

  /** The poll is decided by the first round in which any entry has an answer, as long as waiting goes on. */
  function Resolve(
      fds: seq<PollFd>, open: set<nat>, answers: (nat, nat) -> Events, round: nat, waits: seq<Wait>): Polled
    decreases |waits|
  {
    if CountReady(Answers(fds, open, answers, round)) > 0 then Ready(round)
    else if waits == [] then StillWaiting
    else
      match waits[0]
      case Woken => Resolve(fds, open, answers, round + 1, waits[1..])
      case TimedOut => Expired
      case Interrupted => Failed
  }

  lemma {:induction false} NoneReady(revents: seq<Events>)
    requires forall i | 0 <= i < |revents| :: revents[i] == {}
    ensures CountReady(revents) == 0
  {
    if revents != [] {
      NoneReady(revents[..|revents| - 1]);
    }
  }

  lemma {:induction false} ZeroMeansNone(revents: seq<Events>)
    requires CountReady(revents) == 0
    ensures forall i | 0 <= i < |revents| :: revents[i] == {}
  {
    if revents != [] {
      ZeroMeansNone(revents[..|revents| - 1]);
    }
  }

  /** The entries with something to report. */
  ghost function ReadyEntries(revents: seq<Events>): set<nat> {
    set i | 0 <= i < |revents| && revents[i] != {}
  }

  /** The count is the number of those entries. */
  lemma {:induction false} CountsReady(revents: seq<Events>)
    ensures CountReady(revents) == |ReadyEntries(revents)|
  {
    if revents != [] {
      var n := |revents| - 1;
      CountsReady(revents[..n]);
      var before := ReadyEntries(revents[..n]);
      assert ReadyEntries(revents) == if revents[n] == {} then before else before + {n};
    }
  }

  /** In round `k` some entry has an answer. */
  ghost predicate Speaks(fds: seq<PollFd>, open: set<nat>, answers: (nat, nat) -> Events, k: nat) {
    exists i :: 0 <= i < |fds| && fds[i].fd.Some? && (fds[i].fd.value in open ==> answers(k, i) != {})
  }

  /** The poll gets as far as round `k`: no round before it has an answer, and every wait was woken. */
  ghost predicate GetsTo(
      fds: seq<PollFd>, open: set<nat>, answers: (nat, nat) -> Events, waits: seq<Wait>, k: nat)
  {
    k <= |waits| && forall j | 0 <= j < k :: !Speaks(fds, open, answers, j) && waits[j] == Woken
  }

  lemma SpeaksWhenReady(fds: seq<PollFd>, open: set<nat>, answers: (nat, nat) -> Events, k: nat)
    ensures CountReady(Answers(fds, open, answers, k)) > 0 <==> Speaks(fds, open, answers, k)
  {
    var all := Answers(fds, open, answers, k);
    if Speaks(fds, open, answers, k) {
      var i :| 0 <= i < |fds| && fds[i].fd.Some? && (fds[i].fd.value in open ==> answers(k, i) != {});
      assert all[i] != {};
      if CountReady(all) == 0 {
        ZeroMeansNone(all);
      }
    } else {
      forall i | 0 <= i < |all|
        ensures all[i] == {}
      {
      }
      NoneReady(all);
    }
  }

  /** How the poll ends, from the rounds and waits alone. */
  ghost predicate EndsAs(
      polled: Polled, fds: seq<PollFd>, open: set<nat>, answers: (nat, nat) -> Events, waits: seq<Wait>)
  {
    match polled
    case Ready(k) => GetsTo(fds, open, answers, waits, k) && Speaks(fds, open, answers, k)
    case Expired =>
      exists k: nat :: k < |waits| && GetsTo(fds, open, answers, waits, k) && !Speaks(fds, open, answers, k)
                  && waits[k] == TimedOut
    case Failed =>
      exists k: nat :: k < |waits| && GetsTo(fds, open, answers, waits, k) && !Speaks(fds, open, answers, k)
                  && waits[k] == Interrupted
    case StillWaiting => GetsTo(fds, open, answers, waits, |waits|) && !Speaks(fds, open, answers, |waits|)
  }

  lemma {:induction false} ResolvesFrom(
      fds: seq<PollFd>, open: set<nat>, answers: (nat, nat) -> Events, waits: seq<Wait>, k: nat)
    requires GetsTo(fds, open, answers, waits, k)
    ensures EndsAs(Resolve(fds, open, answers, k, waits[k..]), fds, open, answers, waits)
    decreases |waits| - k
  {
    SpeaksWhenReady(fds, open, answers, k);
    if !Speaks(fds, open, answers, k) && k < |waits| {
      assert waits[k..][0] == waits[k];
      if waits[k] == Woken {
        assert waits[k..][1..] == waits[k + 1..];
        ResolvesFrom(fds, open, answers, waits, k + 1);
      }
    }
  }

  /** A poll ends in the first round with an answer, with the first wait that is not woken, or not yet. */
  lemma ResolvesAsItEnds(fds: seq<PollFd>, open: set<nat>, answers: (nat, nat) -> Events, waits: seq<Wait>)
    ensures EndsAs(Resolve(fds, open, answers, 0, waits), fds, open, answers, waits)
  {
    assert waits[0..] == waits;
    ResolvesFrom(fds, open, answers, waits, 0);
  }

  /**
    Polls the entries from `start` on and stores what they answer; entries before `start` have been
    stored already. Returns how many of the polled entries have an answer.
   */
  method CountEventsFrom(
      fds: seq<PollFd>, open: set<nat>, answers: (nat, nat) -> Events, round: nat,
      revents: array<Events>, start: nat)
    returns (counter: nat)
    requires revents.Length == |fds| && start <= |fds|
    requires forall i | start <= i < |fds| :: revents[i] == {}
    requires revents[..start] == Answers(fds, open, answers, round)[..start]
    modifies revents
    ensures revents[..] == Answers(fds, open, answers, round)
    ensures counter + CountReady(old(revents[..start])) == CountReady(revents[..])
  {
    counter := 0;
    ghost var all := Answers(fds, open, answers, round);
    var index := start;
    while index < |fds|
      invariant start <= index <= |fds|
      invariant revents[..index] == all[..index]
      invariant forall i | index <= i < |fds| :: revents[i] == {}
      invariant counter + CountReady(all[..start]) == CountReady(all[..index])
    {
      var events := PollOne(fds[index], open, answers, round, index);
      assert events == all[index];
      assert all[..index + 1][..index] == all[..index];
      if events != {} {
        revents[index] := events;
        counter := counter + 1;
      }
      assert revents[..index + 1] == revents[..index] + [events];
      index := index + 1;
    }
    assert revents[..|fds|] == revents[..] && all[..|fds|] == all;
  }

  method PollOne(pollFd: PollFd, open: set<nat>, answers: (nat, nat) -> Events, round: nat, index: nat)
    returns (events: Events)
    ensures events == if pollFd.fd.None? then {} else if pollFd.fd.value in open then answers(round, index) else {NVAL}
  {
    if pollFd.fd.Some? && pollFd.fd.value in open {
      events := answers(round, index);
    } else if pollFd.fd.Some? {
      events := {NVAL};
    } else {
      events := {};
    }
  }

  /** The first round: stops registering at the first answer and only counts from there on. */
  method RegisterPoller(fds: seq<PollFd>, open: set<nat>, answers: (nat, nat) -> Events, revents: array<Events>)
    returns (found: Option<nat>)
    requires revents.Length == |fds| && forall i | 0 <= i < |fds| :: revents[i] == {}
    modifies revents
    ensures revents[..] == Answers(fds, open, answers, 0)
    ensures found == if CountReady(revents[..]) == 0 then None else Some(CountReady(revents[..]))
  {
    ghost var all := Answers(fds, open, answers, 0);
    var index := 0;
    while index < |fds|
      invariant 0 <= index <= |fds|
      invariant forall i | 0 <= i < |fds| :: revents[i] == {}
      invariant forall i | 0 <= i < index :: all[i] == {}
    {
      var events := PollOne(fds[index], open, answers, 0, index);
      if events != {} {
        revents[index] := events;
        assert revents[..index + 1] == all[..index + 1];
        assert all[..index + 1][..index] == all[..index];
        NoneReady(all[..index]);
        var more := CountEventsFrom(fds, open, answers, 0, revents, 1 + index);
        return Some(1 + more);
      }
      index := index + 1;
    }
    assert revents[..] == all;
    NoneReady(all);
    return None;
  }

  /** The count returned is the number of entries with non-empty results, whichever way the poll ends. */
  method DoPoll(
      fds: seq<PollFd>, open: set<nat>, answers: (nat, nat) -> Events, waits: seq<Wait>, revents: array<Events>)
    returns (polled: Polled, count: nat)
    requires revents.Length == |fds| && forall i | 0 <= i < |fds| :: revents[i] == {}
    modifies revents
    ensures polled == Resolve(fds, open, answers, 0, waits) && EndsAs(polled, fds, open, answers, waits)
    ensures count == CountReady(revents[..]) == |ReadyEntries(revents[..])|
    ensures polled.Ready? ==> count > 0 && revents[..] == Answers(fds, open, answers, polled.round)
    ensures polled.Ready? ==> forall i | 0 <= i < |fds| && fds[i].fd.Some? ::
              revents[i] == if fds[i].fd.value in open then answers(polled.round, i) else {NVAL}
    ensures forall i | 0 <= i < |fds| && fds[i].fd.None? :: revents[i] == {}
    ensures !polled.Ready? ==> count == 0
  {
    polled, count := PollRounds(fds, open, answers, waits, revents);
    ResolvesAsItEnds(fds, open, answers, waits);
    CountsReady(revents[..]);
    if count == 0 {
      ZeroMeansNone(revents[..]);
    } else {
      assert forall i | 0 <= i < |fds| :: revents[i] == revents[..][i];
    }
  }

  method PollRounds(
      fds: seq<PollFd>, open: set<nat>, answers: (nat, nat) -> Events, waits: seq<Wait>, revents: array<Events>)
    returns (polled: Polled, count: nat)
    requires revents.Length == |fds| && forall i | 0 <= i < |fds| :: revents[i] == {}
    modifies revents
    ensures polled == Resolve(fds, open, answers, 0, waits)
    ensures count == CountReady(revents[..])
    ensures polled.Ready? ==> count > 0 && revents[..] == Answers(fds, open, answers, polled.round)
    ensures !polled.Ready? ==> count == 0
  {
    var found := RegisterPoller(fds, open, answers, revents);
    if found.Some? {
      return Ready(0), found.value;
    }
    ZeroMeansNone(revents[..]);
    var round, k := 0, 0;
    while k < |waits|
      invariant 0 <= k <= |waits| && round == k
      invariant forall i | 0 <= i < |fds| :: revents[i] == {}
      invariant CountReady(Answers(fds, open, answers, round)) == 0
      invariant Resolve(fds, open, answers, 0, waits) == Resolve(fds, open, answers, round, waits[k..])
    {
      NoneReady(revents[..]);
      if waits[k] == TimedOut {
        return Expired, 0;
      }
      if waits[k] == Interrupted {
        return Failed, 0;
      }
      assert waits[k..][1..] == waits[k + 1..];
      round, k := round + 1, k + 1;
      var n := CountEventsFrom(fds, open, answers, round, revents, 0);
      if n > 0 {
        return Ready(round), n;
      }
      ZeroMeansNone(revents[..]);
    }
    NoneReady(revents[..]);
    return StillWaiting, 0;
  }
}
