/** `select` on top of `poll` (kernel/src/syscall/select.rs). */
module Select {
  import opened Wrappers
  import opened Words
  import opened Poll

  const FD_SETSIZE: nat := 1024

  class FdSet {
    var words: seq<Word>

    ghost predicate Valid()
      reads this
    {
      |words| == FD_SETSIZE / BITS && AreWords(words)
    }

    ghost function Fds(): set<nat>
      reads this
      requires Valid()
    {
      Members(words)
    }

    constructor ()
      ensures Valid() && Fds() == {}
    {
      words := seq(FD_SETSIZE / BITS, i => ZeroWord());
    }

    /** Returns whether the descriptor fits in the set. */
    method Set(fd: nat) returns (ok: bool)
      requires Valid()
      modifies this
      ensures Valid() && ok == (fd < FD_SETSIZE)
      ensures Fds() == if ok then old(Fds()) + {fd} else old(Fds())
    {
      if fd >= FD_SETSIZE {
        return false;
      }
      WithBitAddsMember(words, fd);
      words := WithBit(words, fd);
      return true;
    }

    method IsSet(fd: nat) returns (r: bool)
      requires Valid()
      ensures r == (fd in Fds())
    {
      r := fd < FD_SETSIZE && BitAt(words, fd);
    }

    method Clear()
      requires Valid()
      modifies this
      ensures Valid() && Fds() == {}
    {
      var slot := 0;
      while slot < |words|
        invariant 0 <= slot <= |words| && Valid()
        invariant forall i, b | 0 <= i < slot && 0 <= b < BITS :: !words[i][b]
      {
        words := words[slot := ZeroWord()];
        slot := slot + 1;
      }
    }
  }

  // ---------------------------------------------------------------------------
  // The conversions
  // ---------------------------------------------------------------------------

  function RweToEvents(readable: bool, writable: bool, except: bool): Events {
    (if readable then {IN} else {}) + (if writable then {OUT} else {}) + (if except then {PRI} else {})
  }

  predicate Readable(events: Events) { IN in events || HUP in events || ERR in events }

  predicate Writable(events: Events) { OUT in events || ERR in events }

  predicate Exceptional(events: Events) { PRI in events }

  /** What is asked for three sets reads back as these three sets, and asks for nothing else. */
  lemma EventsReadBack(readable: bool, writable: bool, except: bool)
    ensures var events := RweToEvents(readable, writable, except);
      && (IN in events <==> readable) && (OUT in events <==> writable) && (PRI in events <==> except)
      && events <= {IN, OUT, PRI}
      && Readable(events) == readable && Writable(events) == writable && Exceptional(events) == except
  {
  }

  /** The members of an optional input set. */
  type Wanted = Option<set<nat>>

  predicate Wants(wanted: Wanted, fd: nat) {
    wanted.Some? && fd in wanted.value
  }

  /** What to poll a descriptor for. */
  function EventsOf(r: Wanted, w: Wanted, e: Wanted, fd: nat): Events {
    RweToEvents(Wants(r, fd), Wants(w, fd), Wants(e, fd))
  }

  /** The descriptors below `nfds` that some set names, in ascending order, with what to poll them for. */
  function Requests(nfds: nat, r: Wanted, w: Wanted, e: Wanted): (fds: seq<PollFd>)
    ensures forall i | 0 <= i < |fds| :: fds[i].fd.Some? && fds[i].fd.value < nfds
    ensures forall i | 0 <= i < |fds| ::
              Wants(r, fds[i].fd.value) || Wants(w, fds[i].fd.value) || Wants(e, fds[i].fd.value)
    ensures forall i | 0 <= i < |fds| :: fds[i].events == EventsOf(r, w, e, fds[i].fd.value)
    ensures forall i, j | 0 <= i < j < |fds| :: fds[i].fd.value < fds[j].fd.value
  {
    if nfds == 0 then []
    else
      var events := EventsOf(r, w, e, nfds - 1);
      var before := Requests(nfds - 1, r, w, e);
      if events == {} then before else before + [PollFd(Some(nfds - 1), events)]
  }

  /** Every descriptor below `nfds` that some set names is among the requests. */
  lemma {:induction false} RequestsComplete(nfds: nat, r: Wanted, w: Wanted, e: Wanted, fd: nat)
    requires fd < nfds && (Wants(r, fd) || Wants(w, fd) || Wants(e, fd))
    ensures PollFd(Some(fd), EventsOf(r, w, e, fd)) in Requests(nfds, r, w, e)
  {
    if fd == nfds - 1 {
      var events := EventsOf(r, w, e, fd);
      assert IN in events || OUT in events || PRI in events;
    } else {
      RequestsComplete(nfds - 1, r, w, e, fd);
    }
  }

  /** The descriptors whose results satisfy `holds`, among the first `n` requests. */
  ghost function Chosen(fds: seq<PollFd>, revents: seq<Events>, n: nat, holds: Events -> bool): set<nat>
    requires n <= |fds| == |revents| && forall i | 0 <= i < |fds| :: fds[i].fd.Some?
  {
    set i | 0 <= i < n && holds(revents[i]) :: fds[i].fd.value
  }

  lemma ChosenNext(fds: seq<PollFd>, revents: seq<Events>, n: nat, holds: Events -> bool)
    requires n < |fds| == |revents| && forall i | 0 <= i < |fds| :: fds[i].fd.Some?
    requires forall i, j | 0 <= i < j < |fds| :: fds[i].fd.value < fds[j].fd.value
    ensures Chosen(fds, revents, n + 1, holds) ==
            Chosen(fds, revents, n, holds) + if holds(revents[n]) then {fds[n].fd.value} else {}
    ensures fds[n].fd.value !in Chosen(fds, revents, n, holds)
  {
  }

  // ---------------------------------------------------------------------------
  // do_select
  // ---------------------------------------------------------------------------

  datatype SelectResult = Selected(count: nat) | InvalidArgument | BadDescriptor | PollFailed | NotYet

  ghost predicate Holds(fds: FdSet?, expected: set<nat>)
    reads fds
  {
    fds != null ==> fds.Valid() && fds.Fds() == expected
  }

  ghost function Size(fds: FdSet?): nat
    reads fds
    requires fds != null ==> fds.Valid()
  {
    if fds == null then 0 else |fds.Fds()|
  }

  ghost predicate InOrder(fds: seq<PollFd>) {
    && (forall i | 0 <= i < |fds| :: fds[i].fd.Some? && fds[i].fd.value < FD_SETSIZE)
    && (forall i, j | 0 <= i < j < |fds| :: fds[i].fd.value < fds[j].fd.value)
  }

  ghost predicate Separate(a: FdSet?, b: FdSet?, c: FdSet?) {
    && (a != null && b != null ==> a != b)
    && (b != null && c != null ==> b != c)
    && (a != null && c != null ==> a != c)
  }

  /** What `select` reports of the results `revents` of the poll. */
  ghost predicate Reports(
      r: SelectResult, fds: seq<PollFd>, revents: seq<Events>, readfds: FdSet?, writefds: FdSet?, exceptfds: FdSet?)
    reads readfds, writefds, exceptfds
    requires |fds| == |revents| && forall i | 0 <= i < |fds| :: fds[i].fd.Some?
  {
    && (r.BadDescriptor? <==> exists i :: 0 <= i < |revents| && NVAL in revents[i])
    && (!r.BadDescriptor? ==>
          && Holds(readfds, Chosen(fds, revents, |fds|, Readable))
          && Holds(writefds, Chosen(fds, revents, |fds|, Writable))
          && Holds(exceptfds, Chosen(fds, revents, |fds|, Exceptional))
          && r == Selected(Size(readfds) + Size(writefds) + Size(exceptfds)))
  }

  /** Marks the descriptor of request `k` in an optional output set if `holds`; returns 1 if it did. */
  method Mark(out: FdSet?, ghost fds: seq<PollFd>, ghost revents: seq<Events>, ghost k: nat, ghost want: Events -> bool,
              fd: nat, holds: bool)
    returns (added: nat)
    requires k < |fds| == |revents| && InOrder(fds) && fd == fds[k].fd.value && holds == want(revents[k])
    requires Holds(out, Chosen(fds, revents, k, want))
    modifies out
    ensures Holds(out, Chosen(fds, revents, k + 1, want))
    ensures Size(out) == old(Size(out)) + added
  {
    ChosenNext(fds, revents, k, want);
    if out != null && holds {
      var ok := out.Set(fd);
      return 1;
    }
    return 0;
  }

  /** Turns the results of the poll into the three output sets and counts the bits set. */
  method StoreResults(fds: seq<PollFd>, revents: seq<Events>, readfds: FdSet?, writefds: FdSet?, exceptfds: FdSet?)
    returns (r: SelectResult)
    requires |fds| == |revents| && InOrder(fds)
    requires Holds(readfds, {}) && Holds(writefds, {}) && Holds(exceptfds, {})
    requires Separate(readfds, writefds, exceptfds)
    modifies readfds, writefds, exceptfds
    ensures Reports(r, fds, revents, readfds, writefds, exceptfds)
  {
    var total := 0;
    var k := 0;
    while k < |fds|
      invariant 0 <= k <= |fds|
      invariant Holds(readfds, Chosen(fds, revents, k, Readable))
      invariant Holds(writefds, Chosen(fds, revents, k, Writable))
      invariant Holds(exceptfds, Chosen(fds, revents, k, Exceptional))
      invariant total == Size(readfds) + Size(writefds) + Size(exceptfds)
      invariant forall i | 0 <= i < k :: NVAL !in revents[i]
    {
      var fd, events := fds[k].fd.value, revents[k];
      if NVAL in events {
        return BadDescriptor;
      }
      var a := Mark(readfds, fds, revents, k, Readable, fd, Readable(events));
      var b := Mark(writefds, fds, revents, k, Writable, fd, Writable(events));
      var c := Mark(exceptfds, fds, revents, k, Exceptional, fd, Exceptional(events));
      total := total + a + b + c;
      k := k + 1;
    }
    return Selected(total);
  }

  ghost function View(fds: FdSet?): Wanted
    reads fds
    requires fds != null ==> fds.Valid()
  {
    if fds == null then None else Some(fds.Fds())
  }

  method Asks(fds: FdSet?, fd: nat) returns (r: bool)
    requires fds != null ==> fds.Valid()
    ensures r == Wants(View(fds), fd)
  {
    if fds == null {
      return false;
    }
    r := fds.IsSet(fd);
  }

  /** Converts the three input sets to poll entries. */
  method BuildRequests(nfds: nat, readfds: FdSet?, writefds: FdSet?, exceptfds: FdSet?) returns (fds: seq<PollFd>)
    requires (readfds != null ==> readfds.Valid()) && (writefds != null ==> writefds.Valid())
    requires exceptfds != null ==> exceptfds.Valid()
    ensures fds == Requests(nfds, View(readfds), View(writefds), View(exceptfds))
  {
    fds := [];
    var fd := 0;
    while fd < nfds
      invariant 0 <= fd <= nfds
      invariant fds == Requests(fd, View(readfds), View(writefds), View(exceptfds))
    {
      var readable := Asks(readfds, fd);
      var writable := Asks(writefds, fd);
      var except := Asks(exceptfds, fd);
      var events := RweToEvents(readable, writable, except);
      if events != {} {
        fds := fds + [PollFd(Some(fd), events)];
      }
      fd := fd + 1;
    }
  }

  method ClearAll(readfds: FdSet?, writefds: FdSet?, exceptfds: FdSet?)
    requires (readfds != null ==> readfds.Valid()) && (writefds != null ==> writefds.Valid())
    requires (exceptfds != null ==> exceptfds.Valid()) && Separate(readfds, writefds, exceptfds)
    modifies readfds, writefds, exceptfds
    ensures Holds(readfds, {}) && Holds(writefds, {}) && Holds(exceptfds, {})
  {
    if readfds != null {
      readfds.Clear();
    }
    if writefds != null {
      writefds.Clear();
    }
    if exceptfds != null {
      exceptfds.Clear();
    }
  }

  /** What `select` does with the requests `fds`, starting from empty output sets. */
  ghost predicate Outcome(
      r: SelectResult, fds: seq<PollFd>, polled: Polled, open: set<nat>, answers: (nat, nat) -> Events,
      readfds: FdSet?, writefds: FdSet?, exceptfds: FdSet?)
    reads readfds, writefds, exceptfds
    requires forall i | 0 <= i < |fds| :: fds[i].fd.Some?
  {
    match polled
    case Ready(round) => Reports(r, fds, Answers(fds, open, answers, round), readfds, writefds, exceptfds)
    case Expired => r == Selected(0) && Holds(readfds, {}) && Holds(writefds, {}) && Holds(exceptfds, {})
    case Failed => r == PollFailed
    case StillWaiting => r == NotYet
  }

  /** The output set holds exactly the requested descriptors whose files answer one of `causes`. */
  ghost predicate HoldsCauses(
      out: FdSet?, fds: seq<PollFd>, open: set<nat>, answers: (nat, nat) -> Events, round: nat, causes: Events)
    reads out
    requires forall i | 0 <= i < |fds| :: fds[i].fd.Some?
  {
    out != null ==>
      && out.Valid()
      && (forall i | 0 <= i < |fds| ::
            fds[i].fd.value in out.Fds() <==> fds[i].fd.value in open && answers(round, i) * causes != {})
      && (forall fd | fd in out.Fds() :: exists i :: 0 <= i < |fds| && fds[i].fd.value == fd)
  }

  /** Reads are ready on data, hang-ups and errors, writes on room and errors, exceptions on urgent data. */
  lemma CausesOfResults(events: Events)
    ensures Readable(events) <==> events * {IN, HUP, ERR} != {}
    ensures Writable(events) <==> events * {OUT, ERR} != {}
    ensures Exceptional(events) <==> events * {PRI} != {}
  {
    assert IN in events ==> IN in events * {IN, HUP, ERR};
    assert HUP in events ==> HUP in events * {IN, HUP, ERR};
    assert ERR in events ==> ERR in events * {IN, HUP, ERR} && ERR in events * {OUT, ERR};
    assert OUT in events ==> OUT in events * {OUT, ERR};
    assert PRI in events ==> PRI in events * {PRI};
  }

  lemma ChosenByCauses(
      fds: seq<PollFd>, open: set<nat>, answers: (nat, nat) -> Events, round: nat, holds: Events -> bool,
      causes: Events, i: nat)
    requires i < |fds| && InOrder(fds) && forall events :: holds(events) <==> events * causes != {}
    requires NVAL !in causes && NVAL !in Answers(fds, open, answers, round)[i]
    ensures fds[i].fd.value in Chosen(fds, Answers(fds, open, answers, round), |fds|, holds) <==>
            fds[i].fd.value in open && answers(round, i) * causes != {}
  {
    var revents := Answers(fds, open, answers, round);
    assert fds[i].fd.value in open && revents[i] == answers(round, i);
    if holds(revents[i]) {
      assert fds[i].fd.value in Chosen(fds, revents, |fds|, holds);
    }
  }

  /** An output set that holds the chosen descriptors holds exactly those that the files give cause for. */
  lemma HeldByCauses(
      out: FdSet?, fds: seq<PollFd>, open: set<nat>, answers: (nat, nat) -> Events, round: nat,
      holds: Events -> bool, causes: Events)
    requires InOrder(fds) && NVAL !in causes && forall events :: holds(events) <==> events * causes != {}
    requires forall i | 0 <= i < |fds| :: NVAL !in Answers(fds, open, answers, round)[i]
    requires Holds(out, Chosen(fds, Answers(fds, open, answers, round), |fds|, holds))
    ensures HoldsCauses(out, fds, open, answers, round, causes)
  {
    forall i | 0 <= i < |fds|
      ensures fds[i].fd.value in Chosen(fds, Answers(fds, open, answers, round), |fds|, holds) <==>
              fds[i].fd.value in open && answers(round, i) * causes != {}
    {
      ChosenByCauses(fds, open, answers, round, holds, causes, i);
    }
  }

  /** Files do not answer that there is no such file. */
  ghost predicate NeverInvalid(fds: seq<PollFd>, answers: (nat, nat) -> Events) {
    forall k: nat, i: nat | i < |fds| :: NVAL !in answers(k, i)
  }

  /** `EBADF` is answered exactly when some requested descriptor is not open, whatever else happens. */
  lemma BadExactlyWhen(
      r: SelectResult, fds: seq<PollFd>, open: set<nat>, answers: (nat, nat) -> Events, waits: seq<Wait>,
      readfds: FdSet?, writefds: FdSet?, exceptfds: FdSet?)
    requires InOrder(fds) && NeverInvalid(fds, answers)
    requires Outcome(r, fds, Resolve(fds, open, answers, 0, waits), open, answers, readfds, writefds, exceptfds)
    ensures r.BadDescriptor? <==> exists i :: 0 <= i < |fds| && fds[i].fd.value !in open
  {
    var polled := Resolve(fds, open, answers, 0, waits);
    if i :| 0 <= i < |fds| && fds[i].fd.value !in open {
      SpeaksWhenReady(fds, open, answers, 0);
      assert polled == Ready(0);
      assert NVAL in Answers(fds, open, answers, 0)[i];
    } else if polled.Ready? {
      var revents := Answers(fds, open, answers, polled.round);
      forall i | 0 <= i < |revents|
        ensures NVAL !in revents[i]
      {
        assert NVAL !in answers(polled.round, i);
      }
    }
  }

  method PollRequests(
      fds: seq<PollFd>, readfds: FdSet?, writefds: FdSet?, exceptfds: FdSet?,
      open: set<nat>, answers: (nat, nat) -> Events, waits: seq<Wait>)
    returns (r: SelectResult)
    requires InOrder(fds) && Separate(readfds, writefds, exceptfds)
    requires Holds(readfds, {}) && Holds(writefds, {}) && Holds(exceptfds, {})
    modifies readfds, writefds, exceptfds
    ensures !r.InvalidArgument?
    ensures Outcome(r, fds, Resolve(fds, open, answers, 0, waits), open, answers, readfds, writefds, exceptfds)
  {
    var revents := new Events[|fds|](i => {});
    var polled, count := DoPoll(fds, open, answers, waits, revents);
    match polled {
      case Failed => return PollFailed;
      case StillWaiting => return NotYet;
      case _ =>
    }
    if count == 0 {
      return Selected(0);
    }
    r := StoreResults(fds, revents[..], readfds, writefds, exceptfds);
  }

  /**
    A successful `select` returns the number of bits in its three output sets. The sets hold exactly
    the requested descriptors whose results count as readable, writable or exceptional in the round
    that decided the poll; without such a round they are empty.
   */
  method DoSelect(
      nfds: int, readfds: FdSet?, writefds: FdSet?, exceptfds: FdSet?,
      open: set<nat>, answers: (nat, nat) -> Events, waits: seq<Wait>)
    returns (r: SelectResult)
    requires (readfds != null ==> readfds.Valid()) && (writefds != null ==> writefds.Valid())
    requires (exceptfds != null ==> exceptfds.Valid()) && Separate(readfds, writefds, exceptfds)
    modifies readfds, writefds, exceptfds
    ensures r.InvalidArgument? <==> nfds < 0 || nfds > FD_SETSIZE
    ensures !r.InvalidArgument? ==>
              var fds := old(Requests(nfds, View(readfds), View(writefds), View(exceptfds)));
              Outcome(r, fds, Resolve(fds, open, answers, 0, waits), open, answers, readfds, writefds, exceptfds)
    ensures !r.InvalidArgument? ==>
              var fds := old(Requests(nfds, View(readfds), View(writefds), View(exceptfds)));
              && (NeverInvalid(fds, answers) ==>
                    (r.BadDescriptor? <==> exists i :: 0 <= i < |fds| && fds[i].fd.value !in open))
              && var polled := Resolve(fds, open, answers, 0, waits);
                 (r.Selected? && polled.Ready? ==>
                    && HoldsCauses(readfds, fds, open, answers, polled.round, {IN, HUP, ERR})
                    && HoldsCauses(writefds, fds, open, answers, polled.round, {OUT, ERR})
                    && HoldsCauses(exceptfds, fds, open, answers, polled.round, {PRI}))
  {
    if nfds < 0 || nfds > FD_SETSIZE {
      return InvalidArgument;
    }
    var fds := BuildRequests(nfds, readfds, writefds, exceptfds);
    ClearAll(readfds, writefds, exceptfds);
    r := PollRequests(fds, readfds, writefds, exceptfds, open, answers, waits);
    if NeverInvalid(fds, answers) {
      BadExactlyWhen(r, fds, open, answers, waits, readfds, writefds, exceptfds);
    }
    ghost var polled := Resolve(fds, open, answers, 0, waits);
    if r.Selected? && polled.Ready? {
      AllHeldByCauses(r, fds, open, answers, polled.round, readfds, writefds, exceptfds);
    }
  }

  lemma AllHeldByCauses(
      r: SelectResult, fds: seq<PollFd>, open: set<nat>, answers: (nat, nat) -> Events, round: nat,
      readfds: FdSet?, writefds: FdSet?, exceptfds: FdSet?)
    requires InOrder(fds) && r.Selected?
    requires Reports(r, fds, Answers(fds, open, answers, round), readfds, writefds, exceptfds)
    ensures HoldsCauses(readfds, fds, open, answers, round, {IN, HUP, ERR})
    ensures HoldsCauses(writefds, fds, open, answers, round, {OUT, ERR})
    ensures HoldsCauses(exceptfds, fds, open, answers, round, {PRI})
  {
    forall events: Events
      ensures Readable(events) <==> events * {IN, HUP, ERR} != {}
      ensures Writable(events) <==> events * {OUT, ERR} != {}
      ensures Exceptional(events) <==> events * {PRI} != {}
    {
      CausesOfResults(events);
    }
    HeldByCauses(readfds, fds, open, answers, round, Readable, {IN, HUP, ERR});
    HeldByCauses(writefds, fds, open, answers, round, Writable, {OUT, ERR});
    HeldByCauses(exceptfds, fds, open, answers, round, Exceptional, {PRI});
  }

  /** Every descriptor reported is below `nfds` and was named by some input set. */
  lemma ChosenWasRequested(
      nfds: nat, r: Wanted, w: Wanted, e: Wanted, revents: seq<Events>, holds: Events -> bool, fd: nat)
    requires |revents| == |Requests(nfds, r, w, e)|
    requires fd in Chosen(Requests(nfds, r, w, e), revents, |revents|, holds)
    ensures fd < nfds && (Wants(r, fd) || Wants(w, fd) || Wants(e, fd))
  {
  }

  // ---------------------------------------------------------------------------
  // Whether a descriptor is reported in a set that named it
  // ---------------------------------------------------------------------------

  /** Files answer with what they were asked for, and with errors and hang-ups in any case. */
  ghost predicate AnswersTheMask(fds: seq<PollFd>, answers: (nat, nat) -> Events, round: nat) {
    forall i: nat | i < |fds| :: answers(round, i) <= fds[i].events + {ERR, HUP}
  }

  /** The result of request `i` is among what was asked for, errors, hang-ups and "no such file". */
  ghost predicate Masked(fds: seq<PollFd>, revents: seq<Events>, i: nat)
    requires |revents| == |fds|
  {
    i < |fds| ==> revents[i] <= fds[i].events + {ERR, HUP, NVAL}
  }

  lemma AnswersAreMasked(fds: seq<PollFd>, open: set<nat>, answers: (nat, nat) -> Events, round: nat)
    requires AnswersTheMask(fds, answers, round)
    ensures forall i: nat :: Masked(fds, Answers(fds, open, answers, round), i)
  {
    forall i: nat
      ensures Masked(fds, Answers(fds, open, answers, round), i)
    {
      if i < |fds| {
        assert answers(round, i) <= fds[i].events + {ERR, HUP};
      }
    }
  }

  /** All descriptors reported in an output set were named by the same set on input. */
  ghost predicate ReportsOnlyNamed(fds: seq<PollFd>, revents: seq<Events>, wanted: Wanted, holds: Events -> bool)
    requires |fds| == |revents| && forall i | 0 <= i < |fds| :: fds[i].fd.Some?
  {
    forall fd | fd in Chosen(fds, revents, |fds|, holds) :: Wants(wanted, fd)
  }

  /** What an unasked result can be: only errors and hang-ups get past the mask. */
  lemma UnaskedResult(fds: seq<PollFd>, revents: seq<Events>, r: Wanted, w: Wanted, e: Wanted, i: nat)
    requires i < |fds| == |revents| && fds[i].fd.Some? && fds[i].events == EventsOf(r, w, e, fds[i].fd.value)
    requires Masked(fds, revents, i)
    ensures IN in revents[i] ==> Wants(r, fds[i].fd.value)
    ensures OUT in revents[i] ==> Wants(w, fds[i].fd.value)
    ensures PRI in revents[i] ==> Wants(e, fds[i].fd.value)
  {
  }

  /** The readable set stays inside what it named exactly when no other request has an error or a hang-up. */
  lemma ReadableNamedExactlyWhen(
      nfds: nat, r: Wanted, w: Wanted, e: Wanted, open: set<nat>, answers: (nat, nat) -> Events, round: nat)
    requires AnswersTheMask(Requests(nfds, r, w, e), answers, round)
    ensures var fds := Requests(nfds, r, w, e);
      var revents := Answers(fds, open, answers, round);
      ReportsOnlyNamed(fds, revents, r, Readable) <==>
        forall i | 0 <= i < |fds| && !Wants(r, fds[i].fd.value) :: HUP !in revents[i] && ERR !in revents[i]
  {
    var fds := Requests(nfds, r, w, e);
    var revents := Answers(fds, open, answers, round);
    AnswersAreMasked(fds, open, answers, round);
    forall i | 0 <= i < |fds|
      ensures Readable(revents[i]) ==> Wants(r, fds[i].fd.value) || HUP in revents[i] || ERR in revents[i]
      ensures Readable(revents[i]) ==> fds[i].fd.value in Chosen(fds, revents, |fds|, Readable)
    {
      assert Masked(fds, revents, i);
      UnaskedResult(fds, revents, r, w, e, i);
    }
  }

  /** The writable set stays inside what it named exactly when no other request has an error. */
  lemma WritableNamedExactlyWhen(
      nfds: nat, r: Wanted, w: Wanted, e: Wanted, open: set<nat>, answers: (nat, nat) -> Events, round: nat)
    requires AnswersTheMask(Requests(nfds, r, w, e), answers, round)
    ensures var fds := Requests(nfds, r, w, e);
      var revents := Answers(fds, open, answers, round);
      ReportsOnlyNamed(fds, revents, w, Writable) <==>
        forall i | 0 <= i < |fds| && !Wants(w, fds[i].fd.value) :: ERR !in revents[i]
  {
    var fds := Requests(nfds, r, w, e);
    var revents := Answers(fds, open, answers, round);
    AnswersAreMasked(fds, open, answers, round);
    forall i | 0 <= i < |fds|
      ensures Writable(revents[i]) ==> Wants(w, fds[i].fd.value) || ERR in revents[i]
      ensures Writable(revents[i]) ==> fds[i].fd.value in Chosen(fds, revents, |fds|, Writable)
    {
      assert Masked(fds, revents, i);
      UnaskedResult(fds, revents, r, w, e, i);
    }
  }

  /** The exceptional set always does. */
  lemma ExceptionalAlwaysNamed(
      nfds: nat, r: Wanted, w: Wanted, e: Wanted, open: set<nat>, answers: (nat, nat) -> Events, round: nat)
    requires AnswersTheMask(Requests(nfds, r, w, e), answers, round)
    ensures var fds := Requests(nfds, r, w, e);
      ReportsOnlyNamed(fds, Answers(fds, open, answers, round), e, Exceptional)
  {
    var fds := Requests(nfds, r, w, e);
    var revents := Answers(fds, open, answers, round);
    AnswersAreMasked(fds, open, answers, round);
    forall i | 0 <= i < |fds|
      ensures Exceptional(revents[i]) ==> Wants(e, fds[i].fd.value)
    {
      assert Masked(fds, revents, i);
      UnaskedResult(fds, revents, r, w, e, i);
    }
  }

  /** A call that reports a descriptor as readable that only the write set named: its file has hung up. */
  lemma ReportedUnasked(fds: seq<PollFd>, r: Wanted, answers: (nat, nat) -> Events)
    requires r == Some({}) && fds == Requests(1, r, Some({0}), None) && answers(0, 0) == {HUP}
    ensures AnswersTheMask(fds, answers, 0) && Resolve(fds, {0}, answers, 0, []) == Ready(0)
    ensures !ReportsOnlyNamed(fds, Answers(fds, {0}, answers, 0), r, Readable)
  {
    RequestsComplete(1, r, Some({0}), None, 0);
    var revents := Answers(fds, {0}, answers, 0);
    assert |fds| == 1;
    assert revents[0] == {HUP};
    if CountReady(revents) == 0 {
      ZeroMeansNone(revents);
    }
    assert 0 in Chosen(fds, revents, 1, Readable);
  }
}
