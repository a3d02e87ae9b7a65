/**
  The code of `clone`, `exit`, `wait` and `prctl` on the process tree.

  Each method is a loop over the records and is proved to do what the corresponding function of
  `ProcessTree` or `Waiting` says. The steps of `Lifecycle` use the same functions, so what is proved
  there of all interleavings is about this code. The loops that retry because other threads interfere
  are here as well: what the others do at each unlocked moment is an arbitrary function.
 */
module Kernel {
  import opened Wrappers
  import opened ProcessTree
  import opened Waiting
  import opened Lifecycle
  import opened Interference
  import PidTables

  class ProcessKernel {
    var procs: Procs
    const pids: PidTables.PidTable<Pid, Pid, Pid, Pid>

    ghost predicate Valid()
      reads this, pids
    {
      && Tree(procs)
      && pids.Valid()
      && PidTables.Processes(pids.entries).Keys == Unreaped(procs)
    }

    /** Only init exists after booting. */
    constructor Boot()
      ensures Valid() && fresh(pids)
      ensures procs == map[INIT := NewProc(0, false)]
      ensures pids.processCount == 1
    {
      procs := map[INIT := NewProc(0, false)];
      pids := new PidTables.PidTable();
      new;
      pids.InsertProcess(INIT, INIT, INIT);
      assert Unreaped(procs) == {INIT};
      forall p: Pid
        ensures Fits(procs, p)
      {
      }
    }

    // -------------------------------------------------------------------------
    // exit.rs
    // -------------------------------------------------------------------------

    /**
      Climbs from the parent of `p`; `None` stands for "no subreaper, use init". Others may act after
      every read of a parent. A grandparent that has been reaped may also have been dropped; then
      the climb starts again.
     */
    method FindReaperProcess(
        p: Pid, others: (nat, Procs) -> Procs, dropped: nat -> bool, ghost quiet: nat, start: nat)
      returns (reaper: Option<Pid>, k: nat)
      requires Tree(procs) && Alive(procs, p) && p != INIT && Environment(others, p, quiet)
      modifies `procs
      ensures Tree(procs) && Alive(procs, p) && k > start
      ensures var r := if reaper.Some? then reaper.value else INIT;
        && r in procs && r < p
        && (start >= quiet ==>
              && procs == old(procs) && procs[p].parent in procs && r == MarkedSearch(procs, procs[p].parent)
              && (MarksInherited(procs) ==> r == NearestReaper(procs, procs[p].parent)))
    {
      assert Fits(procs, p);
      var parent := procs[p].parent;
      assert Fits(procs, parent);
      if MarksInherited(procs) {
        MarkedSearchIsNearest(procs, parent);
      }
      assert KeepsRecord(procs, others(start, procs), parent);
      procs := others(start, procs);
      k := start + 1;
      while true
        invariant Tree(procs) && Alive(procs, p) && k > start
        invariant parent in procs && parent < p && parent > 0
        invariant start >= quiet ==>
                    && procs == old(procs) && !procs[parent].reaped
                    && MarkedSearch(procs, parent) == MarkedSearch(procs, procs[p].parent)
        decreases Unrest(quiet, k), if procs[parent].reaped then 1 else 0, parent
      {
        if parent == INIT {
          assert Climb(procs, p, parent, false) == FoundReaper(INIT);
          return Some(parent), k;
        }
        assert Fits(procs, parent);
        if !procs[parent].marked {
          assert Climb(procs, p, parent, false) == FoundReaper(INIT);
          return None, k;
        }
        if procs[parent].subreaper && !procs[parent].zombie {
          assert Climb(procs, p, parent, false) == FoundReaper(parent);
          return Some(parent), k;
        }
        var grandparent := procs[parent].parent;
        assert Fits(procs, grandparent) && Fits(procs, p) && Fits(procs, procs[p].parent);
        var lost := procs[grandparent].reaped && dropped(k);
        if lost {
          grandparent := procs[p].parent;
        }
        assert Climb(procs, p, parent, lost) == Searching(grandparent);
        assert KeepsRecord(procs, others(k, procs), grandparent);
        procs := others(k, procs);
        k := k + 1;
        parent := grandparent;
      }
    }

    /** The records after the children in `done` have been moved from `p` to `r`. */
    ghost static function PartlyMoved(ps: Procs, p: Pid, r: Pid, done: set<Pid>): Procs
      requires p in ps && r in ps && ps[r].children.Some?
    {
      map q | q in ps ::
        if q == p then ps[q].(children := None)
        else if q == r then ps[q].(children := Some(ps[r].children.value + done))
        else if q in done then ps[q].(parent := r)
        else ps[q]
    }

    lemma PartlyMovedStep(ps: Procs, p: Pid, r: Pid, done: set<Pid>, c: Pid)
      requires p in ps && r in ps && ps[r].children.Some? && c in ps && c != p && c != r && r != p
      ensures var now := PartlyMoved(ps, p, r, done);
        PartlyMoved(ps, p, r, done + {c}) ==
          now[r := now[r].(children := Some(now[r].children.value + {c}))][c := now[c].(parent := r)]
    {
      assert ps[r].children.value + (done + {c}) == ps[r].children.value + done + {c};
      var now, goal := PartlyMoved(ps, p, r, done), PartlyMoved(ps, p, r, done + {c});
      forall q | q in ps
        ensures goal[q] == if q == r then now[r].(children := Some(now[r].children.value + {c}))
                           else if q == c then now[c].(parent := r) else now[q]
      {
      }
    }

    method MoveProcessChildren(p: Pid, r: Pid) returns (ok: bool)
      requires Tree(procs) && p in procs && procs[p].children.Some? && r in procs && r < p
      modifies `procs
      ensures ok == old(procs)[r].children.Some?
      ensures procs == if ok then WithChildrenMoved(old(procs), p, r) else old(procs)
    {
      if procs[r].children.None? {
        return false;
      }
      ghost var before := procs;
      assert Fits(procs, p);
      var todo := procs[p].children.value;
      ghost var done: set<Pid> := {};
      procs := procs[p := procs[p].(children := None)];
      assert before[r].children.value + done == before[r].children.value;
      while todo != {}
        invariant todo + done == before[p].children.value && todo !! done
        invariant procs == PartlyMoved(before, p, r, done)
        decreases todo
      {
        var c :| c in todo;
        assert c in before[p].children.value && Fits(before, c);
        procs := procs[r := procs[r].(children := Some(procs[r].children.value + {c}))];
        procs := procs[c := procs[c].(parent := r)];
        todo := todo - {c};
        PartlyMovedStep(before, p, r, done, c);
        done := done + {c};
      }
      assert done == before[p].children.value;
      return true;
    }

    /**
      Init keeps its children; any other process hands them to the reaper that is found, and searches
      again when that reaper has exited meanwhile. `seen` are the records at the moment of the move.
     */
    method MoveChildrenToReaperProcess(
        p: Pid, others: (nat, Procs) -> Procs, dropped: nat -> bool, ghost quiet: nat)
      returns (ghost seen: Procs, ghost r: Pid)
      requires Tree(procs) && Alive(procs, p) && Environment(others, p, quiet)
      modifies `procs
      ensures Tree(procs)
      ensures p == INIT ==> procs == old(procs)
      ensures p != INIT ==>
                && Tree(seen) && Alive(seen, p) && r in seen && r < p && seen[r].children.Some?
                && procs == WithChildrenMoved(seen, p, r)
      ensures p != INIT && quiet == 0 ==>
                seen == old(procs) && seen[p].parent in seen && r == MarkedSearch(seen, seen[p].parent)
    {
      seen, r := procs, INIT;
      if p == INIT {
        return;
      }
      var k := 0;
      while true
        invariant Tree(procs) && Alive(procs, p) && (quiet == 0 ==> procs == old(procs))
        decreases Unrest(quiet, k)
      {
        ghost var start := k;
        assert Fits(procs, p) && Fits(procs, procs[p].parent);
        SearchFindsAnOpenAncestor(procs, procs[p].parent);
        var reaper;
        reaper, k := FindReaperProcess(p, others, dropped, quiet, k);
        var target := if reaper.Some? then reaper.value else INIT;
        assert KeepsRecord(procs, others(k, procs), target);
        procs := others(k, procs);
        k := k + 1;
        seen, r := procs, target;
        if reaper.None? {
          MoveKeepsTree(procs, p, INIT);
          var moved := MoveProcessChildren(p, INIT);
          return;
        }
        var ok := MoveProcessChildren(p, target);
        if ok {
          MoveKeepsTree(seen, p, target);
          return;
        }
        assert start < quiet;
      }
    }

    /** Nobody else does anything. */
    static function Undisturbed(k: nat, ps: Procs): Procs {
      ps
    }

    static lemma UndisturbedIsEnvironment(p: Pid)
      ensures Environment(Undisturbed, p, 0)
    {
      forall k: nat, ps: Procs | Tree(ps) && Alive(ps, p)
        ensures Disturbs(ps, Undisturbed(k, ps), p)
      {
        forall q: Pid
          ensures KeepsRecord(ps, ps, q)
        {
        }
      }
    }

    static lemma ExitFacts(ps: Procs, p: Pid)
      requires Tree(ps) && p in ps && (p == INIT || ps[p].children.None?)
      ensures Tree(ps[p := ps[p].(zombie := true)]) && Unreaped(ps[p := ps[p].(zombie := true)]) == Unreaped(ps)
    {
      ZombieKeepsTree(ps, p);
    }

    /** The part of a process exit that changes the tree. */
    method ExitProcess(p: Pid)
      requires Valid() && p in procs && procs[p].children.Some? && !procs[p].zombie
      modifies `procs
      ensures Valid()
      ensures p == INIT ==> procs == old(procs)[p := old(procs)[p].(zombie := true)]
      ensures p != INIT ==>
                && old(procs)[p].parent in old(procs)
                && var r := MarkedSearch(old(procs), old(procs)[p].parent);
                   && r in old(procs) && r < p && old(procs)[r].children.Some?
                   && var zombie := old(procs)[p].(children := None, zombie := true);
                      procs == WithChildrenMoved(old(procs), p, r)[p := zombie]
    {
      ghost var before := procs;
      assert Fits(procs, p);
      UndisturbedIsEnvironment(p);
      ghost var seen, r := MoveChildrenToReaperProcess(p, Undisturbed, k => false, 0);
      assert Unreaped(procs) == Unreaped(before);
      ExitFacts(procs, p);
      procs := procs[p := procs[p].(zombie := true)];
    }

    // -------------------------------------------------------------------------
    // clone.rs
    // -------------------------------------------------------------------------

    static lemma LinkFacts(ps: Procs, creator: Pid, target: Pid, child: Pid)
      requires Tree(ps) && creator in ps && ps[creator].children.Some? && child !in ps && creator < child
      requires target == creator || (creator != INIT && target == ps[creator].parent)
      ensures target in ps && ps[target].children.Some?
      ensures Tree(WithChild(ps, child, target))
      ensures Unreaped(WithChild(ps, child, target)) == Unreaped(ps) + {child} && child !in Unreaped(ps)
    {
      assert Fits(ps, creator) && Fits(ps, target);
      WithChildKeepsTree(ps, child, target);
      UnreapedWithChild(ps, child, target);
    }

    /**
      Links a new process below its creator, or below its creator's parent for `CLONE_PARENT`. Others
      may act between reading the parent and locking it; when it has handed its children over
      meanwhile, it is read again. The parent that is linked to is the right one at that moment.
     */
    method LinkToParent(
        viaParent: bool, creator: Pid, child: Pid, others: (nat, Procs) -> Procs, ghost quiet: nat)
      returns (ghost seen: Procs, ghost target: Pid)
      requires Tree(procs) && Alive(procs, creator) && (viaParent ==> creator != INIT)
      requires child !in procs && creator < child && Environment(others, creator, quiet)
      requires forall k: nat, ps: Procs | child !in ps :: child !in others(k, ps)
      modifies `procs
      ensures Tree(procs) && Tree(seen) && creator in seen && child !in seen
      ensures target == (if viaParent then seen[creator].parent else creator)
      ensures target in seen && seen[target].children.Some? && procs == WithChild(seen, child, target)
      ensures child in procs && procs[child].parent == target && procs[child].marked == seen[target].marked
      ensures procs[child].children == Some({}) && procs[child].tracer == None && !procs[child].subreaper
      ensures !procs[child].zombie && !procs[child].reaped
      ensures quiet == 0 ==> seen == old(procs)
    {
      var k := 0;
      while true
        invariant Tree(procs) && Alive(procs, creator) && child !in procs && (quiet == 0 ==> procs == old(procs))
        decreases Unrest(quiet, k)
      {
        assert Fits(procs, creator);
        var realParent := if viaParent then procs[creator].parent else creator;
        assert KeepsRecord(procs, others(k, procs), realParent) && KeepsRecord(procs, others(k, procs), creator);
        procs := others(k, procs);
        k := k + 1;
        if procs[realParent].children.Some? {
          seen, target := procs, realParent;
          LinkFacts(procs, creator, realParent, child);
          var p := NewProc(realParent, false);
          if procs[realParent].marked {
            p := p.(marked := true);
          }
          var children := procs[realParent].children.value + {child};
          procs := procs[realParent := procs[realParent].(children := Some(children))];
          procs := procs[child := p];
          assert procs == WithChild(seen, child, realParent);
          return;
        }
      }
    }

    /** The same with the PID table, when nobody interferes. */
    method SetParentAndGroup(viaParent: bool, creator: Pid, child: Pid)
      requires Valid() && Alive(procs, creator) && (viaParent ==> creator != INIT)
      requires child !in procs && creator < child && child !in PidTables.Threads(pids.entries)
      modifies `procs, pids
      ensures Valid()
      ensures var target := if viaParent then old(procs)[creator].parent else creator;
        && target in old(procs) && old(procs)[target].children.Some?
        && procs == WithChild(old(procs), child, target)
        && child in procs && procs[child].parent == target && procs[child].marked == old(procs)[target].marked
      ensures procs[child].children == Some({}) && procs[child].tracer == None && !procs[child].subreaper
      ensures !procs[child].zombie && !procs[child].reaped
      ensures pids.processCount == old(pids.processCount) + 1
    {
      ghost var before := procs;
      UndisturbedIsEnvironment(creator);
      ghost var seen, target := LinkToParent(viaParent, creator, child, Undisturbed, 0);
      LinkFacts(before, creator, target, child);
      pids.InsertProcess(child, child, child);
    }

    // -------------------------------------------------------------------------
    // process/mod.rs
    // -------------------------------------------------------------------------

    /** The processes marked so far, given which of them have passed the mark on to their children. */
    ghost static predicate Spread(ps: Procs, now: Procs, p: Pid, queue: seq<Pid>, expanded: set<Pid>) {
      && now.Keys == ps.Keys
      && (forall q | q in ps :: SpreadAt(ps, now, p, queue, expanded, q))
      && (forall q | q in queue :: q in ps && q != p && !ps[q].marked && now[q].marked && Propagated(ps, p, q))
    }

    ghost static predicate SpreadAt(ps: Procs, now: Procs, p: Pid, queue: seq<Pid>, expanded: set<Pid>, q: Pid)
      requires q in ps && now.Keys == ps.Keys
    {
      && now[q] == ps[q].(subreaper := ps[q].subreaper || q == p, marked := now[q].marked)
      && (ps[q].marked || q == p ==> now[q].marked)
      && (now[q].marked ==> ps[q].marked || q == p || Propagated(ps, p, q))
      && (now[q].marked && !ps[q].marked ==> q == p || q in queue || q in expanded)
      && (q in expanded && ps[q].children.Some? ==>
            forall c | c in ps[q].children.value :: c in now && now[c].marked)
    }

    /** When the queue is empty, everything the mark propagates to has been marked. */
    static lemma {:induction false} SpreadIsComplete(ps: Procs, now: Procs, p: Pid, expanded: set<Pid>, x: Pid)
      requires Tree(ps) && p in ps && Spread(ps, now, p, [], expanded) && p in expanded
      requires Propagated(ps, p, x)
      ensures now[x].marked
    {
      var q := ps[x].parent;
      assert Fits(ps, x);
      if q != p {
        SpreadIsComplete(ps, now, p, expanded, q);
      }
      assert SpreadAt(ps, now, p, [], expanded, q);
    }

    static lemma SpreadDone(ps: Procs, now: Procs, p: Pid, expanded: set<Pid>)
      requires Tree(ps) && p in ps && !ps[p].marked && Spread(ps, now, p, [], expanded) && p in expanded
      ensures now == WithSubreaper(ps, p)
    {
      forall q | q in ps
        ensures now[q] == WithSubreaper(ps, p)[q]
      {
        assert SpreadAt(ps, now, p, [], expanded, q);
        if Propagated(ps, p, q) {
          SpreadIsComplete(ps, now, p, expanded, q);
        }
      }
    }

    static lemma SpreadMark(ps: Procs, now: Procs, p: Pid, queue: seq<Pid>, expanded: set<Pid>, c: Pid)
      requires p in ps && Spread(ps, now, p, queue, expanded)
      requires c in ps && !now[c].marked && Propagated(ps, p, c)
      ensures Spread(ps, now[c := now[c].(marked := true)], p, queue + [c], expanded)
    {
      var next := now[c := now[c].(marked := true)];
      assert SpreadAt(ps, now, p, queue, expanded, c) && SpreadAt(ps, now, p, queue, expanded, p);
      forall q | q in ps
        ensures SpreadAt(ps, next, p, queue + [c], expanded, q)
      {
        assert SpreadAt(ps, now, p, queue, expanded, q);
      }
    }

    static lemma SpreadExpand(
        ps: Procs, now: Procs, p: Pid, queue: seq<Pid>, rest: seq<Pid>, expanded: set<Pid>, q: Pid)
      requires Spread(ps, now, p, queue, expanded)
      requires forall x :: x in queue ==> x == q || x in rest
      requires forall x :: x in rest ==> x in queue
      requires q in ps && ps[q].children.Some? ==>
                 forall c | c in ps[q].children.value :: c in now && now[c].marked
      ensures Spread(ps, now, p, rest, expanded + {q})
    {
      forall x | x in ps
        ensures SpreadAt(ps, now, p, rest, expanded + {q}, x)
      {
        assert SpreadAt(ps, now, p, queue, expanded, x);
      }
    }

    ghost static function Unmarked(ps: Procs): set<Pid> {
      set q | q in ps && !ps[q].marked
    }

    static lemma ChildPropagated(ps: Procs, p: Pid, q: Pid, c: Pid)
      requires Tree(ps) && q in ps && (q == p || (!ps[q].marked && Propagated(ps, p, q)))
      requires ps[q].children.Some? && c in ps[q].children.value
      ensures c in ps && Propagated(ps, p, c)
    {
      assert Fits(ps, q) && Fits(ps, c);
    }

    static lemma SpreadStart(ps: Procs, p: Pid)
      requires p in ps
      ensures Spread(ps, ps[p := ps[p].(subreaper := true, marked := true)], p, [], {})
    {
      var now := ps[p := ps[p].(subreaper := true, marked := true)];
      forall q | q in ps
        ensures SpreadAt(ps, now, p, [], {}, q)
      {
      }
    }

    static lemma SubreaperKeepsShape(ps: Procs, p: Pid)
      requires Tree(ps) && p in ps
      ensures Tree(WithSubreaper(ps, p)) && Unreaped(WithSubreaper(ps, p)) == Unreaped(ps)
      ensures ps[p].marked ==> WithSubreaper(ps, p) == ps[p := ps[p].(subreaper := true, marked := true)]
    {
      SameShapeKeepsTree(ps, WithSubreaper(ps, p));
    }

    /** The records with the processes in `done` marked. */
    ghost static function PartlyMarked(ps: Procs, done: set<Pid>): Procs {
      map x | x in ps :: if x in done then ps[x].(marked := true) else ps[x]
    }

    /** `found` holds the processes in `done` that had no mark in `was`. */
    ghost static predicate Collected(found: seq<Pid>, was: Procs, done: set<Pid>) {
      forall x :: x in found <==> x in done && x in was && !was[x].marked
    }

    static lemma CollectOne(was: Procs, done: set<Pid>, c: Pid, found: seq<Pid>)
      requires Collected(found, was, done) && c in was
      ensures PartlyMarked(was, done + {c}) ==
              PartlyMarked(was, done)[c := PartlyMarked(was, done)[c].(marked := true)]
      ensures Collected(if PartlyMarked(was, done)[c].marked then found else found + [c], was, done + {c})
    {
    }

    static lemma ChildrenAreMarked(ps: Procs, now: Procs, was: Procs, q: Pid, found: seq<Pid>)
      requires Tree(ps) && q in ps && ps[q].children.Some? && now.Keys == was.Keys == ps.Keys
      requires was[q].children == ps[q].children && now == PartlyMarked(was, ps[q].children.value)
      requires Collected(found, was, ps[q].children.value)
      ensures now == WithChildrenMarked(was, q) && forall x :: x in found <==> x in NewlyMarked(was, q)
      ensures forall c | c in ps[q].children.value :: c in now && now[c].marked
      ensures if found == [] then now == was else Unmarked(now) < Unmarked(was)
    {
      forall c | c in ps[q].children.value
        ensures c in now && now[c].marked
      {
        assert Fits(ps, q);
      }
      if found == [] {
        assert forall x | x in was :: now[x] == was[x];
      } else {
        assert found[0] in found;
        assert found[0] in Unmarked(was) && found[0] !in Unmarked(now);
      }
    }

    /** Marks one process, and appends it to `found` if it had no mark yet. */
    method MarkOne(
        c: Pid, found: seq<Pid>, ghost ps: Procs, ghost p: Pid, ghost queue: seq<Pid>, ghost expanded: set<Pid>)
      returns (more: seq<Pid>)
      requires p in ps && Spread(ps, procs, p, queue + found, expanded) && c in ps && Propagated(ps, p, c)
      modifies `procs
      ensures Spread(ps, procs, p, queue + more, expanded)
      ensures c in procs && procs == old(procs)[c := old(procs)[c].(marked := true)]
      ensures more == if old(procs)[c].marked then found else found + [c]
    {
      if procs[c].marked {
        assert procs[c].(marked := true) == procs[c];
        return found;
      }
      SpreadMark(ps, procs, p, queue + found, expanded, c);
      procs := procs[c := procs[c].(marked := true)];
      more := found + [c];
      assert queue + found + [c] == queue + more;
    }

    /** Marks every child of `q` and returns those that had no mark yet: one `MarkNext` step of the protocol. */
    method MarkChildren(q: Pid, ghost ps: Procs, ghost p: Pid, ghost queue: seq<Pid>, ghost expanded: set<Pid>)
      returns (more: seq<Pid>)
      requires Tree(ps) && p in ps && Spread(ps, procs, p, queue, expanded)
      requires q in ps && procs[q].children == ps[q].children
      requires q == p || (!ps[q].marked && Propagated(ps, p, q))
      modifies `procs
      ensures Spread(ps, procs, p, queue + more, expanded)
      ensures q in old(procs) && procs == WithChildrenMarked(old(procs), q)
      ensures forall x :: x in more <==> x in NewlyMarked(old(procs), q)
      ensures ps[q].children.Some? ==> forall c | c in ps[q].children.value :: c in procs && procs[c].marked
      ensures if more == [] then procs == old(procs) else Unmarked(procs) < Unmarked(old(procs))
    {
      more := [];
      assert queue + more == queue;
      if procs[q].children.None? {
        return;
      }
      var todo := procs[q].children.value;
      ghost var done: set<Pid> := {};
      while todo != {}
        invariant todo + done == ps[q].children.value
        invariant Spread(ps, procs, p, queue + more, expanded)
        invariant procs == PartlyMarked(old(procs), done) && Collected(more, old(procs), done)
        decreases todo
      {
        var c :| c in todo;
        ChildPropagated(ps, p, q, c);
        CollectOne(old(procs), done, c, more);
        more := MarkOne(c, more, ps, p, queue, expanded);
        todo, done := todo - {c}, done + {c};
      }
      assert done == ps[q].children.value;
      ChildrenAreMarked(ps, procs, old(procs), q, more);
    }

    /** Marks breadth first below `p`, which has just been marked itself. */
    method PropagateHasChildSubreaper(p: Pid, ghost ps: Procs)
      requires Tree(ps) && p in ps && !ps[p].marked && Spread(ps, procs, p, [], {})
      modifies `procs
      ensures procs == WithSubreaper(ps, p)
    {
      ghost var expanded: set<Pid> := {};
      assert SpreadAt(ps, procs, p, [], {}, p);
      var queue := MarkChildren(p, ps, p, [], expanded);
      assert [] + queue == queue;
      SpreadExpand(ps, procs, p, queue, queue, expanded, p);
      expanded := expanded + {p};
      while queue != []
        invariant Spread(ps, procs, p, queue, expanded) && p in expanded
        decreases Unmarked(procs), |queue|
      {
        var q := queue[0];
        assert q in queue && SpreadAt(ps, procs, p, queue, expanded, q);
        var more := MarkChildren(q, ps, p, queue, expanded);
        SpreadExpand(ps, procs, p, queue + more, queue[1..] + more, expanded, q);
        queue := queue[1..] + more;
        expanded := expanded + {q};
      }
      SpreadDone(ps, procs, p, expanded);
    }

    /** `prctl(PR_SET_CHILD_SUBREAPER)`. */
    method SetChildSubreaper(p: Pid)
      requires Valid() && p in procs && procs[p].children.Some?
      modifies `procs
      ensures Valid()
      ensures procs == WithSubreaper(old(procs), p)
      ensures procs.Keys == old(procs).Keys && procs[p].subreaper && procs[p].marked
      ensures forall q | q in procs && q != p :: procs[q] == old(procs)[q].(marked := procs[q].marked)
      ensures MarksInherited(old(procs)) ==>
                && MarksInherited(procs)
                && forall q | q in procs && !procs[q].reaped ::
                     procs[q].marked <==> old(procs)[q].marked || IsAbove(old(procs), p, q)
    {
      ghost var ps := procs;
      var had := procs[p].marked;
      procs := procs[p := procs[p].(subreaper := true, marked := true)];
      if !had {
        SpreadStart(ps, p);
        PropagateHasChildSubreaper(p, ps);
      }
      SubreaperKeepsShape(ps, p);
      if MarksInherited(ps) {
        assert Fits(ps, p);
        SubreaperKeepsMarks(ps, p);
        forall q | q in ps && !ps[q].reaped
          ensures procs[q].marked <==> ps[q].marked || IsAbove(ps, p, q)
        {
          SubreaperMarksAllDescendants(ps, p, q);
        }
      }
    }

    // -------------------------------------------------------------------------
    // wait.rs
    // -------------------------------------------------------------------------

    static lemma ReapFacts(ps: Procs, w: Pid, c: Pid)
      requires Tree(ps) && w in ps && ps[w].children.Some? && c in ps[w].children.value
      requires c in ps && ps[c].zombie && ps[c].tracer.None?
      ensures w != c && c in Unreaped(ps)
      ensures Tree(WithReaped(ps, w, c)) && Unreaped(WithReaped(ps, w, c)) == Unreaped(ps) - {c}
    {
      assert Fits(ps, w) && Fits(ps, c);
      ReapKeepsTree(ps, w, c);
      UnreapedWithReaped(ps, w, c);
    }

    /** Drops the zombie `c` from the children of `w` and from the PID table; `w` inherits its CPU time. */
    method ReapZombieChild(w: Pid, c: Pid)
      requires Valid() && w in procs && procs[w].children.Some? && c in procs[w].children.value
      requires c in procs && procs[c].zombie && procs[c].tracer.None?
      modifies `procs, pids
      ensures Valid()
      ensures procs == WithReaped(old(procs), w, c)
      ensures procs[w].own == old(procs)[w].own && c !in procs[w].children.value
      ensures var was, child, now := old(procs)[w].reapedTime, old(procs)[c], procs[w].reapedTime;
        && now.user == was.user + child.own.user + child.reapedTime.user
        && now.kernel == was.kernel + child.own.kernel + child.reapedTime.kernel
      ensures pids.processCount == old(pids.processCount) - 1
    {
      ReapFacts(procs, w, c);
      var child := procs[c];
      assert c in PidTables.Processes(pids.entries);
      pids.RemoveProcess(c);
      var time := child.reapedTime.Plus(child.own);
      procs := procs[w := procs[w].(children := Some(procs[w].children.value - {c}),
                                    reapedTime := procs[w].reapedTime.Plus(time))];
      procs := procs[c := child.(reaped := true)];
    }

    method CleanupExitedTracee(w: Pid, p: Pid)
      requires Valid() && w in procs && procs[w].children.Some?
      requires p in procs && procs[p].zombie && procs[p].tracer == Some(w)
      modifies `procs, pids
      ensures Valid()
      ensures procs == WithTraceeReleased(old(procs), w, p)
    {
      assert Fits(procs, p) && Fits(procs, w);
      ghost var detached := procs[p := procs[p].(tracer := None)];
      SameShapeKeepsTree(procs, detached);
      assert Unreaped(detached) == Unreaped(procs);
      procs := procs[p := procs[p].(tracer := None)];
      if procs[p].parent == w {
        assert Fits(detached, p);
        ReapZombieChild(w, p);
      }
    }

    /** Scans the tracees of the calling thread in ascending order; only the main thread of `w` has any. */
    method TryWaitTracees(w: Pid, byMain: bool, targets: set<Pid>, stops: set<Pid>, nowait: bool)
      returns (result: WaitResult)
      requires Valid() && w in procs && procs[w].children.Some?
      modifies `procs, pids
      ensures Valid()
      ensures result == if byMain then TraceeResult(old(procs), w, targets, stops) else NoMatch
      ensures procs == if result.Found? && result.status.TraceeExit? && !nowait && result.status.pid in old(procs)
                       then WithTraceeReleased(old(procs), w, result.status.pid) else old(procs)
    {
      result := NoMatch;
      if !byMain {
        return;
      }
      var todo := set p | p in procs && procs[p].tracer == Some(w);
      ghost var hits := TraceeHits(procs, w, targets, stops);
      while todo != {}
        invariant todo <= set p | p in procs && procs[p].tracer == Some(w)
        invariant hits <= todo
        invariant result == if Tracees(procs, w, targets) <= todo then NoMatch else MatchedButUnready
        invariant procs == old(procs) && Valid()
        decreases todo
      {
        LeastExists(todo);
        var p :| p in todo && IsLeast(p, todo);
        if p in targets {
          result := MatchedButUnready;
          if procs[p].zombie || p in stops {
            assert IsLeast(p, hits) && IsLeast(Least(hits), hits);
            if procs[p].zombie {
              if !nowait {
                CleanupExitedTracee(w, p);
              }
              return Found(TraceeExit(p));
            }
            return Found(TraceeStop(p));
          }
          assert p in Tracees(procs, w, targets);
        }
        todo := todo - {p};
      }
      assert hits == {};
    }

    /** Scans the children of `w` in ascending order, skipping those that are being traced. */
    method TryWaitChildren(w: Pid, targets: set<Pid>, stops: set<Pid>, nowait: bool) returns (result: WaitResult)
      requires Valid() && w in procs && procs[w].children.Some?
      modifies `procs, pids
      ensures Valid()
      ensures result == ChildResult(old(procs), w, targets, stops)
      ensures procs == if result.Found? && result.status.Zombie? && !nowait && result.status.pid in old(procs)
                       then WithReaped(old(procs), w, result.status.pid) else old(procs)
    {
      result := NoMatch;
      assert Fits(procs, w);
      var todo := procs[w].children.value;
      ghost var hits := ChildHits(procs, w, targets, stops);
      while todo != {}
        invariant todo <= old(procs)[w].children.value
        invariant hits <= todo
        invariant result == if Children(old(procs), w, targets) <= todo then NoMatch else MatchedButUnready
        invariant procs == old(procs) && Valid()
        decreases todo
      {
        LeastExists(todo);
        var c :| c in todo && IsLeast(c, todo);
        if c in targets {
          result := MatchedButUnready;
          if procs[c].tracer.None? && (procs[c].zombie || c in stops) {
            assert IsLeast(c, hits) && IsLeast(Least(hits), hits);
            if procs[c].zombie {
              if !nowait {
                ReapZombieChild(w, c);
              }
              return Found(Zombie(c));
            }
            return Found(Stop(c));
          }
          assert c in Children(procs, w, targets);
        }
        todo := todo - {c};
      }
      assert hits == {};
    }

    /** One pass of the wait loop. */
    method WaitPass(w: Pid, byMain: bool, targets: set<Pid>, stops: set<Pid>, nowait: bool)
      returns (result: PassResult)
      requires Valid() && w in procs && procs[w].children.Some?
      modifies `procs, pids
      ensures Valid()
      ensures result == Pass(old(procs), w, byMain, targets, stops)
      ensures Answers(result, old(procs), w, byMain, targets, stops)
      ensures procs == if result.Reported? && !nowait && result.status.pid in old(procs)
                       then WithReportConsumed(old(procs), w, result.status) else old(procs)
    {
      PassAnswers(procs, w, byMain, targets, stops);
      var tracees := TryWaitTracees(w, byMain, targets, stops, nowait);
      if tracees.Found? {
        return Reported(tracees.status);
      }
      var children := TryWaitChildren(w, targets, stops, nowait);
      if children.Found? {
        return Reported(children.status);
      }
      if tracees.NoMatch? && children.NoMatch? {
        return NoChild;
      }
      return NothingYet;
    }
  }
}
