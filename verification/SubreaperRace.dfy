/**
  Two runs in which the subreaper marks stop being inherited. In both, processes 2, 3, 4, 5 form a
  chain below init, and in the end 5 is an unmarked child of a marked subreaper, which the kernel's
  search for a reaper from 5 misses.

  In the first run nobody is marking when things go wrong. Process 4 starts to exit and remembers its
  parent 3. Process 3 exits and hands 4 to init. Process 2 becomes a subreaper and marks 2 and 3, but
  no longer 4 and 5. Process 4 goes on climbing from 3 to 2, finds a subreaper there and gives it 5.

  In the second run the move goes to the parent. Process 2 becomes a subreaper and marks 3. Process 3
  becomes one too and, carrying the mark already, marks nobody. Process 2 marks 4. Process 4 exits and
  gives 5 to 3, before 2 gets to the children of 4.
 */
module SubreaperRace {
  import opened Wrappers
  import opened ProcessTree
  import opened Lifecycle
  import opened Reachability

  ghost predicate IsChain(ps: Procs) {
    && ps.Keys == {1, 2, 3, 4, 5}
    && ps[1] == Running(0, {2}, false, false) && ps[2] == Running(1, {3}, false, false)
    && ps[3] == Running(2, {4}, false, false) && ps[4] == Running(3, {5}, false, false)
    && ps[5] == Running(4, {}, false, false)
  }

  lemma ReachableChain() returns (s: State)
    ensures Reachable(s) && IsChain(s.procs) && s.clones == map[] && s.exits == map[] && s.marking == map[]
  {
    ReachableBoot();
    s := BOOT;
    ReachableFork(s, 1);
    s := Forked(s, 1);
    assert s.procs[1].children.value == {2};
    ReachableFork(s, 2);
    s := Forked(s, 2);
    assert s.procs[2].children.value == {3};
    ReachableFork(s, 3);
    s := Forked(s, 3);
    assert s.procs[3].children.value == {4};
    ReachableFork(s, 4);
    s := Forked(s, 4);
    assert s.procs[4].children.value == {5};
  }

  /** 4 remembers its parent 3; then 3 exits and hands 4 over to init. */
  lemma ParentExits(s: State) returns (t: State)
    requires Reachable(s) && IsChain(s.procs) && s.clones == map[] && s.exits == map[] && s.marking == map[]
    ensures Reachable(t) && t.clones == map[] && t.exits == map[4 := Searching(3)] && t.marking == map[]
    ensures t.procs == WithChildrenMoved(s.procs, 3, 1)
  {
    ReachableStep(s, StartSearch(4));
    var s1 := Apply(s, StartSearch(4));
    ReachableStep(s1, StartSearch(3));
    var s2 := Apply(s1, StartSearch(3));
    ReachableStep(s2, ClimbOne(3, false));
    var s3 := Apply(s2, ClimbOne(3, false));
    assert s3.exits[3] == FoundReaper(1);
    ReachableStep(s3, MoveChildren(3));
    t := Apply(s3, MoveChildren(3));
    assert t.exits == map[4 := Searching(3)];
  }

  /** What the records look like once 2 has become a subreaper. */
  ghost predicate IsMarked(ps: Procs) {
    && ps.Keys == {1, 2, 3, 4, 5}
    && ps[2] == Running(1, {3}, true, true)
    && ps[3].parent == 2 && ps[3].marked && !ps[3].subreaper && ps[3].children.None?
    && ps[4] == Running(1, {5}, false, false) && ps[5] == Running(4, {}, false, false)
    && ps[1] == Running(0, {2, 4}, false, false)
  }

  /** 2 becomes a subreaper and marks 3, which has no children any more. */
  lemma MarksDown(s: State, ps: Procs) returns (t: State)
    requires Reachable(s) && IsChain(ps) && s.procs == WithChildrenMoved(ps, 3, 1)
    requires s.exits == map[4 := Searching(3)] && s.marking == map[]
    ensures Reachable(t) && IsMarked(t.procs) && t.exits == s.exits && t.marking == map[]
  {
    assert s.procs[1].children.value == {2, 4};
    var s1 := MarkingStarts(s, 2, 3);
    MarkingEnds(s1, 2, 3);
    t := s1.(marking := map[]);
  }

  /** `p` becomes a subreaper and marks its only child. */
  lemma MarkingStarts(s: State, p: Pid, c: Pid) returns (t: State)
    requires Reachable(s) && Active(s, p) && !s.procs[p].marked && s.marking == map[]
    requires s.procs[p].children == Some({c}) && c != p && c in s.procs && !s.procs[c].marked
    ensures Reachable(t) && t.clones == s.clones && t.exits == s.exits && t.marking == map[p := {c}]
    ensures t.procs == WithFlag(s.procs, p)[c := s.procs[c].(marked := true)]
  {
    ReachableStep(s, SetSubreaper(p));
    var s1 := Apply(s, SetSubreaper(p));
    ReachableStep(s1, MarkNext(p, p));
    assert NewlyMarked(s1.procs, p) == {c};
    t := Apply(s1, MarkNext(p, p));
    assert s1.marking[p] - {p} + {c} == {c};
  }

  /** The last one pending has no children, so nothing changes but that the marking ends. */
  lemma MarkingEnds(s: State, p: Pid, q: Pid)
    requires Reachable(s) && s.marking == map[p := {q}] && q in s.procs && NewlyMarked(s.procs, q) == {}
    ensures Enabled(s, MarkNext(p, q)) && Reachable(Apply(s, MarkNext(p, q)))
    ensures Apply(s, MarkNext(p, q)) == s.(marking := map[])
  {
    ReachableStep(s, MarkNext(p, q));
    assert s.marking[p] - {q} + {} == {};
    forall x | x in s.procs
      ensures WithChildrenMarked(s.procs, q)[x] == s.procs[x]
    {
      assert x !in NewlyMarked(s.procs, q);
    }
    assert WithChildrenMarked(s.procs, q) == s.procs;
  }

  /** 4 climbs from the stale 3 to 2. */
  lemma StaleClimb(s: State) returns (t: State)
    requires Reachable(s) && s.exits == map[4 := Searching(3)] && IsMarked(s.procs) && s.marking == map[]
    ensures Reachable(t) && IsMarked(t.procs) && t.exits == map[4 := FoundReaper(2)] && t.marking == map[]
  {
    ReachableStep(s, ClimbOne(4, false));
    var s1 := Apply(s, ClimbOne(4, false));
    assert s1.exits[4] == Searching(2);
    ReachableStep(s1, ClimbOne(4, false));
    t := Apply(s1, ClimbOne(4, false));
    assert t.exits == map[4 := FoundReaper(2)];
  }

  /** A reachable state in which a marked subreaper has an unmarked child, and the two searches disagree. */
  lemma MarksCanBeLost() returns (s: State)
    ensures Reachable(s) && s.marking == map[] && !MarksInherited(s.procs)
    ensures 5 in s.procs && !s.procs[5].reaped && s.procs[5].children.Some?
    ensures MarkedSearch(s.procs, 5) == INIT && NearestReaper(s.procs, 5) == 2
  {
    var s0 := ReachableChain();
    var s1 := ParentExits(s0);
    var s2 := MarksDown(s1, s0.procs);
    var s3 := StaleClimb(s2);
    ReachableStep(s3, MoveChildren(4));
    s := Apply(s3, MoveChildren(4));
    assert s.procs[5] == Running(2, {}, false, false) && s.procs[2].marked && s.procs[2].subreaper;
    assert !MarkFits(s.procs, {}, 5);
    assert Up(s.procs, 5) == Some(2) && Up(s.procs, 2) == Some(1);
  }

  // ---------------------------------------------------------------------------
  // The second run
  // ---------------------------------------------------------------------------

  /** 2 and 3 are subreapers, 4 is marked, and 2 has still to mark the children of 4. */
  ghost predicate IsHalfMarked(s: State) {
    && s.procs.Keys == {1, 2, 3, 4, 5} && s.marking == map[2 := {4}] && s.clones == map[] && s.exits == map[]
    && s.procs[1] == Running(0, {2}, false, false) && s.procs[2] == Running(1, {3}, true, true)
    && s.procs[3] == Running(2, {4}, true, true) && s.procs[4] == Running(3, {5}, false, true)
    && s.procs[5] == Running(4, {}, false, false)
  }

  lemma HalfMarked(s: State) returns (t: State)
    requires Reachable(s) && s.clones == map[] && s.exits == map[] && s.marking == map[2 := {3}]
    requires s.procs.Keys == {1, 2, 3, 4, 5}
    requires s.procs[1] == Running(0, {2}, false, false) && s.procs[2] == Running(1, {3}, true, true)
    requires s.procs[3] == Running(2, {4}, false, true) && s.procs[4] == Running(3, {5}, false, false)
    requires s.procs[5] == Running(4, {}, false, false)
    ensures Reachable(t) && IsHalfMarked(t)
  {
    ReachableStep(s, SetSubreaper(3));
    var s1 := Apply(s, SetSubreaper(3));
    ReachableStep(s1, MarkNext(2, 3));
    assert NewlyMarked(s1.procs, 3) == {4};
    t := Apply(s1, MarkNext(2, 3));
    assert t.marking[2] == {4};
  }

  lemma ExitsTooEarly(s: State) returns (t: State)
    requires Reachable(s) && IsHalfMarked(s)
    ensures Reachable(t) && t.procs == WithChildrenMoved(s.procs, 4, 3) && t.marking == map[]
  {
    assert MarkedSearch(s.procs, 3) == 3;
    ReachableStep(s, SearchAndMove(4));
    var s1 := Apply(s, SearchAndMove(4));
    assert s1.procs == WithChildrenMoved(s.procs, 4, 3);
    MarkingEnds(s1, 2, 4);
    t := Apply(s1, MarkNext(2, 4));
  }

  /** The same although every move went to an ancestor: it came between two levels of the marking. */
  lemma MarksCanBeOvertaken() returns (s: State)
    ensures Reachable(s) && s.marking == map[] && !MarksInherited(s.procs)
    ensures MarkedSearch(s.procs, 5) == INIT && NearestReaper(s.procs, 5) == 3
  {
    var s0 := ReachableChain();
    var s1 := MarkingStarts(s0, 2, 3);
    var s2 := HalfMarked(s1);
    s := ExitsTooEarly(s2);
    assert s.procs[5] == Running(3, {}, false, false) && s.procs[3].marked && s.procs[3].subreaper;
    assert !MarkFits(s.procs, {}, 5);
    assert Up(s.procs, 5) == Some(3) && Up(s.procs, 3) == Some(2);
  }

  /** While 2 is between two levels, a search from below misses the two subreapers above it. */
  lemma SearchWhileMarking() returns (s: State)
    ensures Reachable(s) && MarkedSearch(s.procs, 5) == INIT && NearestReaper(s.procs, 5) == 3
  {
    var s0 := ReachableChain();
    var s1 := MarkingStarts(s0, 2, 3);
    s := HalfMarked(s1);
    assert NearestReaper(s.procs, 3) == 3 && NearestReaper(s.procs, 4) == 3;
    assert Up(s.procs, 5) == Some(4) && Up(s.procs, 4) == Some(3) && Up(s.procs, 3) == Some(2);
  }
}
