/**
  The process tree: the records that `clone`, `exit`, `wait` and `prctl` share, and what each locked
  section of theirs does to those records (kernel/src/process/{clone,exit,wait}.rs and
  kernel/src/process/process/mod.rs).

  PIDs come from a counter that only grows, so a PID is never used twice and doubles as the birth
  stamp of its process: a smaller PID is an older process.
 */
module ProcessTree {
  import opened Wrappers

  type Pid = nat

  const INIT: Pid := 1

  datatype Time = Time(user: nat, kernel: nat) {
    function Plus(other: Time): Time {
      Time(user + other.user, kernel + other.kernel)
    }
  }

  const ZERO := Time(0, 0)

  lemma PlusNothing(t: Time)
    ensures t.Plus(ZERO) == t
  {
  }

  /**
    One process. `children` is `None` once the process has handed its children to a reaper.
    `marked` is the kernel's `has_child_subreaper`. `tracer` is the process whose main thread traces
    this process's main thread. A reaped process keeps its record: a thread may still hold a
    reference to it. Init has no parent, and 0 is the PID of no process.
   */
  datatype Proc = Proc(
    parent: Pid, children: Option<set<Pid>>, zombie: bool, reaped: bool,
    subreaper: bool, marked: bool, tracer: Option<Pid>, own: Time, reapedTime: Time)

  type Procs = map<Pid, Proc>

  /** The record of a new process. */
  function NewProc(parent: Pid, marked: bool): Proc {
    Proc(parent, Some({}), false, false, false, marked, None, ZERO, ZERO)
  }

  // ---------------------------------------------------------------------------
  // The shape of the tree
  // ---------------------------------------------------------------------------

  /** Every parent link leads to an older process, even from a reaped process. */
  ghost predicate ParentIsOlder(ps: Procs, p: Pid) {
    p in ps && p != INIT ==> ps[p].parent in ps && ps[p].parent < p
  }

  /** A `children` map lists unreaped processes whose `parent` field names its owner. */
  ghost predicate ListsItsChildren(ps: Procs, q: Pid) {
    q in ps && ps[q].children.Some? ==>
      forall c | c in ps[q].children.value :: c in ps && c != INIT && !ps[c].reaped && ps[c].parent == q
  }

  /** Every unreaped process except init is listed by the process its `parent` field names. */
  ghost predicate IsListed(ps: Procs, p: Pid) {
    p in ps && p != INIT && !ps[p].reaped ==>
      ps[p].parent in ps && ps[ps[p].parent].children.Some? && p in ps[ps[p].parent].children.value
  }

  /** Children are handed over before a process becomes a zombie, and only untraced zombies are reaped. */
  ghost predicate EndsInOrder(ps: Procs, p: Pid) {
    p in ps ==>
      && (ps[p].zombie && p != INIT ==> ps[p].children.None?)
      && (ps[p].reaped ==> p != INIT && ps[p].zombie && ps[p].tracer.None?)
  }

  ghost predicate Fits(ps: Procs, p: Pid) {
    ParentIsOlder(ps, p) && ListsItsChildren(ps, p) && IsListed(ps, p) && EndsInOrder(ps, p)
  }

  ghost predicate Tree(ps: Procs) {
    && INIT in ps && ps[INIT].children.Some? && ps[INIT].parent == 0 && 0 !in ps
    && forall p: Pid :: Fits(ps, p)
  }

  /** The link to the parent, followed only towards older processes. */
  function Up(ps: Procs, p: Pid): (g: Option<Pid>)
    ensures g.Some? ==> g.value in ps && g.value < p
  {
    if p in ps && p != INIT && ps[p].parent in ps && ps[p].parent < p then Some(ps[p].parent) else None
  }

  /** The chain of parents from `p` upwards, `p` first. */
  function Chain(ps: Procs, p: Pid): (chain: seq<Pid>)
    ensures |chain| > 0 && chain[0] == p
  {
    if Up(ps, p).Some? then [p] + Chain(ps, Up(ps, p).value) else [p]
  }

  /** From any unreaped process the chain gets strictly older, stays unreaped and ends at init. */
  lemma {:induction false} ChainReachesInit(ps: Procs, p: Pid)
    requires Tree(ps) && p in ps && !ps[p].reaped
    ensures var chain := Chain(ps, p);
      && chain[|chain| - 1] == INIT
      && (forall i | 0 <= i < |chain| :: chain[i] in ps && !ps[chain[i]].reaped)
      && (forall i | 0 < i < |chain| :: chain[i] < chain[i - 1] && ps[chain[i]].children.Some?)
  {
    if p != INIT {
      assert Fits(ps, p) && Fits(ps, ps[p].parent);
      ChainReachesInit(ps, ps[p].parent);
      assert Chain(ps, p) == [p] + Chain(ps, ps[p].parent);
    }
  }

  /** An unreaped process is listed in exactly one `children` map, the one of its parent. */
  lemma ListedExactlyOnce(ps: Procs, p: Pid)
    requires Tree(ps) && p in ps && p != INIT && !ps[p].reaped
    ensures ps[p].parent in ps
    ensures forall q | q in ps :: ps[q].children.Some? && p in ps[q].children.value <==> q == ps[p].parent
  {
    assert Fits(ps, p);
    forall q | q in ps
      ensures ps[q].children.Some? && p in ps[q].children.value ==> q == ps[p].parent
    {
      assert Fits(ps, q);
    }
  }

  /** A process that has handed its children over is nobody's parent any more. */
  lemma LeftNoChildren(ps: Procs, q: Pid)
    requires Tree(ps) && q in ps && ps[q].children.None?
    ensures forall p | p in ps && p != INIT && !ps[p].reaped :: ps[p].parent != q
  {
    forall p | p in ps && p != INIT && !ps[p].reaped
      ensures ps[p].parent != q
    {
      assert Fits(ps, p);
    }
  }

  // ---------------------------------------------------------------------------
  // Searching for a reaper
  // ---------------------------------------------------------------------------

  /** The plain search: the nearest process from `c` upwards that is a live subreaper, else init. */
  function NearestReaper(ps: Procs, c: Pid): (r: Pid) {
    match Up(ps, c)
    case None => INIT
    case Some(g) => if ps[c].subreaper && !ps[c].zombie then c else NearestReaper(ps, g)
  }

  ghost predicate LiveSubreaper(ps: Procs, p: Pid) {
    p in ps && ps[p].subreaper && !ps[p].zombie
  }

  /** Position `i` of the chain is the first with a live subreaper or init. */
  ghost predicate IsFirstReaper(ps: Procs, chain: seq<Pid>, i: nat) {
    && i < |chain| && (chain[i] == INIT || LiveSubreaper(ps, chain[i]))
    && forall j | 0 <= j < i :: chain[j] != INIT && !LiveSubreaper(ps, chain[j])
  }

  /** The plain search answers the first live subreaper of the chain, or init when there is none before init. */
  lemma {:induction false} NearestIsFirst(ps: Procs, c: Pid) returns (i: nat)
    requires Tree(ps) && c in ps && !ps[c].reaped
    ensures IsFirstReaper(ps, Chain(ps, c), i) && Chain(ps, c)[i] == NearestReaper(ps, c)
  {
    assert Fits(ps, c);
    if c == INIT || LiveSubreaper(ps, c) {
      i := 0;
    } else {
      assert Fits(ps, ps[c].parent);
      i := NearestIsFirst(ps, ps[c].parent);
      assert Chain(ps, c) == [c] + Chain(ps, ps[c].parent);
      i := i + 1;
    }
  }

  /** The kernel's search, which gives up and answers init at the first process without the mark. */
  function MarkedSearch(ps: Procs, c: Pid): (r: Pid) {
    match Up(ps, c)
    case None => INIT
    case Some(g) =>
      if !ps[c].marked then INIT
      else if ps[c].subreaper && !ps[c].zombie then c
      else MarkedSearch(ps, g)
  }

  /**
    The mark of a process is inherited by its children, and a subreaper carries it. The children of
    the processes in `pending` are still to be marked.
   */
  ghost predicate MarkFits(ps: Procs, pending: set<Pid>, c: Pid) {
    c in ps && !ps[c].reaped ==>
      && (ps[c].subreaper ==> ps[c].marked)
      && (c != INIT && ps[c].parent in ps && ps[ps[c].parent].marked ==> ps[c].marked || ps[c].parent in pending)
  }

  ghost predicate MarksSettled(ps: Procs, pending: set<Pid>) {
    forall c: Pid :: MarkFits(ps, pending, c)
  }

  ghost predicate MarksInherited(ps: Procs) {
    MarksSettled(ps, {})
  }

  lemma {:induction false} UnmarkedHasNoSubreaperAbove(ps: Procs, c: Pid)
    requires Tree(ps) && MarksInherited(ps) && c in ps && !ps[c].reaped && !ps[c].marked
    ensures NearestReaper(ps, c) == INIT
  {
    if c != INIT {
      assert Fits(ps, c) && Fits(ps, ps[c].parent) && MarkFits(ps, {}, c);
      UnmarkedHasNoSubreaperAbove(ps, ps[c].parent);
    }
  }

  /** The shortcut through the marks does not change the answer. */
  lemma {:induction false} MarkedSearchIsNearest(ps: Procs, c: Pid)
    requires Tree(ps) && MarksInherited(ps) && c in ps && !ps[c].reaped
    ensures MarkedSearch(ps, c) == NearestReaper(ps, c)
  {
    if c != INIT {
      assert Fits(ps, c) && Fits(ps, ps[c].parent);
      if ps[c].marked {
        MarkedSearchIsNearest(ps, ps[c].parent);
      } else {
        UnmarkedHasNoSubreaperAbove(ps, c);
      }
    }
  }

  /** Every process from `c` upwards to `r` carries the mark. */
  predicate MarkedUpTo(ps: Procs, c: Pid, r: Pid) {
    c in ps && ps[c].marked && (c == r || (Up(ps, c).Some? && MarkedUpTo(ps, Up(ps, c).value, r)))
  }

  lemma {:induction false} NearestIsNoYounger(ps: Procs, c: Pid)
    ensures NearestReaper(ps, c) == INIT || NearestReaper(ps, c) <= c
  {
    match Up(ps, c) {
      case None =>
      case Some(g) => NearestIsNoYounger(ps, g);
    }
  }

  /**
    Whatever the marks are, the two searches agree exactly when the plain one ends at init or every
    process on its way carries the mark.
   */
  lemma {:induction false} SearchesAgreeExactlyWhen(ps: Procs, c: Pid)
    ensures MarkedSearch(ps, c) == NearestReaper(ps, c) <==>
            NearestReaper(ps, c) == INIT || MarkedUpTo(ps, c, NearestReaper(ps, c))
  {
    match Up(ps, c) {
      case None =>
      case Some(g) =>
        if !(ps[c].subreaper && !ps[c].zombie) {
          SearchesAgreeExactlyWhen(ps, g);
          NearestIsNoYounger(ps, g);
        }
    }
  }

  /** The kernel's search from an open process upwards answers an ancestor that still lists children. */
  lemma {:induction false} SearchFindsAnOpenAncestor(ps: Procs, c: Pid)
    requires Tree(ps) && c in ps && !ps[c].reaped && ps[c].children.Some?
    ensures MarkedSearch(ps, c) in Chain(ps, c)
    ensures MarkedSearch(ps, c) in ps && MarkedSearch(ps, c) <= c
    ensures ps[MarkedSearch(ps, c)].children.Some?
  {
    if c != INIT {
      assert Fits(ps, c) && Fits(ps, ps[c].parent);
      SearchFindsAnOpenAncestor(ps, ps[c].parent);
      ChainReachesInit(ps, ps[c].parent);
      assert Chain(ps, c) == [c] + Chain(ps, ps[c].parent);
    }
  }

  // ---------------------------------------------------------------------------
  // The locked sections, as functions on the records
  // ---------------------------------------------------------------------------

  /** A new process below `target`, which inherits the mark of `target`. */
  function WithChild(ps: Procs, child: Pid, target: Pid): Procs
    requires target in ps && ps[target].children.Some?
  {
    ps[target := ps[target].(children := Some(ps[target].children.value + {child}))]
      [child := NewProc(target, ps[target].marked)]
  }

  /** All children of `p` become children of `r`. */
  function WithChildrenMoved(ps: Procs, p: Pid, r: Pid): Procs
    requires p in ps && ps[p].children.Some? && r in ps && ps[r].children.Some?
  {
    map q | q in ps ::
      if q == p then ps[q].(children := None)
      else if q == r then ps[q].(children := Some(ps[r].children.value + ps[p].children.value))
      else if q in ps[p].children.value then ps[q].(parent := r)
      else ps[q]
  }

  /** `w` drops its zombie child `c` and takes over the CPU time `c` had accumulated. */
  function WithReaped(ps: Procs, w: Pid, c: Pid): Procs
    requires w in ps && ps[w].children.Some? && c in ps
  {
    ps[w := ps[w].(children := Some(ps[w].children.value - {c}),
                   reapedTime := ps[w].reapedTime.Plus(ps[c].reapedTime.Plus(ps[c].own)))]
      [c := ps[c].(reaped := true)]
  }

  /** Whether marking downwards from `p` gets to `x`: it does not pass a process that was marked before. */
  predicate Propagated(ps: Procs, p: Pid, x: Pid) {
    && x in ps && x != INIT && !ps[x].reaped && Up(ps, x).Some?
    && (ps[x].parent == p || (!ps[ps[x].parent].marked && Propagated(ps, p, ps[x].parent)))
  }

  /** `p` becomes a subreaper and marks downwards, unless it was marked before. */
  function WithSubreaper(ps: Procs, p: Pid): Procs
    requires p in ps
  {
    map q | q in ps ::
      if q == p then ps[q].(subreaper := true, marked := true)
      else if !ps[p].marked && Propagated(ps, p, q) then ps[q].(marked := true)
      else ps[q]
  }

  /** The flags of `p` as a new subreaper, before any other process is marked. */
  function WithFlag(ps: Procs, p: Pid): Procs
    requires p in ps
  {
    ps[p := ps[p].(subreaper := true, marked := true)]
  }

  /** Marking all children of `q` under its lock. */
  function WithChildrenMarked(ps: Procs, q: Pid): Procs
    requires q in ps
  {
    map x | x in ps ::
      if ps[q].children.Some? && x in ps[q].children.value then ps[x].(marked := true) else ps[x]
  }

  /** The children of `q` that had no mark before. */
  function NewlyMarked(ps: Procs, q: Pid): set<Pid>
    requires q in ps
  {
    if ps[q].children.None? then {} else set x | x in ps[q].children.value && x in ps && !ps[x].marked
  }

  /** Whether `p` is `x` or an ancestor of `x`. */
  predicate IsAbove(ps: Procs, p: Pid, x: Pid) {
    x == p || (Up(ps, x).Some? && IsAbove(ps, p, Up(ps, x).value))
  }

  /** With marks inherited, becoming a subreaper marks exactly the process and all its descendants. */
  lemma SubreaperMarksAllDescendants(ps: Procs, p: Pid, x: Pid)
    requires Tree(ps) && MarksInherited(ps) && p in ps && x in ps && !ps[x].reaped
    ensures WithSubreaper(ps, p)[x].marked <==> ps[x].marked || IsAbove(ps, p, x)
  {
    if x != p {
      if ps[p].marked {
        MarkedAbove(ps, p, x);
      } else {
        PropagatedOrMarked(ps, p, x);
      }
    }
  }

  lemma {:induction false} MarkedAbove(ps: Procs, p: Pid, x: Pid)
    requires Tree(ps) && MarksInherited(ps) && p in ps && x in ps && !ps[x].reaped
    ensures ps[p].marked && IsAbove(ps, p, x) ==> ps[x].marked
  {
    if x != INIT && x != p {
      assert Fits(ps, x) && Fits(ps, ps[x].parent) && MarkFits(ps, {}, x);
      MarkedAbove(ps, p, ps[x].parent);
    }
  }

  lemma {:induction false} PropagatedOrMarked(ps: Procs, p: Pid, x: Pid)
    requires Tree(ps) && MarksInherited(ps) && p in ps && x in ps && !ps[x].reaped && x != p
    ensures Propagated(ps, p, x) ==> IsAbove(ps, p, x)
    ensures IsAbove(ps, p, x) ==> ps[x].marked || Propagated(ps, p, x)
  {
    assert Fits(ps, x) && MarkFits(ps, {}, x);
    if x != INIT && ps[x].parent != p {
      assert Fits(ps, ps[x].parent);
      PropagatedOrMarked(ps, p, ps[x].parent);
    }
  }

  // ---------------------------------------------------------------------------
  // Every locked section keeps the tree
  // ---------------------------------------------------------------------------

  lemma WithChildKeepsTree(ps: Procs, child: Pid, target: Pid)
    requires Tree(ps) && target in ps && ps[target].children.Some?
    requires child !in ps && target < child && child != INIT
    ensures Tree(WithChild(ps, child, target))
  {
    forall q: Pid
      ensures Fits(WithChild(ps, child, target), q)
    {
      assert Fits(ps, q) && Fits(ps, target);
    }
  }

  lemma MoveKeepsTree(ps: Procs, p: Pid, r: Pid)
    requires Tree(ps) && p in ps && p != INIT && ps[p].children.Some? && !ps[p].zombie
    requires r in ps && ps[r].children.Some? && r < p
    ensures Tree(WithChildrenMoved(ps, p, r))
  {
    assert Fits(ps, p);
    forall q: Pid
      ensures Fits(WithChildrenMoved(ps, p, r), q)
    {
      assert Fits(ps, q) && Fits(ps, p) && Fits(ps, r);
    }
  }

  lemma ReapKeepsTree(ps: Procs, w: Pid, c: Pid)
    requires Tree(ps) && w in ps && ps[w].children.Some? && c in ps[w].children.value
    requires c in ps && ps[c].zombie && ps[c].tracer.None?
    ensures Tree(WithReaped(ps, w, c))
  {
    forall q: Pid
      ensures Fits(WithReaped(ps, w, c), q)
    {
      assert Fits(ps, q) && Fits(ps, w) && Fits(ps, c);
    }
  }

  /** A change of fields that the shape of the tree does not depend on. */
  ghost predicate SameShape(ps: Procs, after: Procs) {
    && after.Keys == ps.Keys
    && forall p | p in ps ::
         && after[p].parent == ps[p].parent && after[p].children == ps[p].children
         && after[p].zombie == ps[p].zombie && after[p].reaped == ps[p].reaped
         && (ps[p].reaped ==> after[p].tracer == ps[p].tracer)
  }

  lemma SameShapeKeepsTree(ps: Procs, after: Procs)
    requires Tree(ps) && SameShape(ps, after)
    ensures Tree(after)
  {
    forall q: Pid
      ensures Fits(after, q)
    {
      assert Fits(ps, q);
    }
  }

  lemma ZombieKeepsTree(ps: Procs, p: Pid)
    requires Tree(ps) && p in ps && (p == INIT || ps[p].children.None?)
    ensures Tree(ps[p := ps[p].(zombie := true)])
  {
    var after := ps[p := ps[p].(zombie := true)];
    forall q: Pid
      ensures Fits(after, q)
    {
      assert Fits(ps, q);
    }
  }

  // ---------------------------------------------------------------------------
  // Which locked sections keep the marks settled
  // ---------------------------------------------------------------------------

  lemma WithChildKeepsMarks(ps: Procs, pending: set<Pid>, child: Pid, target: Pid)
    requires Tree(ps) && MarksSettled(ps, pending) && target in ps && ps[target].children.Some?
    requires child !in ps
    ensures MarksSettled(WithChild(ps, child, target), pending)
  {
    forall q: Pid
      ensures MarkFits(WithChild(ps, child, target), pending, q)
    {
      assert MarkFits(ps, pending, q) && Fits(ps, q);
    }
  }

  lemma ReapKeepsMarks(ps: Procs, pending: set<Pid>, w: Pid, c: Pid)
    requires MarksSettled(ps, pending) && w in ps && ps[w].children.Some? && c in ps
    ensures MarksSettled(WithReaped(ps, w, c), pending)
  {
    forall q: Pid
      ensures MarkFits(WithReaped(ps, w, c), pending, q)
    {
      assert MarkFits(ps, pending, q);
    }
  }

  /** Becoming a subreaper leaves the marks settled, with the process itself pending if it had no mark. */
  lemma FlagKeepsMarks(ps: Procs, pending: set<Pid>, more: set<Pid>, p: Pid)
    requires MarksSettled(ps, pending) && p in ps && pending <= more && (ps[p].marked || p in more)
    ensures MarksSettled(WithFlag(ps, p), more)
  {
    forall c: Pid
      ensures MarkFits(WithFlag(ps, p), more, c)
    {
      assert MarkFits(ps, pending, c);
    }
  }

  /** Once the children of `q` are marked, `q` is done, and those that had no mark are pending instead. */
  lemma MarkingKeepsMarks(ps: Procs, pending: set<Pid>, after: set<Pid>, q: Pid)
    requires Tree(ps) && MarksSettled(ps, pending) && q in ps
    requires pending - {q} <= after && NewlyMarked(ps, q) <= after
    ensures MarksSettled(WithChildrenMarked(ps, q), after)
  {
    forall c: Pid
      ensures MarkFits(WithChildrenMarked(ps, q), after, c)
    {
      assert MarkFits(ps, pending, c) && Fits(ps, c) && Fits(ps, q);
      if c in ps && ps[c].parent in ps {
        assert ps[c].parent in NewlyMarked(ps, q) ==> ps[c].parent in after;
      }
    }
  }

  lemma SubreaperKeepsMarks(ps: Procs, p: Pid)
    requires Tree(ps) && MarksInherited(ps) && p in ps && !ps[p].reaped
    ensures MarksInherited(WithSubreaper(ps, p))
  {
    var after := WithSubreaper(ps, p);
    forall c: Pid
      ensures MarkFits(after, {}, c)
    {
      assert MarkFits(ps, {}, c) && Fits(ps, c);
      if c in ps && !ps[c].reaped && c != INIT {
        var q := ps[c].parent;
        assert Fits(ps, q);
        SubreaperMarksAllDescendants(ps, p, c);
        SubreaperMarksAllDescendants(ps, p, q);
      }
    }
  }

  /**
    A move keeps the marks settled exactly when it does not put an unmarked child below a reaper that
    carries the mark and has passed it on already.
   */
  lemma MoveKeepsMarksExactlyWhen(ps: Procs, pending: set<Pid>, p: Pid, r: Pid)
    requires Tree(ps) && MarksSettled(ps, pending) && p in ps && p != INIT
    requires ps[p].children.Some? && !ps[p].zombie && r in ps && ps[r].children.Some? && r < p
    ensures MarksSettled(WithChildrenMoved(ps, p, r), pending) <==>
            (ps[r].marked && r !in pending ==> forall c | c in ps[p].children.value :: c in ps && ps[c].marked)
  {
    var after := WithChildrenMoved(ps, p, r);
    assert Fits(ps, p);
    forall c: Pid | ps[r].marked && r !in pending ==> (c in ps[p].children.value ==> c in ps && ps[c].marked)
      ensures MarkFits(after, pending, c)
    {
      assert MarkFits(ps, pending, c);
    }
    if c :| c in ps[p].children.value && ps[r].marked && r !in pending && !ps[c].marked {
      assert !MarkFits(after, pending, c);
    }
  }

  /** A reaper above the exiting process is always a safe choice. */
  lemma MoveUpwardsKeepsMarks(ps: Procs, p: Pid, r: Pid)
    requires Tree(ps) && MarksInherited(ps) && p in ps && p != INIT && ps[p].children.Some? && !ps[p].zombie
    requires r in ps && ps[r].children.Some? && r < p && IsAbove(ps, r, p)
    ensures MarksInherited(WithChildrenMoved(ps, p, r))
  {
    assert Fits(ps, p);
    MarkedAbove(ps, r, p);
    forall c | c in ps[p].children.value
      ensures ps[r].marked ==> c in ps && ps[c].marked
    {
      assert MarkFits(ps, {}, c);
    }
    MoveKeepsMarksExactlyWhen(ps, {}, p, r);
  }

  lemma {:induction false} InChainIsAbove(ps: Procs, r: Pid, p: Pid)
    requires r in Chain(ps, p)
    ensures IsAbove(ps, r, p)
  {
    if r != p {
      assert Chain(ps, p) == [p] + Chain(ps, Up(ps, p).value);
      InChainIsAbove(ps, r, Up(ps, p).value);
    }
  }

  // ---------------------------------------------------------------------------
  // CPU time
  // ---------------------------------------------------------------------------

  /** The time a process accounts for: its own and that of the children it has reaped. */
  function Share(ps: Procs, p: Pid): Time {
    if p in ps && !ps[p].reaped then ps[p].own.Plus(ps[p].reapedTime) else ZERO
  }

  /** The time accounted for by all unreaped processes with a PID below `n`. */
  function Held(ps: Procs, n: nat): Time {
    if n == 0 then ZERO else Held(ps, n - 1).Plus(Share(ps, n - 1))
  }

  lemma {:induction false} HeldUnchanged(ps: Procs, after: Procs, n: nat)
    requires forall p: Pid | p < n :: Share(after, p) == Share(ps, p)
    ensures Held(after, n) == Held(ps, n)
  {
    if n > 0 {
      HeldUnchanged(ps, after, n - 1);
    }
  }

  lemma {:induction false} PlusSwap(a: Time, b: Time, c: Time)
    ensures a.Plus(b).Plus(c) == a.Plus(c).Plus(b)
  {
  }

  lemma {:induction false} HeldChangedAt(ps: Procs, after: Procs, n: nat, p: Pid)
    requires p < n && forall q: Pid | q < n && q != p :: Share(after, q) == Share(ps, q)
    ensures Held(after, n).Plus(Share(ps, p)) == Held(ps, n).Plus(Share(after, p))
  {
    if p == n - 1 {
      HeldUnchanged(ps, after, n - 1);
      PlusSwap(Held(ps, n - 1), Share(ps, p), Share(after, p));
    } else {
      HeldChangedAt(ps, after, n - 1, p);
      PlusSwap(Held(after, n - 1), Share(after, n - 1), Share(ps, p));
      PlusSwap(Held(ps, n - 1), Share(ps, n - 1), Share(after, p));
    }
  }

  /** Reaping hands the time of the child to the reaper: nothing is lost and nothing counted twice. */
  lemma ReapConservesTime(ps: Procs, w: Pid, c: Pid, n: nat)
    requires Tree(ps) && w in ps && ps[w].children.Some? && c in ps[w].children.value && c in ps && w < n && c < n
    ensures Held(WithReaped(ps, w, c), n) == Held(ps, n)
  {
    assert Fits(ps, w) && Fits(ps, c);
    var middle := ps[w := WithReaped(ps, w, c)[w]];
    HeldChangedAt(ps, middle, n, w);
    HeldChangedAt(middle, WithReaped(ps, w, c), n, c);
  }

  lemma MoveConservesTime(ps: Procs, p: Pid, r: Pid, n: nat)
    requires p in ps && ps[p].children.Some? && r in ps && ps[r].children.Some?
    ensures Held(WithChildrenMoved(ps, p, r), n) == Held(ps, n)
  {
    HeldUnchanged(ps, WithChildrenMoved(ps, p, r), n);
  }

  /** The PIDs of the processes that have not been reaped. */
  ghost function Unreaped(ps: Procs): set<Pid> {
    set p | p in ps && !ps[p].reaped
  }

  lemma UnreapedWithChild(ps: Procs, child: Pid, target: Pid)
    requires Tree(ps) && child !in ps && target in ps && ps[target].children.Some?
    ensures Unreaped(WithChild(ps, child, target)) == Unreaped(ps) + {child}
  {
    assert Fits(ps, target);
  }

  lemma UnreapedWithReaped(ps: Procs, w: Pid, c: Pid)
    requires Tree(ps) && w in ps && ps[w].children.Some? && c in ps
    ensures Unreaped(WithReaped(ps, w, c)) == Unreaped(ps) - {c}
  {
  }
}
