/**
  System V IPC identifiers (kernel/src/ipc/ipc_ids.rs, kernel/src/ipc/ipc_ns.rs and
  packages/ostd/libs/id-alloc/src/lib.rs).
 */
module Ipc {
  import opened Wrappers

  datatype Errno = EINVAL | ENOSPC | EEXIST | ENOENT

  // ---------------------------------------------------------------------------
  // The bitmap allocator
  // ---------------------------------------------------------------------------

  /** Allocates identifiers below a fixed capacity, always the least free one. */
  class IdAlloc {
    var bitset: seq<bool>
    var firstAvailableId: nat

    /** The hint is the least free identifier, or the capacity when none is free. */
    ghost predicate Valid()
      reads this
    {
      && firstAvailableId <= |bitset|
      && (forall i | 0 <= i < firstAvailableId :: bitset[i])
      && (firstAvailableId < |bitset| ==> !bitset[firstAvailableId])
    }

    ghost function Used(): set<nat>
      reads this
    {
      set i | 0 <= i < |bitset| && bitset[i]
    }

    constructor WithCapacity(capacity: nat)
      ensures Valid() && |bitset| == capacity && Used() == {}
    {
      bitset := seq(capacity, i => false);
      firstAvailableId := 0;
    }

    /** The first free identifier from `from` on, or the capacity. */
    method FindFree(from: nat) returns (i: nat)
      requires from <= |bitset|
      ensures from <= i <= |bitset|
      ensures forall j | from <= j < i :: bitset[j]
      ensures i < |bitset| ==> !bitset[i]
    {
      i := from;
      while i < |bitset| && bitset[i]
        invariant from <= i <= |bitset|
        invariant forall j | from <= j < i :: bitset[j]
      {
        i := i + 1;
      }
    }

    method Alloc() returns (id: Option<nat>)
      requires Valid()
      modifies this
      ensures Valid() && |bitset| == old(|bitset|)
      ensures id.None? ==> Used() == old(Used()) && forall i | 0 <= i < |bitset| :: i in Used()
      ensures id.Some? ==> id.value < |bitset| && id.value !in old(Used()) && Used() == old(Used()) + {id.value}
      ensures id.Some? ==> forall i | 0 <= i < id.value :: i in old(Used())
    {
      if firstAvailableId >= |bitset| {
        return None;
      }
      var i := firstAvailableId;
      bitset := bitset[i := true];
      firstAvailableId := FindFree(i + 1);
      return Some(i);
    }

    method AllocSpecific(id: nat) returns (r: Option<nat>)
      requires Valid() && id < |bitset|
      modifies this
      ensures Valid() && |bitset| == old(|bitset|)
      ensures r == if id in old(Used()) then None else Some(id)
      ensures Used() == old(Used()) + {id}
    {
      if bitset[id] {
        return None;
      }
      bitset := bitset[id := true];
      if id == firstAvailableId {
        firstAvailableId := FindFree(id + 1);
      }
      return Some(id);
    }

    method Free(id: nat)
      requires Valid() && id in Used()
      modifies this
      ensures Valid() && |bitset| == old(|bitset|)
      ensures Used() == old(Used()) - {id}
    {
      bitset := bitset[id := false];
      if id < firstAvailableId {
        firstAvailableId := id;
      }
    }
  }

  // ---------------------------------------------------------------------------
  // The identifier table
  // ---------------------------------------------------------------------------

  /** Maps identifiers to objects. Constructors and removal checks of callers are given by their result. */
  class IpcIds<T> {
    const maxId: nat
    var objects: map<nat, T>
    const idAllocator: IdAlloc

    /** The allocator and the map agree: used are exactly 0 and the identifiers of objects. */
    ghost predicate Valid()
      reads this, idAllocator
    {
      && maxId > 0 && 0 !in objects
      && idAllocator.Valid() && |idAllocator.bitset| == maxId + 1
      && idAllocator.Used() == {0} + objects.Keys
    }

    constructor (maxId: nat)
      requires maxId > 0
      ensures Valid() && objects == map[] && this.maxId == maxId && fresh(idAllocator)
    {
      this.maxId := maxId;
      objects := map[];
      idAllocator := new IdAlloc.WithCapacity(maxId + 1);
      new;
      var zero := idAllocator.AllocSpecific(0);
    }

    method Get(id: nat) returns (found: Option<T>)
      ensures found == if id in objects then Some(objects[id]) else None
    {
      if id !in objects {
        return None;
      }
      return Some(objects[id]);
    }

    method Remove(id: nat, mayRemove: Result<(), Errno>) returns (r: Result<(), Errno>)
      requires Valid()
      modifies `objects, idAllocator
      ensures Valid()
      ensures r == if id !in old(objects) then Err(EINVAL) else mayRemove
      ensures objects == if r.Ok? then old(objects) - {id} else old(objects)
    {
      if id !in objects {
        return Err(EINVAL);
      }
      if mayRemove.Err? {
        return mayRemove;
      }
      assert id in idAllocator.Used();
      objects := objects - {id};
      idAllocator.Free(id);
      return mayRemove;
    }

    /** Inserts at the least free identifier; a failed constructor gives the identifier back. */
    method InsertAuto(newObject: Result<T, Errno>) returns (r: Result<nat, Errno>)
      requires Valid()
      modifies `objects, idAllocator
      ensures Valid()
      ensures r.Ok? ==>
                && newObject.Ok? && 0 < r.value <= maxId && r.value !in old(objects)
                && objects == old(objects)[r.value := newObject.value]
                && forall i | 0 < i < r.value :: i in old(objects)
      ensures r.Err? ==> objects == old(objects)
      ensures r.Err? ==> (if forall i | 0 < i <= maxId :: i in objects then r.error == ENOSPC
                          else newObject.Err? && r.error == newObject.error)
    {
      ghost var used := idAllocator.Used();
      var id := idAllocator.Alloc();
      if id.None? {
        assert forall i | 0 < i <= maxId :: i in used;
        return Err(ENOSPC);
      }
      assert 0 in used;
      if newObject.Err? {
        idAllocator.Free(id.value);
        assert id.value !in objects;
        return Err(newObject.error);
      }
      objects := objects[id.value := newObject.value];
      return Ok(id.value);
    }

    /** Inserts at a given identifier; `EEXIST` when it is taken, and a failed constructor gives it back. */
    method InsertAt(id: nat, newObject: Result<T, Errno>) returns (r: Result<(), Errno>)
      requires Valid() && 0 < id <= maxId
      modifies `objects, idAllocator
      ensures Valid()
      ensures r == if id in old(objects) then Err(EEXIST)
                   else if newObject.Err? then Err(newObject.error) else Ok(())
      ensures objects == if r.Ok? then old(objects)[id := newObject.value] else old(objects)
    {
      var taken := idAllocator.AllocSpecific(id);
      if taken.None? {
        return Err(EEXIST);
      }
      if newObject.Err? {
        idAllocator.Free(id);
        return Err(newObject.error);
      }
      objects := objects[id := newObject.value];
      return Ok(());
    }
  }

  // ---------------------------------------------------------------------------
  // Semaphore sets by key
  // ---------------------------------------------------------------------------

  const SEMMNI: nat := 32000
  const SEMMSL: nat := 32000
  const IPC_PRIVATE: int := 0

  datatype SemSet = SemSet(key: int, numSems: nat)

  type Table = map<nat, SemSet>

  datatype Flags = Flags(create: bool, exclusive: bool)

  function NewSemSet(key: int, numSems: nat): Result<SemSet, Errno> {
    if numSems == 0 || numSems > SEMMSL then Err(EINVAL) else Ok(SemSet(key, numSems))
  }

  /** The identifier a key hashes to; the 32-bit key is taken as unsigned. */
  function Slot(key: int): (id: int)
    ensures 0 < id <= SEMMNI
  {
    key % 0x1_0000_0000 % SEMMNI + 1
  }

  /** A set with a key that is not private sits where its key hashes to. */
  ghost predicate KeysFit(objects: Table) {
    forall id | id in objects && objects[id].key != IPC_PRIVATE :: id == Slot(objects[id].key)
  }

  /** Hence no two sets share a key, unless it is the private one. */
  lemma KeysUnique(objects: Table, i: nat, j: nat)
    requires KeysFit(objects) && i in objects && j in objects && objects[i].key == objects[j].key
    ensures objects[i].key == IPC_PRIVATE || i == j
  {
    if objects[i].key != IPC_PRIVATE {
      assert i == Slot(objects[i].key) && j == Slot(objects[j].key);
    }
  }

  /** What looking at an existing set answers. */
  function Lookup(found: SemSet, id: nat, key: int, numSems: nat, flags: Flags): Result<nat, Errno> {
    if found.key != key then Err(if flags.create then ENOSPC else ENOENT)
    else if flags.create && flags.exclusive then Err(EEXIST)
    else if found.numSems < numSems then Err(EINVAL)
    else Ok(id)
  }

  /** A new private set at the least free identifier, or the reason why there is none. */
  ghost predicate Created(r: Result<nat, Errno>, numSems: nat, before: Table, after: Table) {
    match r
    case Ok(id) =>
      && 0 < id <= SEMMNI && id !in before && 0 < numSems <= SEMMSL
      && after == before[id := SemSet(IPC_PRIVATE, numSems)] && forall i | 0 < i < id :: i in before
    case Err(e) =>
      && after == before
      && if forall i | 0 < i <= SEMMNI :: i in before then e == ENOSPC else e == EINVAL && !(0 < numSems <= SEMMSL)
  }

  /** What one look at the table decides about a key, inserting included. */
  function Decide(objects: Table, key: int, numSems: nat, flags: Flags): Result<nat, Errno> {
    var id := Slot(key);
    if id in objects then Lookup(objects[id], id, key, numSems, flags)
    else if !flags.create then Err(ENOENT)
    else
      match NewSemSet(key, numSems)
      case Err(e) => Err(e)
      case Ok(_) => Ok(id)
  }

  /** The table after that decision. */
  function Decided(objects: Table, key: int, numSems: nat, flags: Flags): Table {
    if Decide(objects, key, numSems, flags).Ok? && Slot(key) !in objects then objects[Slot(key) := SemSet(key, numSems)]
    else objects
  }

  /** A key is found exactly if some set has it: looking at its slot alone misses nothing. */
  lemma SlotDecides(objects: Table, key: int, numSems: nat, flags: Flags)
    requires KeysFit(objects) && key != IPC_PRIVATE
    ensures (exists id :: id in objects && objects[id].key == key) <==>
            Slot(key) in objects && objects[Slot(key)].key == key
    ensures Decide(objects, key, numSems, flags) == Err(ENOENT) ==>
              forall id | id in objects :: objects[id].key != key
    ensures KeysFit(Decided(objects, key, numSems, flags))
  {
  }

  /** Some set has the key. */
  ghost predicate HasKey(objects: Table, key: int) {
    exists id :: id in objects && objects[id].key == key
  }

  /** A set with the key is there and large enough. */
  ghost predicate HasRoom(objects: Table, key: int, numSems: nat) {
    exists id :: id in objects && objects[id].key == key && objects[id].numSems >= numSems
  }

  /**
    What a look at the table answers, said of all sets in it. An existing key is refused if it has to
    be new, or if its set is too small. A missing key is refused if it must not be created, if a set
    with another key sits in its place, or if the size makes no sense.
   */
  lemma DecidesExactlyWhen(objects: Table, key: int, numSems: nat, flags: Flags)
    requires KeysFit(objects) && key != IPC_PRIVATE
    ensures var r := Decide(objects, key, numSems, flags);
      && (r == Err(EEXIST) <==> HasKey(objects, key) && flags.create && flags.exclusive)
      && (r == Err(ENOENT) <==> !HasKey(objects, key) && !flags.create)
      && (r == Err(ENOSPC) <==> !HasKey(objects, key) && flags.create && Slot(key) in objects)
      && (r == Err(EINVAL) <==>
            || (HasKey(objects, key) && !(flags.create && flags.exclusive) && !HasRoom(objects, key, numSems))
            || (!HasKey(objects, key) && flags.create && Slot(key) !in objects && !(0 < numSems <= SEMMSL)))
      && (r.Ok? <==>
            || (HasRoom(objects, key, numSems) && !(flags.create && flags.exclusive))
            || (!HasKey(objects, key) && flags.create && Slot(key) !in objects && 0 < numSems <= SEMMSL))
      && (r.Ok? ==> r.value in Decided(objects, key, numSems, flags)
                    && Decided(objects, key, numSems, flags)[r.value].key == key)
  {
    if HasKey(objects, key) {
      var id :| id in objects && objects[id].key == key;
      assert id == Slot(key);
    }
    if HasRoom(objects, key, numSems) {
      var id :| id in objects && objects[id].key == key && objects[id].numSems >= numSems;
      assert id == Slot(key);
    }
  }

  /** Keys share a place exactly when they agree modulo the number of places, as unsigned 32-bit numbers. */
  lemma SlotsCollideExactlyWhen(a: int, b: int)
    requires -0x8000_0000 <= a < 0x8000_0000 && -0x8000_0000 <= b < 0x8000_0000
    ensures var u, v := (if a < 0 then a + 0x1_0000_0000 else a), (if b < 0 then b + 0x1_0000_0000 else b);
      Slot(a) == Slot(b) <==> u % SEMMNI == v % SEMMNI
  {
  }

  // ---------------------------------------------------------------------------
  // What others do to the table
  // ---------------------------------------------------------------------------

  /** One change by another thread: a removal, or an insertion at a free identifier. */
  ghost predicate IsChange(before: Table, after: Table) {
    || (exists id :: id in before && after == before - {id})
    || (exists id :: id in after && id !in before && after == before[id := after[id]])
  }

  /** The tables of the namespace at successive moments. */
  ghost predicate IsHistory(history: seq<Table>) {
    history != [] && forall k | 0 < k < |history| :: IsChange(history[k - 1], history[k])
  }

  ghost function Last(history: seq<Table>): Table
    requires history != []
  {
    history[|history| - 1]
  }

  ghost function Insertions(history: seq<Table>): nat {
    if |history| < 2 then 0
    else
      var before := history[..|history| - 1];
      Insertions(before) + if Last(history).Keys <= Last(before).Keys then 0 else 1
  }

  lemma HistoryGrows(history: seq<Table>, table: Table)
    requires IsHistory(history) && IsChange(Last(history), table)
    ensures IsHistory(history + [table]) && Last(history + [table]) == table
    ensures Insertions(history + [table]) == Insertions(history) + if table.Keys <= Last(history).Keys then 0 else 1
  {
    var longer := history + [table];
    assert longer[..|longer| - 1] == history;
  }

  class IpcNamespace {
    const semIds: IpcIds<SemSet>

    ghost predicate Valid()
      reads this, semIds, semIds.idAllocator
    {
      semIds.Valid() && semIds.maxId == SEMMNI && KeysFit(semIds.objects)
    }

    constructor ()
      ensures Valid() && semIds.objects == map[] && fresh(semIds) && fresh(semIds.idAllocator)
    {
      semIds := new IpcIds(SEMMNI);
    }

    method CreateSemSet(numSems: nat) returns (r: Result<nat, Errno>)
      requires Valid()
      modifies semIds, semIds.idAllocator
      ensures Valid() && Created(r, numSems, old(semIds.objects), semIds.objects)
    {
      r := semIds.InsertAuto(NewSemSet(IPC_PRIVATE, numSems));
    }

    method RemoveSemSet(id: nat, mayRemove: Result<(), Errno>) returns (r: Result<(), Errno>)
      requires Valid()
      modifies semIds, semIds.idAllocator
      ensures Valid()
      ensures r == if id !in old(semIds.objects) then Err(EINVAL) else mayRemove
      ensures semIds.objects == if r.Ok? then old(semIds.objects) - {id} else old(semIds.objects)
    {
      r := semIds.Remove(id, mayRemove);
    }

    /** One operation of another thread; an insertion takes one off the budget. */
    method InterfereOnce(budget: nat, ghost history: seq<Table>) returns (left: nat, ghost longer: seq<Table>)
      requires Valid() && IsHistory(history) && Last(history) == semIds.objects
      modifies semIds, semIds.idAllocator
      ensures Valid() && IsHistory(longer) && Last(longer) == semIds.objects
      ensures history <= longer && left <= budget
      ensures Insertions(longer) + left <= Insertions(history) + budget
      ensures Insertions(longer) >= Insertions(history)
      ensures Insertions(longer) == Insertions(history) ==> semIds.objects.Keys <= old(semIds.objects.Keys)
    {
      left, longer := budget, history;
      ghost var before := semIds.objects;
      var choice: int, id: nat, key: int, numSems: nat := *, *, *, *;
      if choice == 0 {
        var removed := RemoveSemSet(id, Ok(()));
      } else if left > 0 {
        left := left - 1;
        if choice == 1 {
          var created := CreateSemSet(numSems);
        } else if key != IPC_PRIVATE {
          var inserted := semIds.InsertAt(Slot(key), NewSemSet(key, numSems));
        }
      }
      if semIds.objects != before {
        HistoryGrows(history, semIds.objects);
        longer := history + [semIds.objects];
      }
    }

    /** What other threads may do while the table is unlocked: any number of removals, at most `budget` insertions. */
    method Interfere(budget: nat, ghost history: seq<Table>) returns (left: nat, ghost longer: seq<Table>)
      requires Valid() && IsHistory(history) && Last(history) == semIds.objects
      modifies semIds, semIds.idAllocator
      ensures Valid() && IsHistory(longer) && Last(longer) == semIds.objects
      ensures history <= longer && left <= budget
      ensures Insertions(longer) + left <= Insertions(history) + budget
      ensures Insertions(longer) >= Insertions(history)
      ensures Insertions(longer) == Insertions(history) ==> semIds.objects.Keys <= old(semIds.objects.Keys)
    {
      left, longer := budget, history;
      var turns: nat := *;
      while turns > 0
        invariant Valid() && IsHistory(longer) && Last(longer) == semIds.objects
        invariant history <= longer && left <= budget
        invariant Insertions(longer) + left <= Insertions(history) + budget
        invariant Insertions(longer) >= Insertions(history)
        invariant Insertions(longer) == Insertions(history) ==> semIds.objects.Keys <= old(semIds.objects.Keys)
        decreases turns
      {
        turns := turns - 1;
        left, longer := InterfereOnce(left, longer);
      }
    }

    /**
      The set with a key, found or created. The table is unlocked between looking and inserting, and
      between a failed insertion and the next look, and others may change it there. `history` lists
      the tables of the namespace from the call to its last locked section, so the call answers as if
      it had run in one piece on a table that existed during the call. It goes round again only when
      somebody else has inserted meanwhile; `budget` bounds these insertions.
     */
    method GetOrCreateSemSet(key: int, numSems: nat, flags: Flags, budget: nat)
      returns (r: Result<nat, Errno>, turns: nat, ghost history: seq<Table>)
      requires Valid() && key != IPC_PRIVATE
      modifies semIds, semIds.idAllocator
      ensures Valid() && IsHistory(history) && history[0] == old(semIds.objects)
      ensures r == Decide(Last(history), key, numSems, flags)
      ensures semIds.objects == Decided(Last(history), key, numSems, flags)
      ensures 0 < turns <= Insertions(history) + 1 <= budget + 1
      ensures turns == 1 && (Slot(key) in old(semIds.objects) || !flags.create) ==> history == [old(semIds.objects)]
      ensures r.Ok? ==> r.value in semIds.objects && semIds.objects[r.value].key == key
                        && semIds.objects[r.value].numSems >= numSems
    {
      turns, history := 0, [semIds.objects];
      var id := Slot(key);
      var left: nat := budget;
      while true
        invariant Valid() && IsHistory(history) && history[0] == old(semIds.objects) && Last(history) == semIds.objects
        invariant turns <= Insertions(history) && Insertions(history) + left <= budget
        invariant turns == 0 ==> history == [old(semIds.objects)]
        decreases left
      {
        turns := turns + 1;
        var found := semIds.Get(id);
        if found.Some? {
          return Lookup(found.value, id, key, numSems, flags), turns, history;
        }
        if !flags.create {
          return Err(ENOENT), turns, history;
        }
        left, history := Interfere(left, history);
        var inserted := semIds.InsertAt(id, NewSemSet(key, numSems));
        if inserted.Ok? {
          return Ok(id), turns, history;
        }
        if inserted.error != EEXIST {
          return Err(inserted.error), turns, history;
        }
        left, history := Interfere(left, history);
      }
    }

    /** `semget`: a private key always makes a new set; any other key is looked up first. */
    method SemGet(key: int, numSems: nat, flags: Flags, budget: nat)
      returns (r: Result<nat, Errno>, ghost history: seq<Table>)
      requires Valid()
      modifies semIds, semIds.idAllocator
      ensures Valid() && IsHistory(history) && history[0] == old(semIds.objects)
      ensures key == IPC_PRIVATE ==>
                history == [old(semIds.objects)] && Created(r, numSems, old(semIds.objects), semIds.objects)
      ensures key != IPC_PRIVATE ==>
                && r == Decide(Last(history), key, numSems, flags)
                && semIds.objects == Decided(Last(history), key, numSems, flags)
    {
      history := [semIds.objects];
      if key == IPC_PRIVATE {
        r := CreateSemSet(numSems);
        return;
      }
      var turns;
      r, turns, history := GetOrCreateSemSet(key, numSems, flags, budget);
    }
  }
}
