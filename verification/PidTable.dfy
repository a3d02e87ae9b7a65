/**
  The unified PID table (kernel/src/process/pid_table.rs).

  One map from numeric identifiers to entries of four slots stands for four independent maps:
  threads, processes, process groups and sessions. Every operation of the class below is specified
  on those four maps and nothing else, so the sharing of entries is invisible to callers.

  A slot is a weak reference in the kernel. Here it is an optional value: a reference is taken to
  stay upgradable for as long as it is stored.
 */
module PidTables {
  import opened Wrappers

  type Id = nat

  datatype Entry<T, P, G, S> = Entry(
    thread: Option<T>, process: Option<P>, group: Option<G>, session: Option<S>)
  {
    predicate IsEmpty() {
      thread.None? && process.None? && group.None? && session.None?
    }
  }

  type Entries<T, P, G, S> = map<Id, Entry<T, P, G, S>>

  // ---- The four maps ----

  ghost function Threads<T, P, G, S>(es: Entries<T, P, G, S>): map<Id, T> {
    map id | id in es && es[id].thread.Some? :: es[id].thread.value
  }

  ghost function Processes<T, P, G, S>(es: Entries<T, P, G, S>): map<Id, P> {
    map id | id in es && es[id].process.Some? :: es[id].process.value
  }

  ghost function Groups<T, P, G, S>(es: Entries<T, P, G, S>): map<Id, G> {
    map id | id in es && es[id].group.Some? :: es[id].group.value
  }

  ghost function Sessions<T, P, G, S>(es: Entries<T, P, G, S>): map<Id, S> {
    map id | id in es && es[id].session.Some? :: es[id].session.value
  }

  /** No empty entry is kept, and a process slot implies a thread slot. */
  ghost predicate WellFormed<T, P, G, S>(es: Entries<T, P, G, S>) {
    forall id | id in es :: !es[id].IsEmpty() && (es[id].process.Some? ==> es[id].thread.Some?)
  }

  function EntryAt<T, P, G, S>(es: Entries<T, P, G, S>, id: Id): Entry<T, P, G, S> {
    if id in es then es[id] else Entry(None, None, None, None)
  }

  /** Stores `entry` at `id`; an entry with nothing left in it is dropped from the map. */
  function Store<T, P, G, S>(es: Entries<T, P, G, S>, id: Id, entry: Entry<T, P, G, S>): Entries<T, P, G, S> {
    if entry.IsEmpty() then es - {id} else es[id := entry]
  }

  /** What one slot write does to the map that slot stands for. */
  ghost function Put<V>(m: map<Id, V>, id: Id, slot: Option<V>): map<Id, V> {
    if slot.Some? then m[id := slot.value] else m - {id}
  }

  lemma StoreWritesThreads<T, P, G, S>(es: Entries<T, P, G, S>, id: Id, entry: Entry<T, P, G, S>)
    ensures Threads(Store(es, id, entry)) == Put(Threads(es), id, entry.thread)
  {
  }

  lemma StoreWritesProcesses<T, P, G, S>(es: Entries<T, P, G, S>, id: Id, entry: Entry<T, P, G, S>)
    ensures Processes(Store(es, id, entry)) == Put(Processes(es), id, entry.process)
  {
  }

  lemma StoreWritesGroups<T, P, G, S>(es: Entries<T, P, G, S>, id: Id, entry: Entry<T, P, G, S>)
    ensures Groups(Store(es, id, entry)) == Put(Groups(es), id, entry.group)
  {
  }

  lemma StoreWritesSessions<T, P, G, S>(es: Entries<T, P, G, S>, id: Id, entry: Entry<T, P, G, S>)
    ensures Sessions(Store(es, id, entry)) == Put(Sessions(es), id, entry.session)
  {
  }

  /** Writing back the slot that is already there changes nothing. */
  lemma PutBack<V>(m: map<Id, V>, id: Id, slot: Option<V>)
    requires slot == if id in m then Some(m[id]) else None
    ensures Put(m, id, slot) == m
  {
  }

  lemma UnchangedSlots<T, P, G, S>(es: Entries<T, P, G, S>, id: Id)
    ensures Put(Threads(es), id, EntryAt(es, id).thread) == Threads(es)
    ensures Put(Processes(es), id, EntryAt(es, id).process) == Processes(es)
    ensures Put(Groups(es), id, EntryAt(es, id).group) == Groups(es)
    ensures Put(Sessions(es), id, EntryAt(es, id).session) == Sessions(es)
  {
    PutBack(Threads(es), id, EntryAt(es, id).thread);
    PutBack(Processes(es), id, EntryAt(es, id).process);
    PutBack(Groups(es), id, EntryAt(es, id).group);
    PutBack(Sessions(es), id, EntryAt(es, id).session);
  }

  class PidTable<T, P, G, S> {
    var entries: Entries<T, P, G, S>
    var processCount: nat

    ghost predicate Valid()
      reads this
    {
      WellFormed(entries) && processCount == |Processes(entries)|
    }

    constructor ()
      ensures Valid()
      ensures entries == map[] && processCount == 0
    {
      entries := map[];
      processCount := 0;
    }

    /** The write every operation ends with; the process count is the caller's business. */
    method Write(id: Id, entry: Entry<T, P, G, S>)
      requires WellFormed(entries) && (entry.process.Some? ==> entry.thread.Some?)
      modifies `entries
      ensures WellFormed(entries)
      ensures Threads(entries) == Put(old(Threads(entries)), id, entry.thread)
      ensures Processes(entries) == Put(old(Processes(entries)), id, entry.process)
      ensures Groups(entries) == Put(old(Groups(entries)), id, entry.group)
      ensures Sessions(entries) == Put(old(Sessions(entries)), id, entry.session)
    {
      StoreWritesThreads(entries, id, entry);
      StoreWritesProcesses(entries, id, entry);
      StoreWritesGroups(entries, id, entry);
      StoreWritesSessions(entries, id, entry);
      entries := Store(entries, id, entry);
    }

    // ---- Threads ----

    method InsertThread(tid: Id, thread: T)
      requires Valid()
      requires tid !in Processes(entries) && tid !in Threads(entries)
      modifies this
      ensures Valid()
      ensures Threads(entries) == old(Threads(entries))[tid := thread]
      ensures Processes(entries) == old(Processes(entries))
      ensures Groups(entries) == old(Groups(entries)) && Sessions(entries) == old(Sessions(entries))
      ensures processCount == old(processCount)
    {
      UnchangedSlots(entries, tid);
      Write(tid, EntryAt(entries, tid).(thread := Some(thread)));
    }

    method RemoveThread(tid: Id)
      requires Valid()
      requires tid in entries ==> tid in Threads(entries) && tid !in Processes(entries)
      modifies this
      ensures Valid()
      ensures Threads(entries) == old(Threads(entries)) - {tid}
      ensures Processes(entries) == old(Processes(entries))
      ensures Groups(entries) == old(Groups(entries)) && Sessions(entries) == old(Sessions(entries))
      ensures processCount == old(processCount)
    {
      if tid in entries {
        UnchangedSlots(entries, tid);
        Write(tid, entries[tid].(thread := None));
      }
    }

    method TakeThread(tid: Id) returns (thread: Option<T>)
      requires Valid()
      requires tid !in Processes(entries)
      modifies this
      ensures Valid()
      ensures thread == if tid in old(Threads(entries)) then Some(old(Threads(entries))[tid]) else None
      ensures Threads(entries) == old(Threads(entries)) - {tid}
      ensures Processes(entries) == old(Processes(entries))
      ensures Groups(entries) == old(Groups(entries)) && Sessions(entries) == old(Sessions(entries))
      ensures processCount == old(processCount)
    {
      if tid !in entries {
        return None;
      }
      thread := entries[tid].thread;
      if thread.None? {
        return;
      }
      UnchangedSlots(entries, tid);
      Write(tid, entries[tid].(thread := None));
    }

    method ReplaceThread(tid: Id, thread: T)
      requires Valid()
      requires tid in Threads(entries)
      modifies this
      ensures Valid()
      ensures Threads(entries) == old(Threads(entries))[tid := thread]
      ensures Processes(entries) == old(Processes(entries))
      ensures Groups(entries) == old(Groups(entries)) && Sessions(entries) == old(Sessions(entries))
      ensures processCount == old(processCount)
    {
      UnchangedSlots(entries, tid);
      Write(tid, EntryAt(entries, tid).(thread := Some(thread)));
    }

    method GetThread(tid: Id) returns (thread: Option<T>)
      ensures thread == if tid in Threads(entries) then Some(Threads(entries)[tid]) else None
    {
      thread := EntryAt(entries, tid).thread;
    }

    // ---- Processes: the process slot and its main-thread slot change together ----

    method InsertProcess(pid: Id, process: P, mainThread: T)
      requires Valid()
      requires pid !in Processes(entries) && pid !in Threads(entries)
      modifies this
      ensures Valid()
      ensures Processes(entries) == old(Processes(entries))[pid := process]
      ensures Threads(entries) == old(Threads(entries))[pid := mainThread]
      ensures Groups(entries) == old(Groups(entries)) && Sessions(entries) == old(Sessions(entries))
      ensures processCount == old(processCount) + 1
    {
      processCount := processCount + 1;
      UnchangedSlots(entries, pid);
      Write(pid, EntryAt(entries, pid).(process := Some(process), thread := Some(mainThread)));
    }

    method RemoveProcess(pid: Id)
      requires Valid()
      requires pid in entries ==> pid in Processes(entries)
      modifies this
      ensures Valid()
      ensures Processes(entries) == old(Processes(entries)) - {pid}
      ensures Threads(entries) == old(Threads(entries)) - {pid}
      ensures Groups(entries) == old(Groups(entries)) && Sessions(entries) == old(Sessions(entries))
      ensures processCount == old(processCount) - if pid in old(Processes(entries)) then 1 else 0
    {
      if pid in entries {
        ghost var before := Processes(entries);
        assert before == (before - {pid})[pid := before[pid]];
        processCount := processCount - 1;
        UnchangedSlots(entries, pid);
        Write(pid, entries[pid].(process := None, thread := None));
      }
    }

    method GetProcess(pid: Id) returns (process: Option<P>)
      ensures process == if pid in Processes(entries) then Some(Processes(entries)[pid]) else None
    {
      process := EntryAt(entries, pid).process;
    }

    // ---- Process groups and sessions ----

    method InsertProcessGroup(pgid: Id, group: G)
      requires Valid()
      requires pgid !in Groups(entries)
      modifies this
      ensures Valid()
      ensures Groups(entries) == old(Groups(entries))[pgid := group]
      ensures Threads(entries) == old(Threads(entries))
      ensures Processes(entries) == old(Processes(entries)) && Sessions(entries) == old(Sessions(entries))
      ensures processCount == old(processCount)
    {
      UnchangedSlots(entries, pgid);
      Write(pgid, EntryAt(entries, pgid).(group := Some(group)));
    }

    method RemoveProcessGroup(pgid: Id)
      requires Valid()
      requires pgid in entries ==> pgid in Groups(entries)
      modifies this
      ensures Valid()
      ensures Groups(entries) == old(Groups(entries)) - {pgid}
      ensures Threads(entries) == old(Threads(entries))
      ensures Processes(entries) == old(Processes(entries)) && Sessions(entries) == old(Sessions(entries))
      ensures processCount == old(processCount)
    {
      if pgid in entries {
        UnchangedSlots(entries, pgid);
        Write(pgid, entries[pgid].(group := None));
      }
    }

    method InsertSession(sid: Id, session: S)
      requires Valid()
      requires sid !in Sessions(entries)
      modifies this
      ensures Valid()
      ensures Sessions(entries) == old(Sessions(entries))[sid := session]
      ensures Threads(entries) == old(Threads(entries))
      ensures Processes(entries) == old(Processes(entries)) && Groups(entries) == old(Groups(entries))
      ensures processCount == old(processCount)
    {
      UnchangedSlots(entries, sid);
      Write(sid, EntryAt(entries, sid).(session := Some(session)));
    }

    method RemoveSession(sid: Id)
      requires Valid()
      requires sid in entries ==> sid in Sessions(entries)
      modifies this
      ensures Valid()
      ensures Sessions(entries) == old(Sessions(entries)) - {sid}
      ensures Threads(entries) == old(Threads(entries))
      ensures Processes(entries) == old(Processes(entries)) && Groups(entries) == old(Groups(entries))
      ensures processCount == old(processCount)
    {
      if sid in entries {
        UnchangedSlots(entries, sid);
        Write(sid, entries[sid].(session := None));
      }
    }
  }
}
