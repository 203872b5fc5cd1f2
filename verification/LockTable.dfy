/** The lock table of ProgramStateManager under concurrency
    (gigaevo/database/state_manager.py): tasks look a lock up, wait for it, work, leave,
    and evict the entry after a terminal state. */
module LockTable {
  import opened Prelude

  datatype Task = Idle | Waiting(id: Id, lock: nat) | Inside(id: Id, lock: nat)

  /** Locks are objects, told apart by number; `created` counts them. */
  datatype Table = Table(entries: map<Id, nat>, created: nat, tasks: seq<Task>)

  datatype Action = Call(task: nat, id: Id) | Enter(task: nat) | Leave(task: nat, evict: bool)

  predicate Held(t: Table, lock: nat) {
    exists i :: 0 <= i < |t.tasks| && t.tasks[i].Inside? && t.tasks[i].lock == lock
  }

  predicate Enabled(t: Table, a: Action) {
    && a.task < |t.tasks|
    && match a
       case Call(i, _) => t.tasks[i].Idle?
       case Enter(i) => t.tasks[i].Waiting? && !Held(t, t.tasks[i].lock)
       case Leave(i, _) => t.tasks[i].Inside?
  }

  function Next(t: Table, a: Action): Table
    requires Enabled(t, a)
  {
    match a
    case Call(i, id) =>
      if id in t.entries then t.(tasks := t.tasks[i := Waiting(id, t.entries[id])])
      else Table(t.entries[id := t.created], t.created + 1, t.tasks[i := Waiting(id, t.created)])
    case Enter(i) => t.(tasks := t.tasks[i := Inside(t.tasks[i].id, t.tasks[i].lock)])
    case Leave(i, evict) =>
      t.(tasks := t.tasks[i := Idle], entries := if evict then t.entries - {t.tasks[i].id} else t.entries)
  }

  /** The promise of the locks: no two tasks work on the same program. */
  ghost predicate Exclusive(t: Table) {
    forall i, j :: 0 <= i < j < |t.tasks| && t.tasks[i].Inside? && t.tasks[j].Inside? ==> t.tasks[i].id != t.tasks[j].id
  }

  /** Somebody else waits for this program. */
  ghost predicate HasWaiter(t: Table, task: nat, id: Id) {
    exists i :: 0 <= i < |t.tasks| && i != task && t.tasks[i].Waiting? && t.tasks[i].id == id
  }

  /** Every task that waits or works uses the lock the table has for its program. */
  ghost predicate Coherent(t: Table) {
    && (forall i :: 0 <= i < |t.tasks| && !t.tasks[i].Idle? ==>
          t.tasks[i].id in t.entries && t.entries[t.tasks[i].id] == t.tasks[i].lock)
    && (forall id :: id in t.entries ==> t.entries[id] < t.created)
    && (forall a, b :: a in t.entries && b in t.entries && a != b ==> t.entries[a] != t.entries[b])
    && Exclusive(t)
  }

  /** Evictions happen only when nobody waits for the program. */
  ghost predicate Quiet(t: Table, a: Action)
    requires Enabled(t, a)
  {
    a.Leave? && a.evict ==> !HasWaiter(t, a.task, t.tasks[a.task].id)
  }

  ghost predicate QuietRun(t: Table, acts: seq<Action>)
    decreases |acts|
  {
    acts == [] || (Enabled(t, acts[0]) && Quiet(t, acts[0]) && QuietRun(Next(t, acts[0]), acts[1..]))
  }

  ghost function After(t: Table, acts: seq<Action>): Table
    requires QuietRun(t, acts)
    decreases |acts|
  {
    if acts == [] then t else After(Next(t, acts[0]), acts[1..])
  }

  lemma QuietStep(t: Table, a: Action)
    requires Coherent(t) && Enabled(t, a) && Quiet(t, a)
    ensures Coherent(Next(t, a))
  {
    if a.Enter? {
      forall i | 0 <= i < |t.tasks| && t.tasks[i].Inside? ensures t.tasks[i].id != t.tasks[a.task].id {
        assert !Held(t, t.tasks[a.task].lock);
      }
    } else if a.Leave? && a.evict {
      var id := t.tasks[a.task].id;
      forall i | 0 <= i < |t.tasks| && i != a.task && !t.tasks[i].Idle? ensures t.tasks[i].id != id {
        assert !HasWaiter(t, a.task, id);
        assert Exclusive(t);
      }
    }
  }

  /** Mutual exclusion over every run whose evictions find nobody waiting. */
  lemma {:induction false} QuietRunsAreExclusive(t: Table, acts: seq<Action>)
    requires Coherent(t) && QuietRun(t, acts)
    ensures Coherent(After(t, acts)) && Exclusive(After(t, acts))
    decreases |acts|
  {
    if acts != [] {
      QuietStep(t, acts[0]);
      QuietRunsAreExclusive(Next(t, acts[0]), acts[1..]);
    }
  }

  /** After an eviction with a waiter, the waiter and the next caller hold different
      locks for the same program, and both get in. */
  lemma EvictionWithWaiterBreaks(t: Table, task: nat, waiter: nat) returns (acts: seq<Action>)
    requires Coherent(t) && Enabled(t, Leave(task, true))
    requires waiter < |t.tasks| && waiter != task && t.tasks[waiter].Waiting? && t.tasks[waiter].id == t.tasks[task].id
    ensures var after := Next(t, Leave(task, true));
      QuietRun(after, acts) && !Exclusive(After(after, acts))
  {
    var id := t.tasks[task].id;
    var t0 := Next(t, Leave(task, true));
    acts := [Call(task, id), Enter(task), Enter(waiter)];
    var t1 := Next(t0, acts[0]);
    assert t1.tasks[task] == Waiting(id, t.created);
    assert !Held(t1, t.created);
    var t2 := Next(t1, acts[1]);
    assert t2.tasks[task] == Inside(id, t.created) && t2.tasks[waiter] == t.tasks[waiter];
    forall i | 0 <= i < |t2.tasks| && t2.tasks[i].Inside? ensures t2.tasks[i].lock != t.tasks[waiter].lock {
      if i != task {
        assert t2.tasks[i] == t.tasks[i];
        assert Exclusive(t);
      }
    }
    assert !Held(t2, t2.tasks[waiter].lock);
    var t3 := Next(t2, acts[2]);
    assert acts[1..] == [acts[1], acts[2]] && acts[1..][1..] == [acts[2]] && acts[1..][1..][1..] == [];
    assert QuietRun(t3, []) && After(t3, []) == t3;
    assert QuietRun(t2, [acts[2]]) && After(t2, [acts[2]]) == t3;
    assert QuietRun(t1, acts[1..]) && After(t1, acts[1..]) == t3;
    assert After(t0, acts) == t3;
    assert t3.tasks[task].Inside? && t3.tasks[waiter].Inside? && t3.tasks[task].id == t3.tasks[waiter].id;
  }

  /** Leaving with an eviction keeps all later quiet runs exclusive exactly when no
      other task is waiting for that program at that moment. */
  lemma EvictionSafeIff(t: Table, task: nat)
    requires Coherent(t) && Enabled(t, Leave(task, true))
    ensures (forall acts :: QuietRun(Next(t, Leave(task, true)), acts) ==>
             Exclusive(After(Next(t, Leave(task, true)), acts)))
      <==> !HasWaiter(t, task, t.tasks[task].id)
  {
    var after := Next(t, Leave(task, true));
    if HasWaiter(t, task, t.tasks[task].id) {
      var waiter :| 0 <= waiter < |t.tasks| && waiter != task && t.tasks[waiter].Waiting?
                 && t.tasks[waiter].id == t.tasks[task].id;
      var acts := EvictionWithWaiterBreaks(t, task, waiter);
    } else {
      QuietStep(t, Leave(task, true));
      forall acts | QuietRun(after, acts) ensures Exclusive(After(after, acts)) {
        QuietRunsAreExclusive(after, acts);
      }
    }
  }
}
