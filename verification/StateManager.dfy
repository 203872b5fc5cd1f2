/** ProgramStateManager: state changes of one program and the per-program locks
    (gigaevo/database/state_manager.py). */
module StateManager {
  import opened Prelude
  import opened Programs
  import opened ProgramStore
  import opened ProgramStoreSync
  import opened RedisProgramStorage

  const TERMINAL_STATES: set<ProgramState> := {Discarded, ProgramState.Done}

  /** What set_program_state leaves in the store. */
  function SetState(db: Db, p: Program, next: ProgramState): Db {
    if p.state == next || !IsValidTransition(p.state, next) then db
    else FastTransition(db, p.(state := next), p.state, next)
  }

  /** Status sets stay in sync exactly when the call changes nothing, or the caller's
      copy was in the stored state, or the store was already in the new one. */
  lemma SetStateSyncIff(db: Db, p: Program, next: ProgramState)
    requires InSync(db)
    ensures InSync(SetState(db, p, next))
      <==> p.state == next || !IsValidTransition(p.state, next) || StoredIn(db, p.id, {p.state, next})
  {
    if p.state != next && IsValidTransition(p.state, next) {
      FastSyncIff(db, p.(state := next), p.state, next);
    }
  }

  class Manager {
    const storage: Storage
    /** The programs that have a lock in the table. */
    var locks: set<Id>

    constructor (storage: Storage)
      ensures this.storage == storage && locks == {}
    {
      this.storage := storage;
      locks := {};
    }

    /** A call that changes nothing or raises keeps its table entry; only a real
        move to a terminal state evicts it. */
    method SetProgramState(p: Program, next: ProgramState) returns (r: Result<Program>)
      requires storage.Valid()
      modifies this, storage
      ensures storage.Valid()
      ensures r.Err? <==> !IsValidTransition(p.state, next)
      ensures r.Ok? ==> r.value == p.(state := next)
      ensures storage.Contents() == SetState(old(storage.Contents()), p, next)
      ensures r.Err? || p.state == next ==> storage.Contents() == old(storage.Contents())
      ensures r.Ok? && p.state != next ==>
        && Advances(p.state, next)
        && storage.counter == old(storage.counter) + 1
        && storage.blobs == old(storage.blobs)[p.id := p.(state := next, atomicCounter := storage.counter)]
        && MovedSets(old(storage.members), storage.members, {p.id}, p.state, next)
      ensures locks ==
        if r.Ok? && p.state != next && (next == ProgramState.Done || next == Discarded) then old(locks) - {p.id}
        else old(locks) + {p.id}
    {
      MergeGoesForward(p.state, next);
      locks := locks + {p.id};
      if p.state == next {
        return Ok(p);
      }
      if !IsValidTransition(p.state, next) {
        return Err("Invalid state transition");
      }
      var moved := p.(state := next);
      storage.FastStateTransition(moved, p.state, next);
      if next in TERMINAL_STATES {
        locks := locks - {p.id};
      }
      return Ok(moved);
    }

    /** A stage result is set on the caller's copy and the whole copy is stored. */
    method UpdateStageResult(p: Program, stage: string, value: string) returns (updated: Program)
      requires storage.Valid()
      modifies this, storage
      ensures storage.Valid()
      ensures updated == p.(stageResults := p.stageResults[stage := value])
      ensures storage.counter == old(storage.counter) + 1 && storage.members == old(storage.members)
      ensures var results := p.stageResults[stage := value];
        storage.blobs == old(storage.blobs)[p.id := p.(stageResults := results, atomicCounter := storage.counter)]
      ensures locks == old(locks) + {p.id}
    {
      locks := locks + {p.id};
      updated := p.(stageResults := p.stageResults[stage := value]);
      storage.WriteExclusive(updated);
    }
  }
}
