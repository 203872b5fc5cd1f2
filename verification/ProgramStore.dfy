/** The store as a value, and what each sequential operation of RedisProgramStorage
    makes of it (gigaevo/database/redis_program_storage.py). */
module ProgramStore {
  import opened Prelude
  import opened Programs
  import opened MergeStrategies
  import opened OccProtocol
  import opened OccPartition

  /** Blobs, status sets as (state, id) pairs, and the timestamp counter. */
  datatype Db = Db(blobs: map<Id, Program>, members: set<(ProgramState, Id)>, counter: nat)

  function Stamp(p: Program, t: nat): Program {
    p.(atomicCounter := t)
  }

  function Add(db: Db, p: Program): Db {
    Db(db.blobs[p.id := Stamp(p, db.counter + 1)],
       db.members - (if p.id in db.blobs && db.blobs[p.id].state != p.state then {(db.blobs[p.id].state, p.id)} else {})
       + {(p.state, p.id)},
       db.counter + 1)
  }

  function Remove(db: Db, id: Id): Db {
    if id !in db.blobs then db
    else db.(blobs := db.blobs - {id}, members := db.members - {(db.blobs[id].state, id)})
  }

  function WriteExclusive(db: Db, p: Program): Db {
    db.(blobs := db.blobs[p.id := Stamp(p, db.counter + 1)], counter := db.counter + 1)
  }

  /** The merged program, or the ValueError of the merge. */
  function Merge(db: Db, p: Program): Result<Program> {
    if p.id in db.blobs then MergePrograms(db.blobs[p.id], p) else Ok(p)
  }

  /** An uncontended update; a failed merge has already used up a stamp. */
  function Update(db: Db, p: Program): Db {
    if Merge(db, p).Err? then db.(counter := db.counter + 1)
    else db.(blobs := db.blobs[p.id := Stamp(Merge(db, p).value, db.counter + 1)], counter := db.counter + 1)
  }

  function AtomicTransition(db: Db, p: Program, previous: Option<ProgramState>): Db {
    if Merge(db, p).Err? then Update(db, p)
    else
      var merged := Merge(db, p).value.state;
      Update(db, p).(members := MoveMember(db.members, p.id, previous, Lookup(db.blobs, p.id), merged))
  }

  /** SREM `from` then SADD `to` for all these ids. */
  function Move(members: set<(ProgramState, Id)>, ids: set<Id>, from: ProgramState, to: ProgramState)
    : set<(ProgramState, Id)>
  {
    (set m | m in members && !(m.0 == from && m.1 in ids)) + (set id | id in ids :: (to, id))
  }

  /** These ids left the set of `from`, if any were in it, and are in the set of `to`. */
  ghost predicate MovedSets(members: set<(ProgramState, Id)>, after: set<(ProgramState, Id)>, ids: set<Id>,
                            from: ProgramState, to: ProgramState) {
    forall s, id :: (s, id) in after <==> (s == to && id in ids) || ((s, id) in members && !(s == from && id in ids))
  }

  function FastTransition(db: Db, p: Program, from: ProgramState, to: ProgramState): Db {
    WriteExclusive(db, p).(members := Move(db.members, {p.id}, from, to))
  }

  /** SET these programs one after another with consecutive stamps from `start`. */
  function WriteAll(blobs: map<Id, Program>, ps: seq<Program>, start: nat): map<Id, Program> {
    if ps == [] then blobs
    else WriteAll(blobs, ps[..|ps| - 1], start)[ps[|ps| - 1].id := Stamp(ps[|ps| - 1], start + |ps| - 1)]
  }

  function Ids(ps: seq<Program>): set<Id> {
    set p | p in ps :: p.id
  }

  function InState(ps: seq<Program>, s: ProgramState): seq<Program> {
    seq(|ps|, i requires 0 <= i < |ps| => ps[i].(state := s))
  }

  /** The batch transition of whole programs, as one pass. */
  function BatchState(db: Db, ps: seq<Program>, from: ProgramState, to: ProgramState): Db {
    Db(WriteAll(db.blobs, InState(ps, to), db.counter + 1), Move(db.members, Ids(ps), from, to), db.counter + |ps|)
  }

  /** The stored programs among these ids that are in `from`, in order. */
  function Matching(blobs: map<Id, Program>, ids: seq<Id>, from: ProgramState): (ms: seq<Id>)
    ensures forall id :: id in ms <==> id in ids && id in blobs && blobs[id].state == from
  {
    if ids == [] then []
    else
      var rest := Matching(blobs, ids[..|ids| - 1], from);
      var id := ids[|ids| - 1];
      if id in blobs && blobs[id].state == from then rest + [id] else rest
  }

  /** SET the i-th of these stored programs with the new state and stamp start + i. */
  function PatchAll(blobs: map<Id, Program>, ids: seq<Id>, to: ProgramState, start: nat): map<Id, Program>
    requires forall id :: id in ids ==> id in blobs
  {
    if ids == [] then blobs
    else
      var id := ids[|ids| - 1];
      PatchAll(blobs, ids[..|ids| - 1], to, start)[id := Stamp(blobs[id].(state := to), start + |ids| - 1)]
  }

  /** Patch these stored programs, move them between the status sets, and use up one
      stamp for each. */
  function Patch(db: Db, ms: seq<Id>, from: ProgramState, to: ProgramState): Db
    requires forall id :: id in ms ==> id in db.blobs
  {
    Db(PatchAll(db.blobs, ms, to, db.counter + 1), Move(db.members, Elements(ms), from, to), db.counter + |ms|)
  }

  /** The batch transition by ids, as one pass over all ids. */
  function BatchIds(db: Db, ids: seq<Id>, from: ProgramState, to: ProgramState): Db {
    Patch(db, Matching(db.blobs, ids, from), from, to)
  }

  /** The batch by ids in chunks of n, one after the other. */
  function ChunkedBatchIds(db: Db, ids: seq<Id>, n: nat, from: ProgramState, to: ProgramState): Db
    requires n > 0
    decreases |ids|
  {
    if |ids| <= n then BatchIds(db, ids, from, to)
    else ChunkedBatchIds(BatchIds(db, ids[..n], from, to), ids[n..], n, from, to)
  }

  function StatusSet(db: Db, s: ProgramState): set<Id> {
    set m | m in db.members && m.0 == s :: m.1
  }

  /** The programs a recovery moves: listed as RUNNING and stored. */
  function Stranded(db: Db): set<Id> {
    StatusSet(db, Running) * db.blobs.Keys
  }

  /** These stored programs became QUEUED, each with a new stamp of its own. */
  ghost predicate Requeued(blobs: map<Id, Program>, after: map<Id, Program>, ids: set<Id>, first: nat, last: nat) {
    && after.Keys == blobs.Keys
    && (forall id :: id in blobs && id !in ids ==> after[id] == blobs[id])
    && (forall id :: id in blobs && id in ids ==>
          && after[id] == blobs[id].(state := Queued, atomicCounter := after[id].atomicCounter)
          && first < after[id].atomicCounter <= last)
    && (forall a, b :: a in blobs && b in blobs && a in ids && b in ids && a != b ==>
          after[a].atomicCounter != after[b].atomicCounter)
  }

  /** These ids left the RUNNING set, and the stored ones are in the QUEUED set. */
  ghost predicate LeftRunning(members: set<(ProgramState, Id)>, after: set<(ProgramState, Id)>,
                              ids: set<Id>, stored: set<Id>) {
    forall s, id :: (s, id) in after <==>
      ((s, id) in members && !(s == Running && id in ids)) || (s == Queued && id in stored)
  }

  /** Recovery of these members of the RUNNING set, of which these are stored;
      nothing else changes. */
  ghost predicate RecoveredPart(db: Db, db': Db, ids: set<Id>, stored: set<Id>) {
    && Requeued(db.blobs, db'.blobs, stored, db.counter, db'.counter)
    && LeftRunning(db.members, db'.members, ids, stored)
    && db'.counter == db.counter + |stored|
  }

  /** Recovery visits every member of the RUNNING set, in the order the server
      returns them; the order shows only in who gets which stamp. */
  ghost predicate Recovered(db: Db, db': Db) {
    RecoveredPart(db, db', StatusSet(db, Running), Stranded(db))
  }

  function Requeue(db: Db, p: Program): Db {
    if p.state != Running then db else FastTransition(db, p.(state := Queued), Running, Queued)
  }

  // ---------------------------------------------------------------- whole runs

  datatype Op =
    | AddOp(p: Program)
    | RemoveOp(id: Id)
    | WriteOp(p: Program)
    | UpdateOp(p: Program)
    | AtomicOp(p: Program, previous: Option<ProgramState>)
    | FastOp(p: Program, from: ProgramState, to: ProgramState)
    | BatchStateOp(ps: seq<Program>, from: ProgramState, to: ProgramState)
    | BatchIdsOp(ids: seq<Id>, chunk: nat, from: ProgramState, to: ProgramState)
    | RecoverOp
    | RequeueOp(p: Program)

  /** What one call does to the store. A batch call with an invalid transition raises
      before it writes; with an empty list it has nothing to write. */
  ghost predicate Effect(db: Db, op: Op, db': Db) {
    match op
    case AddOp(p) => db' == Add(db, p)
    case RemoveOp(id) => db' == Remove(db, id)
    case WriteOp(p) => db' == WriteExclusive(db, p)
    case UpdateOp(p) => db' == Update(db, p)
    case AtomicOp(p, previous) => db' == AtomicTransition(db, p, previous)
    case FastOp(p, from, to) => db' == FastTransition(db, p, from, to)
    case BatchStateOp(ps, from, to) =>
      db' == if IsValidTransition(from, to) then BatchState(db, ps, from, to) else db
    case BatchIdsOp(ids, n, from, to) =>
      n > 0 && db' == if IsValidTransition(from, to) then ChunkedBatchIds(db, ids, n, from, to) else db
    case RecoverOp => Recovered(db, db')
    case RequeueOp(p) => db' == Requeue(db, p)
  }

  /** Every program is stored under its own id. */
  ghost predicate Keyed(blobs: map<Id, Program>) {
    forall id :: id in blobs ==> blobs[id].id == id
  }

  ghost predicate InSync(db: Db) {
    db.members == Index(db.blobs)
  }

  ghost predicate StoredIn(db: Db, id: Id, states: set<ProgramState>) {
    id in db.blobs ==> db.blobs[id].state in states
  }

  /** What the caller has to own: the state it says a program is in. Add, remove,
      atomic transition, batch by ids and recovery need nothing, nor does a call that
      raises. */
  ghost predicate Owned(db: Db, op: Op) {
    match op
    case WriteOp(p) => p.id in db.blobs && db.blobs[p.id].state == p.state
    case UpdateOp(p) => Merge(db, p).Err? || (p.id in db.blobs && Merge(db, p).value.state == db.blobs[p.id].state)
    case FastOp(p, from, to) => p.state == to && StoredIn(db, p.id, {from, to})
    case BatchStateOp(ps, from, to) => !IsValidTransition(from, to) ||
      forall p :: p in ps ==> StoredIn(db, p.id, {from, to})
    case RequeueOp(p) => p.state == Running ==> StoredIn(db, p.id, {Running, Queued})
    case _ => true
  }
}
