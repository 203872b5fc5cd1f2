/** The optimistic-concurrency protocol of RedisProgramStorage as a state machine
    (gigaevo/database/redis_program_storage.py). Any number of clients run `update`
    and `atomic_state_transition` (WATCH, GET, INCR, merge, MULTI/EXEC, retry) next
    to unwatched bulk writers (INCRBY, then one SET at a time), interleaved in any
    order. Each action below is one command as the server executes it. */
module OccProtocol {
  import opened Prelude
  import opened Programs

  /** The merge strategy; `Err` is the ValueError a strategy may raise. Every result
      of this module holds for all strategies. */
  type MergeFn = (Program, Program) -> Result<Program>

  /** A watched operation. `atomic_state_transition` also takes `new_state`, which
      its body never reads. */
  datatype WatchedOp =
    | Update(program: Program)
    | Transition(program: Program, previous: Option<ProgramState>)

  datatype Client =
    | Idle
    | Ready(op: WatchedOp)
    | Watched(op: WatchedOp, seen: nat)
    | Fetched(op: WatchedOp, seen: nat, existing: Option<Program>)
    | Stamped(op: WatchedOp, seen: nat, existing: Option<Program>, stamp: nat)
    | Reserving(programs: seq<Program>)
    | Writing(programs: seq<Program>, start: nat, written: nat)

  /** One write of a blob, in the order the server performed it. */
  datatype Commit =
    | Merged(op: WatchedOp, stamp: nat)
    | Written(program: Program, stamp: nat)
  {
    function Incoming(): Program {
      if Merged? then op.program else program
    }
    function Key(): Id {
      Incoming().id
    }
  }

  /** The server (`blobs`, `versions`, `counter`, `members`), the clients, and the
      history of the run. `versions` counts the writes of a key, which is what WATCH
      notices; `members` holds (state, id) when id is in that status set. */
  datatype System = System(
    blobs: map<Id, Program>,
    versions: map<Id, nat>,
    counter: nat,
    members: set<(ProgramState, Id)>,
    clients: seq<Client>,
    log: seq<Commit>,
    failures: nat,
    begun: seq<Program>,
    aborted: seq<Program>)
  {
    function Version(key: Id): nat {
      if key in versions then versions[key] else 0
    }
  }

  datatype Action =
    | Begin(client: nat, op: WatchedOp)
    | BeginBulk(client: nat, programs: seq<Program>)
    | Step(client: nat)

  predicate Enabled(s: System, a: Action) {
    && a.client < |s.clients|
    && (a.Step? <==> !s.clients[a.client].Idle?)
  }

  function Lookup(blobs: map<Id, Program>, key: Id): Option<Program> {
    if key in blobs then Some(blobs[key]) else None
  }

  /** The program an operation would store, before it gets its stamp. */
  function Base(merge: MergeFn, existing: Option<Program>, incoming: Program): Result<Program> {
    if existing.None? then Ok(incoming) else merge(existing.value, incoming)
  }

  /** Status-set commands of one transition: SREM the caller's old state and the
      stored state unless it is the target, SADD the target. */
  function MoveMember(members: set<(ProgramState, Id)>, key: Id, previous: Option<ProgramState>,
                      existing: Option<Program>, actual: ProgramState): set<(ProgramState, Id)> {
    var stale := (if previous.Some? then {previous.value} else {})
                + (if existing.Some? then {existing.value.state} else {}) - {actual};
    members - (set s | s in stale :: (s, key)) + {(actual, key)}
  }

  function SetBlob(s: System, key: Id, p: Program, c: Commit): System {
    s.(blobs := s.blobs[key := p], versions := s.versions[key := s.Version(key) + 1], log := s.log + [c])
  }

  function With(s: System, i: nat, c: Client): System
    requires i < |s.clients|
  {
    s.(clients := s.clients[i := c])
  }

  /** EXEC: the transaction fails if the key was written since WATCH. */
  function Exec(merge: MergeFn, s: System, i: nat): System
    requires i < |s.clients| && s.clients[i].Stamped?
  {
    var Stamped(op, seen, existing, stamp) := s.clients[i];
    var key := op.program.id;
    var base := Base(merge, existing, op.program);
    if base.Err? then
      With(s, i, Idle).(aborted := s.aborted + [op.program])
    else if s.Version(key) != seen then
      With(s, i, Ready(op)).(failures := s.failures + 1)
    else
      var s' := SetBlob(With(s, i, Idle), key, base.value.(atomicCounter := stamp), Merged(op, stamp));
      if op.Update? then s' else
        s'.(members := MoveMember(s.members, key, op.previous, existing, base.value.state))
  }

  function BulkWrite(s: System, i: nat): System
    requires i < |s.clients| && s.clients[i].Writing?
  {
    var Writing(programs, start, written) := s.clients[i];
    if written >= |programs| then With(s, i, Idle)
    else
      var p := programs[written];
      SetBlob(With(s, i, Writing(programs, start, written + 1)), p.id, p.(atomicCounter := start + written),
              Written(p, start + written))
  }

  function Next(merge: MergeFn, s: System, a: Action): System
    requires Enabled(s, a)
  {
    var i := a.client;
    match a
    case Begin(_, op) => With(s, i, Ready(op)).(begun := s.begun + [op.program])
    case BeginBulk(_, programs) => With(s, i, Reserving(programs)).(begun := s.begun + programs)
    case Step(_) =>
      match s.clients[i]
      case Ready(op) => With(s, i, Watched(op, s.Version(op.program.id)))
      case Watched(op, seen) => With(s, i, Fetched(op, seen, Lookup(s.blobs, op.program.id)))
      case Fetched(op, seen, existing) =>
        With(s, i, Stamped(op, seen, existing, s.counter + 1)).(counter := s.counter + 1)
      case Stamped(_, _, _, _) => Exec(merge, s, i)
      case Reserving(programs) =>
        With(s, i, Writing(programs, s.counter + 1, 0)).(counter := s.counter + |programs|)
      case Writing(_, _, _) => BulkWrite(s, i)
  }

  /** A run: every action is enabled when it happens. */
  predicate Runs(merge: MergeFn, s: System, acts: seq<Action>)
    decreases |acts|, 0
  {
    acts == [] || (Runs(merge, s, acts[..|acts| - 1]) && Enabled(After(merge, s, acts[..|acts| - 1]), acts[|acts| - 1]))
  }

  function After(merge: MergeFn, s: System, acts: seq<Action>): System
    requires Runs(merge, s, acts)
    decreases |acts|, 1
  {
    if acts == [] then s
    else Next(merge, After(merge, s, acts[..|acts| - 1]), acts[|acts| - 1])
  }

  /** Any stored programs and any number of idle clients, with an empty history. */
  ghost predicate Initial(s: System) {
    && (forall i :: 0 <= i < |s.clients| ==> s.clients[i] == Idle)
    && (forall k :: k in s.blobs ==> s.blobs[k].atomicCounter <= s.counter)
    && s.log == [] && s.failures == 0 && s.begun == [] && s.aborted == []
  }
}
