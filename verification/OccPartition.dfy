/** Status sets under concurrency: exactly which runs keep every stored program in
    the one status set of its blob. */
module OccPartition {
  import opened Prelude
  import opened Programs
  import opened OccProtocol
  import opened OccSafety

  /** The status sets that match the blobs: each stored id in the set of its state
      and in no other, and no unknown id in any set. */
  ghost function Index(blobs: map<Id, Program>): set<(ProgramState, Id)> {
    set id | id in blobs :: (blobs[id].state, id)
  }

  ghost predicate Indexed(s: System) {
    s.members == Index(s.blobs)
  }

  /** Moving one id to the set of its new state turns the index of the old blobs into
      the index of the new ones, whatever old state the caller passes. */
  lemma MoveMemberKeepsIndex(blobs: map<Id, Program>, key: Id, previous: Option<ProgramState>, p: Program)
    ensures MoveMember(Index(blobs), key, previous, Lookup(blobs, key), p.state) == Index(blobs[key := p])
  {
    var moved := MoveMember(Index(blobs), key, previous, Lookup(blobs, key), p.state);
    var goal := Index(blobs[key := p]);
    forall s, id ensures (s, id) in moved <==> (s, id) in goal {
      if id == key {
        assert (s, id) in goal <==> s == p.state by {
          if s == p.state { assert key in blobs[key := p]; }
        }
      } else {
        assert (s, id) in goal <==> (s, id) in Index(blobs) by {
          if (s, id) in Index(blobs) { assert id in blobs[key := p]; }
        }
      }
    }
  }

  /** Whatever the sets held before: afterwards the id is in the set of its new state, and
      neither in the old one the caller names nor in the one of the stored blob; nothing
      else changes. */
  ghost predicate Moved(members: set<(ProgramState, Id)>, after: set<(ProgramState, Id)>, key: Id,
                        previous: Option<ProgramState>, existing: Option<Program>, actual: ProgramState) {
    forall s, id :: (s, id) in after <==>
      if id == key && s == actual then true
      else if id == key && (previous == Some(s) || (existing.Some? && existing.value.state == s)) then false
      else (s, id) in members
  }

  lemma MoveMemberMoves(members: set<(ProgramState, Id)>, key: Id, previous: Option<ProgramState>,
                        existing: Option<Program>, actual: ProgramState)
    ensures Moved(members, MoveMember(members, key, previous, existing, actual), key, previous, existing, actual)
  {
  }

  /** A successful EXEC of a transition moves its id in the status sets; one of an update
      leaves them alone. */
  lemma ExecMoves(merge: MergeFn, s: System, a: Action)
    requires Fresh(s) && Enabled(s, a) && a.Step? && s.clients[a.client].Stamped?
    requires Next(merge, s, a).log != s.log
    ensures var op, s' := s.clients[a.client].op, Next(merge, s, a);
      && op.program.id in s'.blobs
      && if op.Update? then s'.members == s.members
         else Moved(s.members, s'.members, op.program.id, op.previous, Lookup(s.blobs, op.program.id),
                    s'.blobs[op.program.id].state)
  {
    var op, s' := s.clients[a.client].op, Next(merge, s, a);
    assert ClientFresh(s, s.clients[a.client]);
    if op.Transition? {
      MoveMemberMoves(s.members, op.program.id, op.previous, Lookup(s.blobs, op.program.id),
                      s'.blobs[op.program.id].state);
    }
  }

  /** Writing a blob without touching the status sets keeps the index exactly when the
      key was stored with the same state. */
  lemma BlindWriteKeepsIndexIff(blobs: map<Id, Program>, key: Id, p: Program)
    ensures Index(blobs) == Index(blobs[key := p]) <==> key in blobs && blobs[key].state == p.state
  {
    var after := blobs[key := p];
    assert (p.state, key) in Index(after) by { assert key in after; }
    if key in blobs && blobs[key].state == p.state {
      forall s, id ensures (s, id) in Index(blobs) <==> (s, id) in Index(after) {
        if (s, id) in Index(blobs) { assert id in after; }
        if (s, id) in Index(after) { assert id in blobs; }
      }
    }
  }

  /** The key and the state that this client's next command writes, if it writes a blob
      and leaves the status sets alone. */
  ghost function PlainWrite(merge: MergeFn, s: System, i: nat): Option<(Id, ProgramState)>
    requires i < |s.clients|
  {
    var c := s.clients[i];
    if c.Stamped? && c.op.Update? && s.Version(c.op.program.id) == c.seen
       && Base(merge, c.existing, c.op.program).Ok? then
      Some((c.op.program.id, Base(merge, c.existing, c.op.program).value.state))
    else if c.Writing? && c.written < |c.programs| then
      Some((c.programs[c.written].id, c.programs[c.written].state))
    else None
  }

  /** Whatever this action writes outside a state transition is stored already, in the
      same state. */
  ghost predicate KeepsState(merge: MergeFn, s: System, a: Action)
    requires Enabled(s, a)
  {
    a.Step? && PlainWrite(merge, s, a.client).Some? ==>
      var (key, state) := PlainWrite(merge, s, a.client).value;
      key in s.blobs && s.blobs[key].state == state
  }

  lemma IndexedStepIff(merge: MergeFn, s: System, a: Action)
    requires Enabled(s, a) && Fresh(s) && Indexed(s)
    ensures Indexed(Next(merge, s, a)) <==> KeepsState(merge, s, a)
  {
    var s' := Next(merge, s, a);
    var c := s.clients[a.client];
    NextFrame(merge, s, a);
    assert ClientFresh(s, c);
    if |s'.log| > |s.log| {
      var key := s'.log[|s.log|].Key();
      if c.Stamped? && c.op.Transition? {
        MoveMemberKeepsIndex(s.blobs, key, c.op.previous, s'.blobs[key]);
      } else {
        BlindWriteKeepsIndexIff(s.blobs, key, s'.blobs[key]);
      }
    }
  }

  /** Every state the run goes through has matching status sets. */
  ghost predicate AlwaysIndexed(merge: MergeFn, s: System, acts: seq<Action>)
    requires Runs(merge, s, acts)
    decreases |acts|
  {
    && Indexed(After(merge, s, acts))
    && (acts != [] ==> AlwaysIndexed(merge, s, acts[..|acts| - 1]))
  }

  ghost predicate AlwaysKeepsState(merge: MergeFn, s: System, acts: seq<Action>)
    requires Runs(merge, s, acts)
    decreases |acts|
  {
    acts != [] ==>
      && KeepsState(merge, After(merge, s, acts[..|acts| - 1]), acts[|acts| - 1])
      && AlwaysKeepsState(merge, s, acts[..|acts| - 1])
  }

  /** Over any run the status sets match the blobs at every moment exactly when
      `update` and bulk writes never create a program or change a stored state. */
  lemma {:induction false} PartitionIff(merge: MergeFn, s: System, acts: seq<Action>)
    requires Initial(s) && Indexed(s) && Runs(merge, s, acts)
    ensures AlwaysIndexed(merge, s, acts) <==> AlwaysKeepsState(merge, s, acts)
    decreases |acts|
  {
    if acts != [] {
      var front := acts[..|acts| - 1];
      PartitionIff(merge, s, front);
      NoLostUpdate(merge, s, front);
      if AlwaysIndexed(merge, s, front) {
        IndexedStepIff(merge, After(merge, s, front), acts[|acts| - 1]);
      }
    }
  }

  ghost predicate OnlyTransitions(acts: seq<Action>) {
    forall a :: a in acts ==> !a.BeginBulk? && (a.Begin? ==> a.op.Transition?)
  }

  ghost predicate TransitionClient(c: Client) {
    c.Idle? || ((c.Ready? || c.Watched? || c.Fetched? || c.Stamped?) && c.op.Transition?)
  }

  lemma TransitionStep(merge: MergeFn, s: System, a: Action)
    requires Enabled(s, a) && TransitionClient(s.clients[a.client])
    requires !a.BeginBulk? && (a.Begin? ==> a.op.Transition?)
    ensures TransitionClient(Next(merge, s, a).clients[a.client])
    ensures KeepsState(merge, s, a)
  {
  }

  /** Any number of concurrent `atomic_state_transition` calls, whatever merge and
      whatever old states: at every reachable state each stored id is in exactly one
      status set, the one of its merged blob. */
  lemma {:induction false} TransitionsPartition(merge: MergeFn, s: System, acts: seq<Action>)
    requires Initial(s) && Indexed(s) && Runs(merge, s, acts) && OnlyTransitions(acts)
    ensures forall c :: c in After(merge, s, acts).clients ==> TransitionClient(c)
    ensures Indexed(After(merge, s, acts))
    decreases |acts|
  {
    if acts != [] {
      var front, last := acts[..|acts| - 1], acts[|acts| - 1];
      TransitionsPartition(merge, s, front);
      var mid := After(merge, s, front);
      NoLostUpdate(merge, s, front);
      assert last in acts && mid.clients[last.client] in mid.clients;
      NextFrame(merge, mid, last);
      TransitionStep(merge, mid, last);
      IndexedStepIff(merge, mid, last);
    }
  }
}
