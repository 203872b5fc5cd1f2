/** Programs and their lifecycle (gigaevo/programs/program.py,
    gigaevo/programs/program_state.py). Values of metadata and stage results are
    opaque to the store, so they are strings here. */
module Programs {
  import opened Prelude

  datatype ProgramState = Queued | Running | Done | Discarded

  datatype Lineage = Lineage(parents: seq<Id>, children: seq<Id>, mutation: Option<string>, generation: nat)

  datatype Program = Program(
    id: Id,
    code: string,
    name: Option<string>,
    stageResults: map<string, string>,
    metrics: map<string, real>,
    metadata: map<string, string>,
    iteration: nat,
    state: ProgramState,
    lineage: Lineage,
    createdAt: int,
    atomicCounter: nat)

  const INCOMPLETE_STATES: set<ProgramState> := {Queued, Running}

  function ValidTransitions(s: ProgramState): set<ProgramState> {
    match s
    case Queued => {Running, Discarded}
    case Running => {ProgramState.Done, Discarded}
    case Done => {Queued, Discarded}
    case Discarded => {}
  }

  predicate IsValidTransition(current: ProgramState, next: ProgramState) {
    current == next || next in ValidTransitions(current)
  }

  /** Branch for branch as in the source, including the final branch that raises. */
  function MergeStates(current: ProgramState, incoming: ProgramState): Result<ProgramState> {
    if current == incoming then Ok(current)
    else if incoming == Discarded then Ok(incoming)
    else if current == Discarded then Ok(current)
    else if IsValidTransition(current, incoming) then Ok(incoming)
    else if IsValidTransition(incoming, current) then Ok(current)
    else Err("Cannot merge incompatible states")
  }

  /** The moves of the lifecycle, one by one. */
  ghost predicate Advances(current: ProgramState, next: ProgramState) {
    || (current == Queued && next == Running)
    || (current == Running && next == ProgramState.Done)
    || (current == ProgramState.Done && next == Queued)
    || (current != Discarded && next == Discarded)
  }

  /** A transition is legal if it stays or advances, and a merge goes forward: whichever
      side comes first, the state that the other one advances to wins. */
  lemma MergeGoesForward(a: ProgramState, b: ProgramState)
    ensures IsValidTransition(a, b) <==> a == b || Advances(a, b)
    ensures IsValidTransition(a, b) <==> MergeStates(a, b) == Ok(b)
    ensures Advances(a, b) ==> MergeStates(a, b) == Ok(b) && MergeStates(b, a) == Ok(b)
    ensures MergeStates(Queued, Running) == Ok(Running) && MergeStates(Running, Queued) == Ok(Running)
    ensures MergeStates(Running, ProgramState.Done) == Ok(ProgramState.Done)
    ensures MergeStates(ProgramState.Done, Running) == Ok(ProgramState.Done)
    ensures MergeStates(ProgramState.Done, Queued) == Ok(Queued) && MergeStates(Queued, ProgramState.Done) == Ok(Queued)
  {
  }

  /** The raising branch is dead: two states always merge, to one of the two,
      and the order of the arguments does not matter. */
  lemma MergeStatesTotal(a: ProgramState, b: ProgramState)
    ensures MergeStates(a, b).Ok?
    ensures MergeStates(a, b) == MergeStates(b, a)
    ensures MergeStates(a, b).value == a || MergeStates(a, b).value == b
    ensures MergeStates(a, b).value == Discarded <==> a == Discarded || b == Discarded
  {
    assert a in {Queued, Running, ProgramState.Done, Discarded};
    assert b in {Queued, Running, ProgramState.Done, Discarded};
  }

  /** Merging three states one after another is independent of the grouping
      exactly when they are not Queued, Running and Done in some order. The three
      live states beat each other in a cycle, so the "lattice" of the source
      comment is not associative there. */
  lemma MergeStatesAssociativeIff(a: ProgramState, b: ProgramState, c: ProgramState)
    ensures
      MergeStates(MergeStates(a, b).value, c) == MergeStates(a, MergeStates(b, c).value)
      <==> !(a != b && b != c && a != c && Discarded !in {a, b, c})
  {
    MergeStatesTotal(a, b);
    MergeStatesTotal(b, c);
  }
}
