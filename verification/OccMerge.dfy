/** The additive merge inside the protocol: what any run of watched operations can
    and cannot do to a stored program. */
module OccMerge {
  import opened Prelude
  import opened Programs
  import opened MergeStrategies
  import opened OccProtocol
  import opened OccSafety
  import opened OccStamps
  import opened OccProgress

  /** The protocol running with the store's merge strategy. */
  const ADDITIVE: MergeFn := (current: Program, incoming: Program) => MergePrograms(current, incoming)

  ghost predicate NoBulkClients(s: System) {
    forall i :: 0 <= i < |s.clients| ==> !s.clients[i].Reserving? && !s.clients[i].Writing?
  }

  /** What every reachable state of a run of watched operations satisfies. */
  ghost predicate Sound(s: System) {
    Fresh(s) && Bounded(s) && NoBulkClients(s)
  }

  ghost predicate WatchedAction(s: System, a: Action) {
    Enabled(s, a) && !a.BeginBulk?
  }

  lemma SoundStep(s: System, a: Action)
    requires Sound(s) && WatchedAction(s, a)
    ensures Sound(Next(ADDITIVE, s, a))
  {
    var s' := Next(ADDITIVE, s, a);
    NextFrame(ADDITIVE, s, a);
    FreshStep(ADDITIVE, s, a);
    BoundedOwn(ADDITIVE, s, a);
    BoundedStep(s, s', a.client);
    NextCharged(ADDITIVE, s, a);
  }

  lemma InitialIsSound(s: System)
    requires Initial(s)
    ensures Sound(s)
  {
  }

  /** Every key and child of the program is there. */
  ghost predicate Arrived(p: Program, stored: Program) {
    && p.metadata.Keys <= stored.metadata.Keys
    && p.metrics.Keys <= stored.metrics.Keys
    && p.stageResults.Keys <= stored.stageResults.Keys
    && forall c :: c in p.lineage.children ==> c in stored.lineage.children
  }

  lemma MergeArrives(current: Program, incoming: Program, stamp: nat)
    requires MergePrograms(current, incoming).Ok?
    ensures var m := MergePrograms(current, incoming).value.(atomicCounter := stamp);
      && MergedFrom(current, incoming, m) && Retains(current, m) && Arrived(incoming, m)
      && (!Newer(incoming, current) ==> KeepsValues(current, m))
  {
    MergeAdditive(current, incoming);
  }

  /** What a watched commit does to the stored program of its key: the committed program
      is stored as it is, or merged in field by field. */
  ghost predicate CommitExtends(s: System, s': System) {
    |s'.log| > |s.log| ==>
      var c := s'.log[|s.log|];
      && c.Merged?
      && c.op.program.id in s'.blobs && s'.blobs[c.op.program.id].atomicCounter == c.stamp
      && Arrived(c.op.program, s'.blobs[c.op.program.id])
      && (c.Key() !in s.blobs ==> s'.blobs[c.Key()] == c.op.program.(atomicCounter := c.stamp))
      && (c.Key() in s.blobs ==>
            && MergedFrom(s.blobs[c.Key()], c.op.program, s'.blobs[c.Key()])
            && Retains(s.blobs[c.Key()], s'.blobs[c.Key()])
            && s.blobs[c.Key()].atomicCounter < s'.blobs[c.Key()].atomicCounter
            && (!Newer(c.op.program, s.blobs[c.Key()]) ==> KeepsValues(s.blobs[c.Key()], s'.blobs[c.Key()])))
  }

  lemma CommitStep(s: System, a: Action)
    requires Sound(s) && WatchedAction(s, a)
    ensures CommitExtends(s, Next(ADDITIVE, s, a))
  {
    var c := s.clients[a.client];
    assert ClientStamp(s, c);
    if a.Step? && c.Stamped? {
      var p := c.op.program;
      ExecStores(ADDITIVE, s, a);
      if p.id in s.blobs && MergePrograms(s.blobs[p.id], p).Ok? {
        MergeArrives(s.blobs[p.id], p, c.stamp);
      }
    }
  }

  /** Every commit of a run of watched operations does this. */
  lemma CommitsMerge(s: System, acts: seq<Action>, a: Action)
    requires Initial(s) && Runs(ADDITIVE, s, acts) && NoBulk(acts) && WatchedAction(After(ADDITIVE, s, acts), a)
    ensures CommitExtends(After(ADDITIVE, s, acts), Next(ADDITIVE, After(ADDITIVE, s, acts), a))
  {
    InitialIsSound(s);
    NothingDropped(s, acts);
    CommitStep(After(ADDITIVE, s, acts), a);
  }

  /** No program disappears, none loses a key or child, and stamps only rise. */
  ghost predicate Extends(before: map<Id, Program>, after: map<Id, Program>) {
    forall k :: k in before ==>
      k in after && Retains(before[k], after[k]) && before[k].atomicCounter <= after[k].atomicCounter
  }

  lemma ExtendsStep(first: map<Id, Program>, s: System, s': System, i: nat)
    requires Extends(first, s.blobs) && Frame(s, s', i) && CommitExtends(s, s')
    ensures Extends(first, s'.blobs)
  {
    forall k | k in first
      ensures k in s'.blobs && Retains(first[k], s'.blobs[k]) && first[k].atomicCounter <= s'.blobs[k].atomicCounter
    {
      if s'.blobs[k] != s.blobs[k] {
        RetainsTransitive(first[k], s.blobs[k], s'.blobs[k]);
      }
    }
  }

  /** Between any two moments of any run of concurrent `update` and
      `atomic_state_transition` calls, no stored program loses a metadata, metrics or
      stage-result key, a child or an immutable, and its stamp never falls. */
  lemma {:induction false} NothingDropped(s: System, acts: seq<Action>)
    requires Sound(s) && Runs(ADDITIVE, s, acts) && NoBulk(acts)
    ensures Sound(After(ADDITIVE, s, acts))
    ensures Extends(s.blobs, After(ADDITIVE, s, acts).blobs)
    decreases |acts|
  {
    if acts != [] {
      var front, last := acts[..|acts| - 1], acts[|acts| - 1];
      NothingDropped(s, front);
      assert last in acts;
      var mid := After(ADDITIVE, s, front);
      NextFrame(ADDITIVE, mid, last);
      SoundStep(mid, last);
      CommitStep(mid, last);
      ExtendsStep(s.blobs, mid, After(ADDITIVE, s, acts), last.client);
    }
  }

  /** From an initial state: whatever happened before moment `n` of a run, nothing that was
      stored then is dropped afterwards. */
  lemma {:induction false} NothingDroppedSince(s: System, acts: seq<Action>, n: nat)
    requires Initial(s) && Runs(ADDITIVE, s, acts) && NoBulk(acts) && n <= |acts|
    ensures Runs(ADDITIVE, s, acts[..n])
    ensures Extends(After(ADDITIVE, s, acts[..n]).blobs, After(ADDITIVE, s, acts).blobs)
    decreases |acts|
  {
    PrefixRuns(ADDITIVE, s, acts, n);
    if n == |acts| {
      assert acts[..n] == acts;
    } else {
      var front, last := acts[..|acts| - 1], acts[|acts| - 1];
      assert front[..n] == acts[..n] && last in acts;
      NothingDroppedSince(s, front, n);
      InitialIsSound(s);
      NothingDropped(s, front);
      var mid := After(ADDITIVE, s, front);
      NextFrame(ADDITIVE, mid, last);
      CommitStep(mid, last);
      ExtendsStep(After(ADDITIVE, s, acts[..n]).blobs, mid, After(ADDITIVE, s, acts), last.client);
    }
  }

  ghost predicate AllArrived(s: System) {
    forall c :: c in s.log ==> c.Incoming().id in s.blobs && Arrived(c.Incoming(), s.blobs[c.Incoming().id])
  }

  lemma ArrivedStep(s: System, s': System, i: nat)
    requires AllArrived(s) && Frame(s, s', i) && CommitExtends(s, s') && Extends(s.blobs, s'.blobs)
    ensures AllArrived(s')
  {
    forall c | c in s'.log
      ensures c.Incoming().id in s'.blobs && Arrived(c.Incoming(), s'.blobs[c.Incoming().id])
    {
      if c in s.log {
        var before, after := s.blobs[c.Incoming().id], s'.blobs[c.Incoming().id];
        assert Arrived(c.Incoming(), before) && Retains(before, after);
        forall k | k in c.Incoming().lineage.children ensures k in after.lineage.children {
          assert before.lineage.children <= after.lineage.children;
        }
      }
    }
  }

  /** From an initial state: at every moment of a run of watched operations, every program
      committed so far is stored with all its keys and children. */
  lemma {:induction false} EveryCommitArrives(s: System, acts: seq<Action>)
    requires Initial(s) && Runs(ADDITIVE, s, acts) && NoBulk(acts)
    ensures AllArrived(After(ADDITIVE, s, acts))
    decreases |acts|
  {
    if acts != [] {
      var front, last := acts[..|acts| - 1], acts[|acts| - 1];
      EveryCommitArrives(s, front);
      assert last in acts && acts[..|front|] == front;
      var mid := After(ADDITIVE, s, front);
      NextFrame(ADDITIVE, mid, last);
      CommitsMerge(s, front, last);
      NothingDroppedSince(s, acts, |front|);
      ArrivedStep(mid, After(ADDITIVE, s, acts), last.client);
    }
  }

  /** A program carries the stamp it was stored with when it was read, or 0 when it
      was never stored. */
  ghost predicate ReadCopy(blobs: map<Id, Program>, p: Program) {
    if p.id in blobs then p.atomicCounter <= blobs[p.id].atomicCounter else p.atomicCounter == 0
  }

  /** Every operation is begun with a program that was read from the store before. */
  ghost predicate ReadsBeforeWrites(s: System, acts: seq<Action>)
    requires Runs(ADDITIVE, s, acts)
    decreases |acts|
  {
    acts != [] ==>
      var front, last := acts[..|acts| - 1], acts[|acts| - 1];
      && ReadsBeforeWrites(s, front)
      && (last.Begin? ==> ReadCopy(After(ADDITIVE, s, front).blobs, last.op.program))
  }

  ghost predicate CopyClient(blobs: map<Id, Program>, c: Client) {
    (c.Ready? || c.Watched? || c.Fetched? || c.Stamped?) ==> ReadCopy(blobs, c.op.program)
  }

  ghost predicate AllCopies(s: System) {
    forall i :: 0 <= i < |s.clients| ==> CopyClient(s.blobs, s.clients[i])
  }

  lemma CopiesStep(s: System, a: Action)
    requires Sound(s) && WatchedAction(s, a) && AllCopies(s)
    requires a.Begin? ==> ReadCopy(s.blobs, a.op.program)
    ensures AllCopies(Next(ADDITIVE, s, a))
  {
    var s' := Next(ADDITIVE, s, a);
    NextFrame(ADDITIVE, s, a);
    CommitStep(s, a);
    assert CopyClient(s.blobs, s.clients[a.client]);
    forall i | 0 <= i < |s'.clients| ensures CopyClient(s'.blobs, s'.clients[i]) {
      assert CopyClient(s.blobs, s.clients[i]);
    }
  }

  ghost predicate ValuesKept(before: map<Id, Program>, after: map<Id, Program>) {
    forall k :: k in before ==> k in after && KeepsValues(before[k], after[k])
  }

  /** The commit of a copy changes no stored value. */
  lemma CopyCommit(s: System, a: Action)
    requires Sound(s) && WatchedAction(s, a) && AllCopies(s)
    ensures ValuesKept(s.blobs, Next(ADDITIVE, s, a).blobs)
  {
    NextFrame(ADDITIVE, s, a);
    CommitStep(s, a);
    assert CopyClient(s.blobs, s.clients[a.client]);
  }

  /** A copy read from the store carries at most the stored stamp, and the merge
      prefers the stored side on a tie. So in every run whose operations write
      programs read before, `update` and `atomic_state_transition` only ever add
      keys: a stored metadata, metrics or stage-result value and the code never
      change, not even by the latest writer. */
  lemma {:induction false} CopiesNeverOverwrite(s: System, acts: seq<Action>)
    requires Sound(s) && AllCopies(s) && Runs(ADDITIVE, s, acts) && NoBulk(acts) && ReadsBeforeWrites(s, acts)
    ensures AllCopies(After(ADDITIVE, s, acts))
    ensures ValuesKept(s.blobs, After(ADDITIVE, s, acts).blobs)
    decreases |acts|
  {
    if acts != [] {
      var front, last := acts[..|acts| - 1], acts[|acts| - 1];
      CopiesNeverOverwrite(s, front);
      NothingDropped(s, front);
      assert last in acts;
      CopiesStep(After(ADDITIVE, s, front), last);
      CopyCommit(After(ADDITIVE, s, front), last);
    }
  }

  /** A commit that is not newer than the stored program keeps its values. */
  lemma OldCommitKeeps(s: System, a: Action)
    requires Sound(s) && WatchedAction(s, a) && a.Step? && s.clients[a.client].Stamped?
    requires var p := s.clients[a.client].op.program;
      p.id in s.blobs && p.atomicCounter <= s.blobs[p.id].atomicCounter
    ensures var p := s.clients[a.client].op.program;
      p.id in Next(ADDITIVE, s, a).blobs && KeepsValues(s.blobs[p.id], Next(ADDITIVE, s, a).blobs[p.id])
  {
    var p := s.clients[a.client].op.program;
    ExecStores(ADDITIVE, s, a);
    if MergePrograms(s.blobs[p.id], p).Ok? {
      MergeArrives(s.blobs[p.id], p, s.clients[a.client].stamp);
    }
  }

  /** One more consequence for a single commit: a copy read at any earlier moment of
      the run can add keys to the program stored now, but overwrites nothing. */
  lemma StaleCopyAddsOnly(s: System, acts: seq<Action>, a: Action)
    requires Sound(s) && Runs(ADDITIVE, s, acts) && NoBulk(acts)
    requires var now := After(ADDITIVE, s, acts);
      && WatchedAction(now, a) && a.Step? && now.clients[a.client].Stamped?
      && var p := now.clients[a.client].op.program;
         p.id in s.blobs && p.atomicCounter <= s.blobs[p.id].atomicCounter
    ensures var now := After(ADDITIVE, s, acts);
      var key := now.clients[a.client].op.program.id;
      key in now.blobs && key in Next(ADDITIVE, now, a).blobs
      && KeepsValues(now.blobs[key], Next(ADDITIVE, now, a).blobs[key])
  {
    NothingDropped(s, acts);
    OldCommitKeeps(After(ADDITIVE, s, acts), a);
  }
}
