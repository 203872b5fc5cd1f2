/** Safety of the protocol over all runs: no lost update, growing and unique stamps,
    and status sets that match the blobs. */
module OccSafety {
  import opened Prelude
  import opened Programs
  import opened OccProtocol

  // ---------------------------------------------------------------- no lost update

  /** The specification: each commit is one atomic merge-then-stamp against the blob
      stored at that moment; a program that is not stored yet is stored as it comes. */
  function Apply(merge: MergeFn, blobs: map<Id, Program>, c: Commit): map<Id, Program> {
    match c
    case Written(p, stamp) => blobs[p.id := p.(atomicCounter := stamp)]
    case Merged(op, stamp) =>
      var p := op.program;
      if p.id !in blobs then blobs[p.id := p.(atomicCounter := stamp)]
      else
        var merged := merge(blobs[p.id], p);
        if merged.Err? then blobs else blobs[p.id := merged.value.(atomicCounter := stamp)]
  }

  function Replay(merge: MergeFn, blobs: map<Id, Program>, log: seq<Commit>): map<Id, Program> {
    if log == [] then blobs
    else Apply(merge, Replay(merge, blobs, log[..|log| - 1]), log[|log| - 1])
  }

  /** The client watches its key and nobody has written the key since. */
  ghost predicate Clean(s: System, c: Client) {
    (c.Watched? || c.Fetched? || c.Stamped?) && s.Version(c.op.program.id) == c.seen
  }

  /** A clean client holds the blob that is stored now. */
  ghost predicate ClientFresh(s: System, c: Client) {
    && ((c.Watched? || c.Fetched? || c.Stamped?) ==> c.seen <= s.Version(c.op.program.id))
    && ((c.Fetched? || c.Stamped?) && Clean(s, c) ==> c.existing == Lookup(s.blobs, c.op.program.id))
  }

  ghost predicate Fresh(s: System) {
    forall i :: 0 <= i < |s.clients| ==> ClientFresh(s, s.clients[i])
  }

  /** What one action does to the shared state: it moves one client and never lowers
      the counter; it writes at most one key, which goes with exactly one commit. */
  ghost predicate Frame(s: System, s': System, i: nat) {
    && |s'.clients| == |s.clients| && i < |s.clients|
    && s'.clients == s.clients[i := s'.clients[i]]
    && s.counter <= s'.counter
    && (|| (s'.blobs == s.blobs && s'.versions == s.versions && s'.log == s.log)
        || OneWrite(s, s'))
  }

  ghost predicate OneWrite(s: System, s': System) {
    && |s'.log| == |s.log| + 1
    && (forall j :: 0 <= j < |s.log| ==> s'.log[j] == s.log[j])
    && var c := s'.log[|s.log|];
       && c.Key() in s'.blobs && s'.blobs == s.blobs[c.Key() := s'.blobs[c.Key()]]
       && s'.blobs[c.Key()].atomicCounter == c.stamp
       && s'.versions == s.versions[c.Key() := s.Version(c.Key()) + 1]
       && s'.counter == s.counter
  }

  lemma WriteFrame(s: System, i: nat, c: Client, p: Program, commit: Commit)
    requires i < |s.clients| && p.atomicCounter == commit.stamp
    ensures Frame(s, SetBlob(With(s, i, c), commit.Key(), p, commit), i)
  {
    var s' := SetBlob(With(s, i, c), commit.Key(), p, commit);
    assert s'.log == s.log + [commit];
  }

  lemma ExecFrame(merge: MergeFn, s: System, i: nat)
    requires i < |s.clients| && s.clients[i].Stamped?
    ensures Frame(s, Exec(merge, s, i), i)
  {
    var Stamped(op, seen, existing, stamp) := s.clients[i];
    var base := Base(merge, existing, op.program);
    if base.Ok? {
      WriteFrame(s, i, Idle, base.value.(atomicCounter := stamp), Merged(op, stamp));
    }
  }

  lemma BulkFrame(s: System, i: nat)
    requires i < |s.clients| && s.clients[i].Writing?
    ensures Frame(s, BulkWrite(s, i), i)
  {
    var Writing(ps, start, written) := s.clients[i];
    if written < |ps| {
      var p := ps[written].(atomicCounter := start + written);
      WriteFrame(s, i, Writing(ps, start, written + 1), p, Written(ps[written], start + written));
    }
  }

  lemma NextFrame(merge: MergeFn, s: System, a: Action)
    requires Enabled(s, a)
    ensures Frame(s, Next(merge, s, a), a.client)
  {
    var i := a.client;
    if a.Step? && s.clients[i].Stamped? {
      ExecFrame(merge, s, i);
    } else if a.Step? && s.clients[i].Writing? {
      BulkFrame(s, i);
    }
  }

  lemma FreshOther(s: System, s': System, i: nat, c: Client)
    requires Frame(s, s', i) && ClientFresh(s, c)
    ensures ClientFresh(s', c)
  {
  }

  lemma FreshOwn(merge: MergeFn, s: System, a: Action)
    requires Enabled(s, a) && ClientFresh(s, s.clients[a.client])
    ensures ClientFresh(Next(merge, s, a), Next(merge, s, a).clients[a.client])
  {
  }

  lemma FreshStep(merge: MergeFn, s: System, a: Action)
    requires Fresh(s) && Enabled(s, a)
    ensures Fresh(Next(merge, s, a))
  {
    var s' := Next(merge, s, a);
    NextFrame(merge, s, a);
    forall i | 0 <= i < |s'.clients| ensures ClientFresh(s', s'.clients[i]) {
      assert ClientFresh(s, s.clients[i]);
      if i == a.client {
        FreshOwn(merge, s, a);
      } else {
        FreshOther(s, s', a.client, s.clients[i]);
      }
    }
  }

  /** One action either leaves the blobs and the log alone, or appends one commit
      and changes the blobs as that commit applied to the blobs stored now. */
  lemma StepRefines(merge: MergeFn, s: System, a: Action)
    requires Fresh(s) && Enabled(s, a)
    ensures var s' := Next(merge, s, a);
      || (s'.log == s.log && s'.blobs == s.blobs)
      || (|s'.log| == |s.log| + 1 && s'.log[..|s.log|] == s.log && s'.blobs == Apply(merge, s.blobs, s'.log[|s.log|]))
  {
    assert ClientFresh(s, s.clients[a.client]);
  }

  /** What EXEC does in any reachable state. If the key was not written since WATCH, the
      program goes in merged with the blob stored now, or as it is if none is stored, under
      the stamp of its INCR, or the merge raises and nothing is written. If it was, nothing
      is written and the client starts over, or its merge with the outdated blob raises. */
  lemma ExecStores(merge: MergeFn, s: System, a: Action)
    requires Fresh(s) && Enabled(s, a) && a.Step? && s.clients[a.client].Stamped?
    ensures var c, s' := s.clients[a.client], Next(merge, s, a);
      var p, stamp, i := c.op.program, c.stamp, a.client;
      if s.Version(p.id) != c.seen then
        && s'.blobs == s.blobs && s'.members == s.members && s'.log == s.log
        && ((s'.clients[i] == Ready(c.op) && s'.aborted == s.aborted && s'.failures == s.failures + 1)
            || (s'.clients[i] == Idle && s'.aborted == s.aborted + [p] && s'.failures == s.failures))
      else if p.id !in s.blobs then
        && s'.blobs == s.blobs[p.id := p.(atomicCounter := stamp)]
        && s'.log == s.log + [Merged(c.op, stamp)] && s'.clients[i] == Idle
      else if merge(s.blobs[p.id], p).Ok? then
        && s'.blobs == s.blobs[p.id := merge(s.blobs[p.id], p).value.(atomicCounter := stamp)]
        && s'.log == s.log + [Merged(c.op, stamp)] && s'.clients[i] == Idle
      else
        && s'.blobs == s.blobs && s'.members == s.members && s'.log == s.log
        && s'.aborted == s.aborted + [p] && s'.clients[i] == Idle
  {
    assert ClientFresh(s, s.clients[a.client]);
  }

  /** No lost update: in every interleaving the stored blobs are the fold, in commit
      order, of merge-then-stamp over the committed programs. */
  lemma {:induction false} NoLostUpdate(merge: MergeFn, s: System, acts: seq<Action>)
    requires Initial(s) && Runs(merge, s, acts)
    ensures Fresh(After(merge, s, acts))
    ensures After(merge, s, acts).blobs == Replay(merge, s.blobs, After(merge, s, acts).log)
    decreases |acts|
  {
    if acts != [] {
      var front := acts[..|acts| - 1];
      NoLostUpdate(merge, s, front);
      var mid := After(merge, s, front);
      FreshStep(merge, mid, acts[|acts| - 1]);
      StepRefines(merge, mid, acts[|acts| - 1]);
    }
  }
}
