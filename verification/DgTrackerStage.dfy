/** DGTrackerStage: which pairs one evaluation feeds to the tracker, and in which
    orientation (gigaevo/adversarial/dg_tracker_stage.py). */
module DgTrackerStage {
  import opened Prelude
  import opened DgTracker

  /** The metrics against one opponent; a missing or NaN delta is `None`. */
  datatype Entry = Entry(delta: Option<real>, rest: map<string, real>)

  datatype Artifact = Artifact(role: Option<Role>, deltas: seq<Option<real>>, metrics: Option<seq<Entry>>)

  /** The record forwarded for opponent i, if its delta was measured: the metrics
      verbatim when the artifact has them, a synthetic record otherwise. */
  function RecordFor(a: Artifact, i: nat): Option<map<string, real>>
    requires i < DrivingLength(a)
  {
    if a.metrics.Some? then
      var e := a.metrics.value[i];
      if e.delta.None? then None else Some(e.rest["delta" := e.delta.value])
    else if a.deltas[i].None? then None
    else Some(map["delta" := a.deltas[i].value, "is_valid" := 1.0])
  }

  function DrivingLength(a: Artifact): nat {
    if a.metrics.Some? then |a.metrics.value| else |a.deltas|
  }

  function Orient(role: Role, program: Id, opponent: Id, record: map<string, real>): Pair {
    if role == Improver then Pair(program, opponent, record) else Pair(opponent, program, record)
  }

  /** A batch is recorded only for the right role and aligned lists. */
  predicate Accepts(role: Role, opponents: seq<Id>, a: Artifact) {
    (a.role.Some? ==> a.role.value == role) && DrivingLength(a) == |opponents|
  }

  /** The oriented pairs of the measured opponents, in order. */
  function Measured(role: Role, program: Id, opponents: seq<Id>, a: Artifact, n: nat): seq<Pair>
    requires n <= |opponents| == DrivingLength(a)
  {
    if n == 0 then []
    else
      var front, record := Measured(role, program, opponents, a, n - 1), RecordFor(a, n - 1);
      if record.Some? then front + [Orient(role, program, opponents[n - 1], record.value)] else front
  }

  /** The record of opponent i is the entry with its delta, or a synthetic one. */
  ghost predicate IsRecord(a: Artifact, i: nat, record: map<string, real>) {
    if a.metrics.Some? then
      && i < |a.metrics.value| && a.metrics.value[i].delta.Some?
      && record == a.metrics.value[i].rest["delta" := a.metrics.value[i].delta.value]
    else
      && i < |a.deltas| && a.deltas[i].Some?
      && record == map["delta" := a.deltas[i].value, "is_valid" := 1.0]
  }

  ghost predicate IsMeasured(a: Artifact, i: nat) {
    if a.metrics.Some? then i < |a.metrics.value| && a.metrics.value[i].delta.Some?
    else i < |a.deltas| && a.deltas[i].Some?
  }

  /** The pairs are those of exactly the measured ones among the first n opponents, in
      order: pair j is that of opponent `at[j]`, improver first, with its record. */
  ghost predicate Feeds(pairs: seq<Pair>, at: seq<nat>, role: Role, program: Id, opponents: seq<Id>, a: Artifact,
                        n: nat)
  {
    && n <= |opponents| && |at| == |pairs|
    && (forall j, k :: 0 <= j < k < |at| ==> at[j] < at[k])
    && (forall i: nat :: i in at <==> i < n && IsMeasured(a, i))
    && forall j :: 0 <= j < |at| ==>
         && at[j] < n && IsRecord(a, at[j], pairs[j].record)
         && pairs[j].d == (if role == Improver then program else opponents[at[j]])
         && pairs[j].g == (if role == Improver then opponents[at[j]] else program)
  }

  lemma {:induction false} MeasuredFeeds(role: Role, program: Id, opponents: seq<Id>, a: Artifact, n: nat)
    returns (at: seq<nat>)
    requires n <= |opponents| == DrivingLength(a)
    ensures Feeds(Measured(role, program, opponents, a, n), at, role, program, opponents, a, n)
  {
    at := [];
    if n > 0 {
      at := MeasuredFeeds(role, program, opponents, a, n - 1);
      if RecordFor(a, n - 1).Some? {
        FeedsOne(Measured(role, program, opponents, a, n - 1), at, role, program, opponents, a, n - 1);
        at := at + [n - 1];
      } else {
        assert !IsMeasured(a, n - 1);
      }
    }
  }

  lemma FeedsOne(pairs: seq<Pair>, at: seq<nat>, role: Role, program: Id, opponents: seq<Id>, a: Artifact, i: nat)
    requires i < |opponents| == DrivingLength(a) && Feeds(pairs, at, role, program, opponents, a, i)
    requires RecordFor(a, i).Some?
    ensures Feeds(pairs + [Orient(role, program, opponents[i], RecordFor(a, i).value)], at + [i],
                  role, program, opponents, a, i + 1)
  {
    assert IsMeasured(a, i);
    forall k: nat ensures k in at + [i] <==> k < i + 1 && IsMeasured(a, k) {
      assert k in at + [i] <==> k in at || k == i;
    }
  }

  method Compute(role: Role, program: Id, opponents: seq<Id>, a: Artifact) returns (pairs: seq<Pair>)
    ensures !Accepts(role, opponents, a) ==> pairs == []
    ensures Accepts(role, opponents, a) ==> pairs == Measured(role, program, opponents, a, |opponents|)
    ensures AllHaveDelta(pairs)
    ensures var n := if a.metrics.Some? then |a.metrics.value| else |a.deltas|;
      if (a.role.Some? && a.role.value != role) || n != |opponents| then pairs == []
      else exists at :: Feeds(pairs, at, role, program, opponents, a, n)
  {
    if a.role.Some? && a.role.value != role { return []; }
    if DrivingLength(a) != |opponents| { return []; }
    pairs := [];
    for i := 0 to |opponents|
      invariant pairs == Measured(role, program, opponents, a, i) && AllHaveDelta(pairs)
    {
      var record := RecordFor(a, i);
      if record.Some? {
        pairs := pairs + [Orient(role, program, opponents[i], record.value)];
      }
    }
    ghost var at := MeasuredFeeds(role, program, opponents, a, |opponents|);
  }

  /** Exactly the measured opponents are fed, each oriented improver first. */
  lemma {:induction false} MeasuredIff(role: Role, program: Id, opponents: seq<Id>, a: Artifact, n: nat, d: Id, g: Id)
    requires n <= |opponents| == DrivingLength(a)
    ensures (exists p :: p in Measured(role, program, opponents, a, n) && p.d == d && p.g == g)
      <==> exists i :: 0 <= i < n && IsMeasured(a, i)
             && (d, g) == if role == Improver then (program, opponents[i]) else (opponents[i], program)
  {
    if n > 0 {
      MeasuredIff(role, program, opponents, a, n - 1, d, g);
      var front, all := Measured(role, program, opponents, a, n - 1), Measured(role, program, opponents, a, n);
      var record := RecordFor(a, n - 1);
      if record.Some? {
        var last := Orient(role, program, opponents[n - 1], record.value);
        assert all == front + [last];
        assert last in all;
        forall p | p in front ensures p in all {}
      }
    }
  }

  lemma {:induction false} FedHasDelta(role: Role, program: Id, opponents: seq<Id>, a: Artifact, n: nat)
    requires n <= |opponents| == DrivingLength(a)
    ensures AllHaveDelta(Measured(role, program, opponents, a, n))
  {
    if n > 0 { FedHasDelta(role, program, opponents, a, n - 1); }
  }

  /** One execution of the stage, on either population's side. */
  datatype Execution = Execution(role: Role, program: Id, opponents: seq<Id>, artifact: Artifact)

  /** What it feeds to the tracker, which never lacks a delta. */
  function Fed(e: Execution): (ps: seq<Pair>)
    ensures AllHaveDelta(ps)
  {
    if Accepts(e.role, e.opponents, e.artifact) then
      FedHasDelta(e.role, e.program, e.opponents, e.artifact, |e.opponents|);
      Measured(e.role, e.program, e.opponents, e.artifact, |e.opponents|)
    else []
  }

  function Run(es: seq<Execution>): Indices {
    if es == [] then EMPTY else RecordBatch(Run(es[..|es| - 1]), Fed(es[|es| - 1]))
  }

  /** The stage runs where it is wired: improvers meet constructors and the other way
      round. */
  ghost predicate WiredTo(e: Execution, ds: set<Id>, gs: set<Id>) {
    if e.role == Improver then e.program in ds && forall o :: o in e.opponents ==> o in gs
    else e.program in gs && forall o :: o in e.opponents ==> o in ds
  }

  function PairsOf(ps: seq<Pair>): set<(Id, Id)> {
    set p | p in ps :: (p.d, p.g)
  }

  lemma PairsAppend(ps: seq<Pair>, p: Pair)
    ensures PairsOf(ps + [p]) == PairsOf(ps) + {(p.d, p.g)}
  {
  }

  lemma OneKey(t: Indices, p: Pair)
    requires HasDelta(p)
    ensures RecordOne(t, p).metrics.Keys == t.metrics.Keys + {(p.d, p.g)}
  {
  }

  lemma {:induction false} MetricsOfAll(t: Indices, ps: seq<Pair>)
    requires AllHaveDelta(ps)
    ensures RecordAll(t, ps).metrics.Keys == t.metrics.Keys + PairsOf(ps)
  {
    if ps != [] {
      var front, last := ps[..|ps| - 1], ps[|ps| - 1];
      MetricsOfAll(t, front);
      assert ps == front + [last];
      PairsAppend(front, last);
      OneKey(RecordAll(t, front), last);
    } else {
      assert PairsOf(ps) == {};
    }
  }

  /** Whatever mix of executions both populations run, the tracker only ever holds an
      improver in the first place and a constructor in the second, and it holds the
      pair of every measured evaluation that was accepted. */
  lemma {:induction false} BothSidesAgreeOnOrientation(es: seq<Execution>, ds: set<Id>, gs: set<Id>)
    requires forall e :: e in es ==> WiredTo(e, ds, gs)
    ensures forall x :: x in Run(es).metrics ==> x.0 in ds && x.1 in gs
    ensures forall e, p :: e in es && p in Fed(e) ==> (p.d, p.g) in Run(es).metrics
  {
    if es != [] {
      var front, e := es[..|es| - 1], es[|es| - 1];
      BothSidesAgreeOnOrientation(front, ds, gs);
      assert e in es;
      MetricsOfAll(Run(front), Fed(e));
      forall p | p in Fed(e) ensures p.d in ds && p.g in gs {
        MeasuredIff(e.role, e.program, e.opponents, e.artifact, |e.opponents|, p.d, p.g);
      }
      assert es == front + [e];
    }
  }
}
