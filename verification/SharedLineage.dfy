/** SharedBenchmarkFilteredLineageStage.preprocess: parents are kept when they share
    opponents with the child, and the evidence compares both on the shared opponents
    (gigaevo/adversarial/shared_benchmark_lineage.py). The tracker is read again and again while
    others write to it, so every read sees a later state. */
module SharedLineage {
  import opened Prelude
  import opened Order
  import opened DgTracker

  type Metrics = map<(Id, Id), map<string, real>>

  /** HGETALL of one improver's hash. */
  function MetricsByD(m: Metrics, d: Id): map<Id, map<string, real>> {
    map g | g in (set x | x in m && x.0 == d :: x.1) :: m[(d, g)]
  }

  lemma MetricsByDKeys(m: Metrics, d: Id, g: Id)
    ensures g in MetricsByD(m, d) <==> (d, g) in m
  {
    if (d, g) in m {
      assert (d, g).1 == g;
    }
  }

  datatype Evidence = Evidence(parent: Id, shared: seq<Id>, parentRecords: seq<map<string, real>>,
                               childRecords: seq<map<string, real>>)

  datatype Outcome =
    | Skipped
    | Prepared(parents: seq<Candidate>, evidence: seq<Evidence>)
    | KeyError

  /** `ids` is the sorted list of a set. */
  ghost predicate IsSorted(ids: seq<Id>, s: set<Id>) {
    (forall i, j :: 0 <= i < j < |ids| ==> LexLess(ids[i], ids[j])) && Elements(ids) == s
  }

  method Least(s: set<Id>) returns (least: Id)
    requires s != {}
    ensures least in s && forall x :: x in s && x != least ==> LexLess(least, x)
  {
    least :| least in s;
    var todo := s - {least};
    while todo != {}
      invariant todo <= s && least in s && least !in todo
      invariant forall x :: x in s && x !in todo && x != least ==> LexLess(least, x)
      decreases todo
    {
      var x :| x in todo;
      todo := todo - {x};
      LexTotal(x, least);
      if LexLess(x, least) {
        forall y | y in s && y !in todo && y != x && y != least ensures LexLess(x, y) {
          LexTransitive(x, least, y);
        }
        least := x;
      }
    }
  }

  method Sorted(s: set<Id>) returns (ids: seq<Id>)
    ensures IsSorted(ids, s)
  {
    ids := [];
    var rest := s;
    while rest != {}
      invariant rest <= s && Elements(ids) == s - rest
      invariant forall i, j :: 0 <= i < j < |ids| ==> LexLess(ids[i], ids[j])
      invariant forall i, x :: 0 <= i < |ids| && x in rest ==> LexLess(ids[i], x)
      decreases rest
    {
      var x := Least(rest);
      assert Elements(ids + [x]) == Elements(ids) + {x};
      ids, rest := ids + [x], rest - {x};
    }
  }

  lemma {:induction false} SortedSize(ids: seq<Id>, s: set<Id>)
    requires IsSorted(ids, s)
    ensures |ids| == |s|
  {
    forall i, j | 0 <= i < j < |ids| ensures ids[i] != ids[j] {
      LexTotal(ids[i], ids[j]);
    }
    DistinctSize(ids);
  }

  /** Opponents of the child that this read shows for the parent too. */
  function Shared(childByG: map<Id, map<string, real>>, read: Metrics, parent: Id): set<Id> {
    childByG.Keys * MetricsByD(read, parent).Keys
  }

  /** A parent with the two states of the tracker its hash is read in: when it is
      judged, and again when its evidence is built. */
  datatype Candidate = Candidate(id: Id, judged: Metrics, refetch: Metrics)

  predicate SharesEnough(childByG: map<Id, map<string, real>>, c: Candidate, minShared: nat) {
    |Shared(childByG, c.judged, c.id)| >= minShared
  }

  /** The candidates that share enough opponents with the child, in order. */
  function Kept(childByG: map<Id, map<string, real>>, cs: seq<Candidate>, minShared: nat): seq<Candidate> {
    if cs == [] then []
    else
      var front, c := Kept(childByG, cs[..|cs| - 1], minShared), cs[|cs| - 1];
      if SharesEnough(childByG, c, minShared) then front + [c] else front
  }

  /** Those that storage still has. */
  function Available(cs: seq<Candidate>, stored: set<Id>): seq<Candidate> {
    if cs == [] then []
    else
      var front, c := Available(cs[..|cs| - 1], stored), cs[|cs| - 1];
      if c.id in stored then front + [c] else front
  }

  lemma SharedAre(childByG: map<Id, map<string, real>>, c: Candidate)
    ensures Shared(childByG, c.judged, c.id) == set g | g in childByG && (c.id, g) in c.judged
  {
    forall g { MetricsByDKeys(c.judged, c.id, g); }
  }

  lemma {:induction false} KeptMember(childByG: map<Id, map<string, real>>, cs: seq<Candidate>, minShared: nat,
                                      c: Candidate)
    ensures c in Kept(childByG, cs, minShared) <==> c in cs && SharesEnough(childByG, c, minShared)
  {
    if cs != [] {
      var front, last := cs[..|cs| - 1], cs[|cs| - 1];
      KeptMember(childByG, front, minShared, c);
      assert c in cs <==> c in front || c == last by {
        assert cs == front + [last];
      }
    }
  }

  lemma KeptShareEnough(childByG: map<Id, map<string, real>>, cs: seq<Candidate>, minShared: nat, c: Candidate)
    ensures c in Kept(childByG, cs, minShared) <==>
      c in cs && |set g | g in childByG && (c.id, g) in c.judged| >= minShared
  {
    SharedAre(childByG, c);
    KeptMember(childByG, cs, minShared, c);
  }

  lemma {:induction false} AvailableStored(cs: seq<Candidate>, stored: set<Id>, c: Candidate)
    ensures c in Available(cs, stored) <==> c in cs && c.id in stored
  {
    if cs != [] {
      AvailableStored(cs[..|cs| - 1], stored, c);
      assert cs == cs[..|cs| - 1] + [cs[|cs| - 1]];
    }
  }

  /** The opponents both met: the child at the first read, the parent when it is judged. */
  ghost function Common(child: Id, first: Metrics, c: Candidate): set<Id> {
    set x | x in first && x.0 == child && (c.id, x.1) in c.judged :: x.1
  }

  lemma CommonIsShared(child: Id, first: Metrics, c: Candidate)
    ensures Common(child, first, c) == Shared(MetricsByD(first, child), c.judged, c.id)
  {
    forall g ensures g in Common(child, first, c) <==> g in Shared(MetricsByD(first, child), c.judged, c.id) {
      MetricsByDKeys(first, child, g);
      MetricsByDKeys(c.judged, c.id, g);
      if g in Shared(MetricsByD(first, child), c.judged, c.id) {
        assert (child, g).1 == g;
      }
    }
  }

  /** A candidate becomes a parent when it shares enough opponents and is still stored. */
  ghost predicate BecomesParent(child: Id, first: Metrics, c: Candidate, stored: set<Id>, minShared: nat) {
    |Common(child, first, c)| >= minShared && c.id in stored
  }

  lemma OneMoreCandidate(childByG: map<Id, map<string, real>>, cs: seq<Candidate>, c: Candidate, stored: set<Id>,
                         minShared: nat)
    ensures Available(Kept(childByG, cs + [c], minShared), stored)
            == Available(Kept(childByG, cs, minShared), stored)
               + if SharesEnough(childByG, c, minShared) && c.id in stored then [c] else []
  {
    var kept := Kept(childByG, cs, minShared);
    assert (cs + [c])[..|cs|] == cs && (kept + [c])[..|kept|] == kept;
  }

  lemma SharesEnoughIff(child: Id, first: Metrics, c: Candidate, minShared: nat)
    ensures SharesEnough(MetricsByD(first, child), c, minShared) <==> |Common(child, first, c)| >= minShared
  {
    CommonIsShared(child, first, c);
  }

  predicate Stays(childByG: map<Id, map<string, real>>, c: Candidate, stored: set<Id>, minShared: nat) {
    SharesEnough(childByG, c, minShared) && c.id in stored
  }

  lemma {:induction false} AvailableIsFilter(childByG: map<Id, map<string, real>>, cs: seq<Candidate>,
                                             stored: set<Id>, minShared: nat, keep: Candidate -> bool)
    requires forall c :: keep(c) <==> Stays(childByG, c, stored, minShared)
    ensures Available(Kept(childByG, cs, minShared), stored) == Filter(cs, keep)
  {
    if cs != [] {
      var front, c := cs[..|cs| - 1], cs[|cs| - 1];
      AvailableIsFilter(childByG, front, stored, minShared, keep);
      OneMoreCandidate(childByG, front, c, stored, minShared);
      FilterAppend(front, [c], keep);
      assert Filter([c], keep) == if keep(c) then [c] else [];
      assert cs == front + [c];
    }
  }

  /** The parents are exactly those candidates, in their order. */
  lemma ParentsArePicked(child: Id, first: Metrics, cs: seq<Candidate>, stored: set<Id>, minShared: nat)
    returns (at: seq<nat>)
    ensures Picks(cs, at, Available(Kept(MetricsByD(first, child), cs, minShared), stored))
    ensures ParentsAt(child, first, cs, stored, minShared, at)
  {
    var keep := c => Stays(MetricsByD(first, child), c, stored, minShared);
    AvailableIsFilter(MetricsByD(first, child), cs, stored, minShared, keep);
    at := FilterPicks(cs, keep);
    forall i: nat | i < |cs| {
      SharesEnoughIff(child, first, cs[i], minShared);
    }
  }

  /** The positions of exactly those candidates. */
  ghost predicate ParentsAt(child: Id, first: Metrics, cs: seq<Candidate>, stored: set<Id>, minShared: nat,
                            at: seq<nat>)
  {
    forall i: nat :: i in at <==> i < |cs| && BecomesParent(child, first, cs[i], stored, minShared)
  }

  /** The evidence for one parent is aligned: three lists of one length, at least the
      minimum, entry i of both records belonging to shared opponent i. */
  ghost predicate Aligned(e: Evidence, childByG: map<Id, map<string, real>>, refetch: Metrics, minShared: nat) {
    && |e.shared| == |e.parentRecords| == |e.childRecords| && |e.shared| >= minShared
    && (forall i, j :: 0 <= i < j < |e.shared| ==> LexLess(e.shared[i], e.shared[j]))
    && (forall i :: 0 <= i < |e.shared| ==>
          && e.shared[i] in childByG && e.childRecords[i] == childByG[e.shared[i]]
          && (e.parent, e.shared[i]) in refetch && e.parentRecords[i] == refetch[(e.parent, e.shared[i])])
  }

  /** Records of the shared opponents in order; fails if one is gone. */
  method Records(byG: map<Id, map<string, real>>, shared: seq<Id>) returns (records: Option<seq<map<string, real>>>)
    ensures records.Some? <==> forall g :: g in shared ==> g in byG
    ensures records.Some? ==>
      && |records.value| == |shared|
      && forall i :: 0 <= i < |shared| ==> shared[i] in byG && records.value[i] == byG[shared[i]]
  {
    var out := [];
    for i := 0 to |shared|
      invariant |out| == i && forall j :: 0 <= j < i ==> shared[j] in byG && out[j] == byG[shared[j]]
    {
      if shared[i] !in byG { return None; }
      out := out + [byG[shared[i]]];
    }
    return Some(out);
  }

  /** The evidence for one kept parent. */
  method EvidenceFor(childByG: map<Id, map<string, real>>, parent: Id, shared: set<Id>, refetch: Metrics,
                     minShared: nat)
    returns (e: Option<Evidence>)
    requires shared <= childByG.Keys && |shared| >= minShared
    ensures e.Some? <==> shared <= MetricsByD(refetch, parent).Keys
    ensures e.Some? ==>
      && e.value.parent == parent && Elements(e.value.shared) == shared
      && Aligned(e.value, childByG, refetch, minShared)
  {
    var ids := Sorted(shared);
    SortedSize(ids, shared);
    forall g ensures g in MetricsByD(refetch, parent) <==> (parent, g) in refetch {
      MetricsByDKeys(refetch, parent, g);
    }
    forall g | g in ids ensures g in shared { assert g in Elements(ids); }
    var parentRecords := Records(MetricsByD(refetch, parent), ids);
    var childRecords := Records(childByG, ids);
    if parentRecords.None? {
      assert forall g :: g in shared ==> g in ids by {
        forall g | g in shared ensures g in ids { assert g in Elements(ids); }
      }
      return None;
    }
    return Some(Evidence(parent, ids, parentRecords.value, childRecords.value));
  }

  method FilterParents(childByG: map<Id, map<string, real>>, cs: seq<Candidate>, minShared: nat)
    returns (kept: seq<Candidate>)
    ensures kept == Kept(childByG, cs, minShared)
  {
    kept := [];
    for i := 0 to |cs|
      invariant kept == Kept(childByG, cs[..i], minShared)
    {
      assert cs[..i + 1][..i] == cs[..i];
      if SharesEnough(childByG, cs[i], minShared) {
        kept := kept + [cs[i]];
      }
    }
    assert cs[..|cs|] == cs;
  }

  /** The evidence compares the child with the candidate on exactly the opponents they
      shared when the candidate was judged. */
  ghost predicate EvidenceOf(e: Evidence, childByG: map<Id, map<string, real>>, c: Candidate, minShared: nat) {
    && e.parent == c.id
    && Elements(e.shared) == Shared(childByG, c.judged, c.id)
    && Aligned(e, childByG, c.refetch, minShared)
  }

  /** The second read of the hash still has every shared opponent. */
  ghost predicate Refetchable(childByG: map<Id, map<string, real>>, c: Candidate) {
    Shared(childByG, c.judged, c.id) <= MetricsByD(c.refetch, c.id).Keys
  }

  lemma AvailableStep(kept: seq<Candidate>, stored: set<Id>, k: nat)
    requires k < |kept|
    ensures Available(kept[..k + 1], stored)
            == Available(kept[..k], stored) + if kept[k].id in stored then [kept[k]] else []
  {
    assert kept[..k + 1][..k] == kept[..k];
  }

  /** One piece of evidence for each available parent, in order. */
  ghost predicate Built(out: seq<Evidence>, available: seq<Candidate>, childByG: map<Id, map<string, real>>,
                        minShared: nat) {
    |out| == |available| && forall k :: 0 <= k < |out| ==> EvidenceOf(out[k], childByG, available[k], minShared)
  }

  ghost predicate AllRefetchable(childByG: map<Id, map<string, real>>, cs: seq<Candidate>) {
    forall c :: c in cs ==> Refetchable(childByG, c)
  }

  lemma BuiltStep(out: seq<Evidence>, available: seq<Candidate>, childByG: map<Id, map<string, real>>, minShared: nat,
                  e: Evidence, c: Candidate)
    requires Built(out, available, childByG, minShared) && AllRefetchable(childByG, available)
    requires EvidenceOf(e, childByG, c, minShared) && Refetchable(childByG, c)
    ensures Built(out + [e], available + [c], childByG, minShared) && AllRefetchable(childByG, available + [c])
  {
  }

  /** A shared opponent that is gone from the second read raises. */
  method BuildEvidence(childByG: map<Id, map<string, real>>, stored: set<Id>, kept: seq<Candidate>, minShared: nat)
    returns (evidence: Option<seq<Evidence>>)
    requires forall c :: c in kept ==> |Shared(childByG, c.judged, c.id)| >= minShared
    ensures evidence.Some? <==> AllRefetchable(childByG, Available(kept, stored))
    ensures evidence.Some? ==> Built(evidence.value, Available(kept, stored), childByG, minShared)
  {
    var out: seq<Evidence> := [];
    for k := 0 to |kept|
      invariant Built(out, Available(kept[..k], stored), childByG, minShared)
      invariant AllRefetchable(childByG, Available(kept[..k], stored))
    {
      var c := kept[k];
      AvailableStep(kept, stored, k);
      assert c in kept;
      if c.id in stored {
        var e := EvidenceFor(childByG, c.id, Shared(childByG, c.judged, c.id), c.refetch, minShared);
        if e.None? {
          AvailableStored(kept, stored, c);
          return None;
        }
        BuiltStep(out, Available(kept[..k], stored), childByG, minShared, e.value, c);
        out := out + [e.value];
      }
    }
    assert kept[..|kept|] == kept;
    return Some(out);
  }

  /** The evidence of a parent: the opponents both met, sorted, and for each of them the
      child's record of the first read and the parent's record of the second. */
  ghost predicate Compares(e: Evidence, child: Id, first: Metrics, c: Candidate) {
    && e.parent == c.id && IsSorted(e.shared, Common(child, first, c))
    && |e.shared| == |e.parentRecords| == |e.childRecords|
    && forall i :: 0 <= i < |e.shared| ==>
         && (child, e.shared[i]) in first && e.childRecords[i] == first[(child, e.shared[i])]
         && (c.id, e.shared[i]) in c.refetch && e.parentRecords[i] == c.refetch[(c.id, e.shared[i])]
  }

  lemma EvidenceCompares(e: Evidence, child: Id, first: Metrics, c: Candidate, minShared: nat)
    requires EvidenceOf(e, MetricsByD(first, child), c, minShared)
    ensures Compares(e, child, first, c)
  {
    CommonIsShared(child, first, c);
    forall i | 0 <= i < |e.shared| ensures (child, e.shared[i]) in first {
      MetricsByDKeys(first, child, e.shared[i]);
    }
  }

  /** Some parent lacks a shared opponent at the second read. */
  ghost predicate LosesOpponent(child: Id, first: Metrics, cs: seq<Candidate>, stored: set<Id>, minShared: nat) {
    exists c, g :: c in cs && BecomesParent(child, first, c, stored, minShared)
      && g in Common(child, first, c) && (c.id, g) !in c.refetch
  }

  lemma LosesIff(child: Id, first: Metrics, cs: seq<Candidate>, stored: set<Id>, minShared: nat)
    ensures LosesOpponent(child, first, cs, stored, minShared)
      <==> !AllRefetchable(MetricsByD(first, child), Available(Kept(MetricsByD(first, child), cs, minShared), stored))
  {
    var childByG := MetricsByD(first, child);
    var parents := Available(Kept(childByG, cs, minShared), stored);
    forall c ensures c in parents <==> c in cs && BecomesParent(child, first, c, stored, minShared) {
      AvailableStored(Kept(childByG, cs, minShared), stored, c);
      KeptMember(childByG, cs, minShared, c);
      SharesEnoughIff(child, first, c, minShared);
    }
    forall c: Candidate, g ensures g in MetricsByD(c.refetch, c.id) <==> (c.id, g) in c.refetch {
      MetricsByDKeys(c.refetch, c.id, g);
    }
    forall c: Candidate { CommonIsShared(child, first, c); }
  }

  /** The parents are exactly those that shared enough with the child and that storage
      still has, in order, and the evidence is aligned with them. The stage raises exactly
      when some shared opponent of an available parent is gone by the second read. */
  method Preprocess(child: Id, first: Metrics, cs: seq<Candidate>, stored: set<Id>, minShared: nat)
    returns (outcome: Outcome)
    requires minShared >= 1
    ensures var childByG := MetricsByD(first, child);
      var kept := Kept(childByG, cs, minShared);
      var available := Available(kept, stored);
      && (outcome.Skipped? <==> kept == [])
      && (outcome.KeyError? <==> !AllRefetchable(childByG, available))
      && (outcome.Prepared? ==> outcome.parents == available && Built(outcome.evidence, available, childByG, minShared))
    ensures outcome.Skipped? <==> forall c :: c in cs ==> |Common(child, first, c)| < minShared
    ensures outcome.KeyError? <==> LosesOpponent(child, first, cs, stored, minShared)
    ensures outcome.Prepared? ==>
      && (exists at :: Picks(cs, at, outcome.parents) && ParentsAt(child, first, cs, stored, minShared, at))
      && |outcome.evidence| == |outcome.parents|
      && forall k :: 0 <= k < |outcome.parents| ==> Compares(outcome.evidence[k], child, first, outcome.parents[k])
  {
    var childByG := MetricsByD(first, child);
    var kept := FilterParents(childByG, cs, minShared);
    SkipsIff(child, first, cs, minShared);
    LosesIff(child, first, cs, stored, minShared);
    if kept == [] { return Skipped; }
    forall c | c in kept ensures |Shared(childByG, c.judged, c.id)| >= minShared {
      KeptMember(childByG, cs, minShared, c);
    }
    var parents := Available(kept, stored);
    var evidence := BuildEvidence(childByG, stored, kept, minShared);
    if evidence.None? { return KeyError; }
    BuiltCompares(evidence.value, parents, child, first, minShared);
    ghost var at := ParentsArePicked(child, first, cs, stored, minShared);
    return Prepared(parents, evidence.value);
  }

  lemma SkipsIff(child: Id, first: Metrics, cs: seq<Candidate>, minShared: nat)
    ensures Kept(MetricsByD(first, child), cs, minShared) == []
      <==> forall c :: c in cs ==> |Common(child, first, c)| < minShared
  {
    var kept := Kept(MetricsByD(first, child), cs, minShared);
    forall c: Candidate ensures c in kept <==> c in cs && |Common(child, first, c)| >= minShared {
      KeptMember(MetricsByD(first, child), cs, minShared, c);
      SharesEnoughIff(child, first, c, minShared);
    }
    if kept != [] { assert kept[0] in kept; }
  }

  lemma BuiltCompares(es: seq<Evidence>, parents: seq<Candidate>, child: Id, first: Metrics, minShared: nat)
    requires Built(es, parents, MetricsByD(first, child), minShared)
    ensures forall k :: 0 <= k < |parents| ==> Compares(es[k], child, first, parents[k])
  {
    forall k | 0 <= k < |parents| ensures Compares(es[k], child, first, parents[k]) {
      EvidenceCompares(es[k], child, first, parents[k], minShared);
    }
  }

  /** Every read sees at least what the earlier ones saw: metrics of a pair may be
      replaced, but never disappear. */
  ghost predicate OnlyGrows(views: seq<Metrics>) {
    forall i, j :: 0 <= i <= j < |views| ==> views[i].Keys <= views[j].Keys
  }

  /** When the second read of a hash comes later in a tracker that only grows, it has
      every shared opponent, so the stage never raises. */
  lemma GrowingIsRefetchable(childByG: map<Id, map<string, real>>, views: seq<Metrics>, i: nat, j: nat, id: Id)
    requires OnlyGrows(views) && i <= j < |views|
    ensures Refetchable(childByG, Candidate(id, views[i], views[j]))
  {
    forall g | g in Shared(childByG, views[i], id) ensures g in MetricsByD(views[j], id) {
      MetricsByDKeys(views[i], id, g);
      MetricsByDKeys(views[j], id, g);
    }
  }

  /** The tracker's own batches only grow the metrics, so reads taken along a run of
      batches never make the stage fail. */
  lemma BatchesOnlyGrow(ts: seq<Indices>, batches: seq<seq<Pair>>, views: seq<Metrics>)
    requires |ts| == |batches| + 1 && forall b :: b in batches ==> AllHaveDelta(b)
    requires forall i :: 0 <= i < |batches| ==> ts[i + 1] == RecordBatch(ts[i], batches[i])
    requires |views| == |ts| && forall i :: 0 <= i < |views| ==> views[i] == ts[i].metrics
    ensures OnlyGrows(views)
  {
    forall i | 0 <= i < |views| ensures forall j :: i <= j < |views| ==> views[i].Keys <= views[j].Keys {
      var j := i;
      while j + 1 < |views|
        invariant i <= j < |views|
        invariant forall k :: i <= k <= j ==> views[i].Keys <= views[k].Keys
      {
        assert batches[j] in batches;
        BatchGrows(ts[j], batches[j]);
        j := j + 1;
      }
    }
  }
}
