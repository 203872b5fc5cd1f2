/** The tracker as the object the stages share (gigaevo/adversarial/dg_tracker.py). */
module DgTrackerStore {
  import opened Prelude
  import opened Order
  import opened DgTracker

  /** The order ZREVRANGE walks a sorted set in: by score, then by member, both
      downwards. */
  predicate Before(m: map<string, real>, a: string, b: string)
    requires a in m && b in m
  {
    m[a] > m[b] || (m[a] == m[b] && LexLess(b, a))
  }

  /** The first k members in that order. */
  ghost predicate IsRevRange(m: map<string, real>, k: nat, r: seq<string>) {
    && (forall x :: x in r ==> x in m)
    && (|r| == k || (|r| < k && forall x :: x in m ==> x in r))
    && (forall i, j :: 0 <= i < j < |r| ==> Before(m, r[i], r[j]))
    && (forall i, x :: 0 <= i < |r| && x in m && x !in r ==> Before(m, r[i], x))
  }

  /** How many of n members lie between ranks 0 and k - 1: a negative last rank counts
      from the end, so k = 0 means all of them. */
  function RangeCount(k: int, n: nat): nat {
    if k >= 1 then k else Max(0, n + k)
  }

  /** The greatest member that is not taken yet. */
  method FirstOf(m: map<string, real>, keys: set<string>) returns (best: string)
    requires keys != {} && keys <= m.Keys
    ensures best in keys && forall x :: x in keys && x != best ==> Before(m, best, x)
  {
    best :| best in keys;
    var todo := keys - {best};
    while todo != {}
      invariant todo <= keys && best in keys && best !in todo
      invariant forall x :: x in keys && x !in todo && x != best ==> Before(m, best, x)
      decreases todo
    {
      var x :| x in todo;
      todo := todo - {x};
      LexTotal(best, x);
      if Before(m, x, best) {
        forall y | y in keys && y !in todo && y != x ensures Before(m, x, y) {
          if y != best && m[x] == m[best] == m[y] { LexTransitive(y, best, x); }
        }
        best := x;
      }
    }
  }

  /** ZREVRANGE key 0 k-1. */
  method RevRange(m: map<string, real>, k: nat) returns (r: seq<string>)
    ensures IsRevRange(m, k, r)
  {
    r := [];
    var rest := m.Keys;
    while |r| < k && rest != {}
      invariant rest <= m.Keys && |r| <= k
      invariant forall x :: x in r ==> x in m && x !in rest
      invariant forall x :: x in m && x !in rest ==> x in r
      invariant forall i, j :: 0 <= i < j < |r| ==> Before(m, r[i], r[j])
      invariant forall i, x :: 0 <= i < |r| && x in rest ==> Before(m, r[i], x)
      decreases rest
    {
      var x := FirstOf(m, rest);
      r, rest := r + [x], rest - {x};
    }
  }

  /** Members split at the first "|", those without one left out. */
  function Triples(m: map<string, real>, r: seq<string>): seq<(Id, Id, real)>
    requires forall x :: x in r ==> x in m
  {
    if r == [] then []
    else
      var front, parts := Triples(m, r[..|r| - 1]), Split(r[|r| - 1]);
      if |parts| == 2 then front + [(parts[0], parts[1], m[r[|r| - 1]])] else front
  }

  /** If every member was made from an improver id without "|", each member listed comes
      back as the pair it was made from, with its score. */
  lemma {:induction false} TriplesAreThePairs(m: map<string, real>, r: seq<string>)
    requires forall x :: x in r ==> x in m && exists d, g :: x == Member(d, g) && '|' !in d
    ensures |Triples(m, r)| == |r|
    ensures forall i :: 0 <= i < |r| ==>
      Member(Triples(m, r)[i].0, Triples(m, r)[i].1) == r[i] && '|' !in Triples(m, r)[i].0
      && Triples(m, r)[i].2 == m[r[i]]
  {
    if r != [] {
      var front := r[..|r| - 1];
      forall x | x in front ensures x in m && exists d, g :: x == Member(d, g) && '|' !in d {
        assert x in r;
      }
      TriplesAreThePairs(m, front);
      assert r[|r| - 1] in r;
      var d, g :| r[|r| - 1] == Member(d, g) && '|' !in d;
      SplitMemberIff(d, g);
    }
  }

  /** d has the greatest score for g, and the greatest id among equals. */
  ghost predicate IsBestD(improvements: map<(Id, Id), real>, g: Id, d: Id, score: real) {
    && (d, g) in improvements && improvements[(d, g)] == score
    && (forall x :: (x, g) in improvements ==> improvements[(x, g)] <= score)
    && (forall x :: (x, g) in improvements && improvements[(x, g)] == score ==> !LexLess(d, x))
  }

  lemma BestDUnique(improvements: map<(Id, Id), real>, g: Id, d: Id, score: real, d': Id, score': real)
    requires IsBestD(improvements, g, d, score) && IsBestD(improvements, g, d', score')
    ensures d == d' && score == score'
  {
    LexTotal(d, d');
  }

  /** Over any sequence of batches the best improver of g is the one with the greatest
      positive delta ever recorded against g. */
  lemma BestDIsArgmaxOfHistory(batches: seq<seq<Pair>>, g: Id, d: Id, score: real)
    requires forall b :: b in batches ==> AllHaveDelta(b)
    requires IsBestD(RecordBatches(batches).improvements, g, d, score)
    ensures AllHaveDelta(Flatten(batches))
    ensures score > 0.0 && IsMaxDelta(score, d, g, Flatten(batches))
    ensures forall p :: p in Flatten(batches) && p.g == g ==> Delta(p) <= score
  {
    ScoresAreMaximaOfRun(batches);
    var t, history := RecordBatches(batches), Flatten(batches);
    assert IsMaxDelta(t.improvements[(d, g)], d, g, history);
    forall p | p in history && p.g == g ensures Delta(p) <= score {
      var i :| 0 <= i < |history| && history[i] == p;
      if Delta(p) > 0.0 {
        assert (p.d, g) in t.improvements && IsMaxDelta(t.improvements[(p.d, g)], p.d, g, history);
      }
    }
  }

  /** The loop over the batch: the per-pair commands it queues, as they will leave the
      indices, the mapping for the global sorted set, and the positive count. */
  method Collect(t: Indices, ps: seq<Pair>) returns (r: Option<(Indices, map<string, real>, nat)>)
    ensures r.None? <==> !AllHaveDelta(ps)
    ensures r.Some? ==>
      r.value.0 == RecordAll(t, ps).(bestPairs := t.bestPairs) && r.value.1 == LastPositive(ps)
      && r.value.2 == PositiveCount(ps)
  {
    var globalMembers: map<string, real> := map[];
    var scores, newWins, newResisted, records := t.improvements, t.wins, t.resisted, t.metrics;
    var count := 0;
    for i := 0 to |ps|
      invariant AllHaveDelta(ps[..i])
      invariant globalMembers == LastPositive(ps[..i]) && count == PositiveCount(ps[..i])
      invariant Indices(scores, t.bestPairs, newWins, newResisted, records)
                == RecordAll(t, ps[..i]).(bestPairs := t.bestPairs)
    {
      var p := ps[i];
      if !HasDelta(p) {
        assert p in ps;
        return None;
      }
      assert ps[..i + 1] == ps[..i] + [p] && ps[..i + 1][..i] == ps[..i];
      records := records[(p.d, p.g) := p.record];
      if Delta(p) > 0.0 {
        count := count + 1;
        scores := ZaddGt(scores, (p.d, p.g), Delta(p));
        globalMembers := globalMembers[Member(p.d, p.g) := Delta(p)];
        newWins := newWins + {(p.d, p.g)};
      } else {
        newResisted := newResisted + {(p.d, p.g)};
      }
    }
    assert ps[..|ps|] == ps;
    return Some((Indices(scores, t.bestPairs, newWins, newResisted, records), globalMembers, count));
  }

  /** The score of this key is the greater of the stored and the new one. */
  ghost predicate Raised<K(!new)>(before: map<K, real>, after: map<K, real>, k: K, v: real) {
    && k in after && after == before[k := after[k]]
    && after[k] == if k in before && before[k] > v then before[k] else v
  }

  class Tracker {
    var improvements: map<(Id, Id), real>
    var bestPairs: map<string, real>
    var wins: set<(Id, Id)>
    var resisted: set<(Id, Id)>
    var metrics: map<(Id, Id), map<string, real>>
    /** Composite members of the pairs composed so far; never expires. */
    var injected: set<string>

    function Contents(): Indices
      reads this
    {
      Indices(improvements, bestPairs, wins, resisted, metrics)
    }

    constructor ()
      ensures Contents() == EMPTY && injected == {}
    {
      improvements, bestPairs, wins, resisted, metrics, injected := map[], map[], {}, {}, map[], {};
    }

    /** Collect the whole batch, then run the pipeline. A record without "delta" raises
        before anything is sent, so nothing is written. */
    method RecordBatch(ps: seq<Pair>) returns (positive: Result<nat>)
      modifies this
      ensures injected == old(injected)
      ensures positive.Err? <==> !AllHaveDelta(ps)
      ensures positive.Err? ==> Contents() == old(Contents())
      ensures positive.Ok? ==> positive.value == PositiveCount(ps)
      ensures positive.Ok? ==> positive.value == |set i | 0 <= i < |ps| && Positive(ps[i])|
      ensures positive.Ok? ==> Contents() == DgTracker.RecordBatch(old(Contents()), ps)
      ensures positive.Ok? ==> forall d, g :: Adds(old(Contents()), ps, Contents(), d, g)
    {
      if AllHaveDelta(ps) {
        PositiveCountIs(ps);
        forall d, g { BatchAdds(Contents(), ps, d, g); }
      }
      var collected := Collect(Contents(), ps);
      if collected.None? { return Err("delta"); }
      var (t, globalMembers, count) := collected.value;
      improvements, wins, resisted, metrics := t.improvements, t.wins, t.resisted, t.metrics;
      bestPairs := ZaddAll(bestPairs, globalMembers);
      return Ok(count);
    }

    /** Only the two sorted sets; zero and negative deltas are dropped. */
    method RecordImprovement(d: Id, g: Id, delta: real)
      modifies this`improvements, this`bestPairs
      ensures Contents() == Improve(old(Contents()), d, g, delta)
      ensures old(Agree(Contents())) ==> (Agree(Contents()) <==> delta <= 0.0 || (d, g) in wins)
      ensures delta <= 0.0 ==> Contents() == old(Contents())
      ensures delta > 0.0 ==>
        && Raised(old(improvements), improvements, (d, g), delta)
        && Raised(old(bestPairs), bestPairs, Member(d, g), delta)
    {
      if Agree(Contents()) { ImprovementKeepsAgreeIff(Contents(), d, g, delta); }
      if delta <= 0.0 { return; }
      improvements := ZaddGt(improvements, (d, g), delta);
      bestPairs := ZaddGt(bestPairs, Member(d, g), delta);
    }

    /** HKEYS of the metrics hash; in an agreeing tracker that is everything d beat
        together with everything that resisted d. */
    method FacedByD(d: Id) returns (gs: set<Id>)
      ensures forall g :: g in gs <==> (d, g) in metrics
      ensures Agree(Contents()) ==> forall g :: g in gs <==> (d, g) in wins || (d, g) in resisted
    {
      gs := set x | x in metrics && x.0 == d :: x.1;
    }

    method CountGBeatenByD(d: Id) returns (n: nat)
      ensures n == |set x | x in wins && x.0 == d :: x.1|
      ensures Agree(Contents()) ==> n == |set x | x in improvements && x.0 == d :: x.1|
    {
      var gs := set x | x in wins && x.0 == d :: x.1;
      n := |gs|;
    }

    method CountDResistedByG(g: Id) returns (n: nat)
      ensures n == |set x | x in resisted && x.1 == g :: x.0|
      ensures Agree(Contents()) ==> n <= |set x | x in metrics && x.1 == g :: x.0|
    {
      var ds := set x | x in resisted && x.1 == g :: x.0;
      n := |ds|;
      if Agree(Contents()) {
        SubsetSize(ds, set x | x in metrics && x.1 == g :: x.0);
      }
    }

    /** The scores of one constructor's sorted set. */
    function ScoresOf(g: Id): map<string, real>
      reads this
    {
      map d | d in (set x | x in improvements && x.1 == g :: x.0) :: improvements[(d, g)]
    }

    /** The improver with the greatest score for g, the greatest id among equals. */
    method GetBestDForG(g: Id) returns (best: Option<(Id, real)>)
      ensures best.None? <==> forall d :: (d, g) !in improvements
      ensures best.Some? ==> IsBestD(improvements, g, best.value.0, best.value.1)
    {
      var scores := ScoresOf(g);
      assert forall d :: (d, g) in improvements <==> d in scores by {
        forall d | (d, g) in improvements ensures d in scores {
          assert (d, g).1 == g;
        }
      }
      var r := RevRange(scores, 1);
      if r == [] { return None; }
      best := Some((r[0], scores[r[0]]));
      forall d | (d, g) in improvements
        ensures improvements[(d, g)] <= best.value.1
        ensures improvements[(d, g)] == best.value.1 ==> !LexLess(r[0], d)
      {
        assert d in scores && scores[d] == improvements[(d, g)];
        LexTotal(d, r[0]);
        if d != r[0] { assert d !in r; }
      }
    }

    /** The k best composite members, split into pairs; all of them for k = 0, and all but
        the last -k for a negative k. */
    method GetBestPairs(k: int) returns (triples: seq<(Id, Id, real)>)
      ensures exists r ::
        && IsRevRange(bestPairs, if k >= 1 then k else Max(0, |bestPairs| + k), r)
        && triples == Triples(bestPairs, r)
        && ((forall m :: m in bestPairs ==> exists d, g :: m == Member(d, g) && '|' !in d) ==> ArePairsOf(triples, r))
    {
      var r := RevRange(bestPairs, RangeCount(k, |bestPairs|));
      triples := [];
      for i := 0 to |r|
        invariant triples == Triples(bestPairs, r[..i])
      {
        assert r[..i + 1][..i] == r[..i];
        var parts := Split(r[i]);
        if |parts| == 2 {
          triples := triples + [(parts[0], parts[1], bestPairs[r[i]])];
        }
      }
      assert r[..|r|] == r;
      if forall m :: m in bestPairs ==> exists d, g :: m == Member(d, g) && '|' !in d {
        TriplesAreThePairs(bestPairs, r);
        assert ArePairsOf(triples, r);
      }
    }

    /** The triples are the pairs these members were made from, with their scores. */
    ghost predicate ArePairsOf(triples: seq<(Id, Id, real)>, r: seq<string>)
      reads this
    {
      |triples| == |r| && forall i :: 0 <= i < |r| ==>
        && r[i] in bestPairs && triples[i].2 == bestPairs[r[i]]
        && r[i] == Member(triples[i].0, triples[i].1) && '|' !in triples[i].0
    }

    predicate IsPairInjected(d: Id, g: Id)
      reads this
    {
      Member(d, g) in injected
    }

    /** The pair counts as injected from now on. No other pair does that did not before,
        exactly if neither id has a "|"; otherwise some pair shares the member. */
    method MarkPairInjected(d: Id, g: Id)
      modifies this`injected
      ensures injected == old(injected) + {Member(d, g)}
      ensures IsPairInjected(d, g)
      ensures forall d', g' :: old(IsPairInjected(d', g')) ==> IsPairInjected(d', g')
      ensures '|' !in d && '|' !in g ==>
        forall d', g' :: IsPairInjected(d', g') ==> old(IsPairInjected(d', g')) || (d', g') == (d, g)
      ensures '|' in d || '|' in g ==> exists d', g' :: (d', g') != (d, g) && IsPairInjected(d', g')
    {
      MarksOnlyThisPairIff(d, g);
      injected := injected + {Member(d, g)};
      if '|' in d || '|' in g {
        ghost var d', g' :| Member(d', g') == Member(d, g) && !(d' == d && g' == g);
        assert IsPairInjected(d', g') && (d', g') != (d, g);
      }
    }
  }
}
