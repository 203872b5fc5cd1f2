/** DGImprovementTracker: five indices of the same facts, written by one batch
    (gigaevo/adversarial/dg_tracker.py). Per-id sets, sorted sets and hashes are kept
    as one collection keyed by the pair; an id without entries has no key, as on the
    server. Expiry is not part of this model. */
module DgTracker {
  import opened Prelude

  /** One evaluation of improver d against constructor g, with its metrics. */
  datatype Pair = Pair(d: Id, g: Id, record: map<string, real>)

  predicate HasDelta(p: Pair) {
    "delta" in p.record
  }

  function Delta(p: Pair): real
    requires HasDelta(p)
  {
    p.record["delta"]
  }

  ghost predicate AllHaveDelta(ps: seq<Pair>) {
    forall p :: p in ps ==> HasDelta(p)
  }

  // ---------------------------------------------------------------- composite members

  function Member(d: Id, g: Id): string {
    d + "|" + g
  }

  /** str.split("|", 1) */
  function Split(member: string): seq<string> {
    if member == "" then [""]
    else if member[0] == '|' then ["", member[1..]]
    else
      var rest := Split(member[1..]);
      [[member[0]] + rest[0]] + rest[1..]
  }

  /** Splitting a composite member gives the pair back exactly when the improver id
      has no "|". */
  lemma {:induction false} SplitMemberIff(d: Id, g: Id)
    ensures |Split(Member(d, g))| == 2
    ensures Split(Member(d, g)) == [d, g] <==> '|' !in d
  {
    var m := Member(d, g);
    if d == "" {
      assert m == "|" + g && m[1..] == g;
    } else {
      assert m[1..] == Member(d[1..], g);
      SplitMemberIff(d[1..], g);
      if d[0] != '|' {
        assert d == [d[0]] + d[1..];
        var rest := Split(m[1..]);
        assert Split(m) == [[d[0]] + rest[0], rest[1]];
        assert ([d[0]] + rest[0] == d) <==> rest[0] == d[1..] by {
          assert ([d[0]] + rest[0])[1..] == rest[0];
        }
      }
    }
  }

  /** Members of ids without "|" stand for one pair only. */
  lemma MemberInjective(d: Id, g: Id, d': Id, g': Id)
    requires '|' !in d && '|' !in d' && Member(d, g) == Member(d', g')
    ensures d == d' && g == g'
  {
    SplitMemberIff(d, g);
    SplitMemberIff(d', g');
    assert [d, g][0] == [d', g'][0] && [d, g][1] == [d', g'][1];
  }

  /** A composite member stands for one pair only exactly when neither id has a "|". */
  lemma MarksOnlyThisPairIff(d: Id, g: Id)
    ensures (forall d', g' :: Member(d', g') == Member(d, g) ==> d' == d && g' == g) <==> '|' !in d && '|' !in g
  {
    var m := Member(d, g);
    if '|' in d {
      var i :| 0 <= i < |d| && d[i] == '|';
      var d', g' := d[..i], d[i + 1..] + "|" + g;
      assert d == d' + "|" + d[i + 1..];
      assert Member(d', g') == m && |d'| < |d|;
    } else if '|' in g {
      var i :| 0 <= i < |g| && g[i] == '|';
      var d', g' := d + "|" + g[..i], g[i + 1..];
      assert g == g[..i] + "|" + g';
      assert Member(d', g') == m && |d| < |d'|;
    } else {
      forall k | 0 <= k < |m| && k != |d| ensures m[k] != '|' {
        assert m[k] == if k < |d| then d[k] else g[k - |d| - 1];
      }
      forall d', g' | Member(d', g') == m ensures d' == d && g' == g {
        assert m[|d'|] == '|';
        assert d' == m[..|d'|] && d == m[..|d|] && g' == m[|d'| + 1..] && g == m[|d| + 1..];
      }
    }
  }

  // ---------------------------------------------------------------- the five indices

  datatype Indices = Indices(
    improvements: map<(Id, Id), real>,
    bestPairs: map<string, real>,
    wins: set<(Id, Id)>,
    resisted: set<(Id, Id)>,
    metrics: map<(Id, Id), map<string, real>>)

  const EMPTY := Indices(map[], map[], {}, {}, map[])

  /** ZADD with GT: insert, or raise the score. */
  function ZaddGt<K>(m: map<K, real>, k: K, v: real): map<K, real> {
    if k in m && m[k] >= v then m else m[k := v]
  }

  /** A batch of one pair. */
  function RecordOne(t: Indices, p: Pair): Indices
    requires HasDelta(p)
  {
    var t' := t.(metrics := t.metrics[(p.d, p.g) := p.record]);
    if Delta(p) > 0.0 then
      t'.(improvements := ZaddGt(t.improvements, (p.d, p.g), Delta(p)),
          bestPairs := ZaddGt(t.bestPairs, Member(p.d, p.g), Delta(p)),
          wins := t.wins + {(p.d, p.g)})
    else t'.(resisted := t.resisted + {(p.d, p.g)})
  }

  /** One pair after another. */
  function RecordAll(t: Indices, ps: seq<Pair>): Indices
    requires AllHaveDelta(ps)
  {
    if ps == [] then t else RecordOne(RecordAll(t, ps[..|ps| - 1]), ps[|ps| - 1])
  }

  /** The positive deltas of the batch by composite member; a later pair overwrites an
      earlier one. */
  function LastPositive(ps: seq<Pair>): map<string, real>
    requires AllHaveDelta(ps)
  {
    if ps == [] then map[]
    else
      var front, p := LastPositive(ps[..|ps| - 1]), ps[|ps| - 1];
      if Delta(p) > 0.0 then front[Member(p.d, p.g) := Delta(p)] else front
  }

  /** The best positive delta of each member in the batch. */
  function MaxPositive(ps: seq<Pair>): map<string, real>
    requires AllHaveDelta(ps)
  {
    if ps == [] then map[]
    else
      var front, p := MaxPositive(ps[..|ps| - 1]), ps[|ps| - 1];
      if Delta(p) > 0.0 then ZaddGt(front, Member(p.d, p.g), Delta(p)) else front
  }

  /** ZADD GT of a whole mapping. */
  function ZaddAll<K(!new)>(m: map<K, real>, add: map<K, real>): map<K, real> {
    map k | k in m.Keys + add.Keys ::
      if k !in add then m[k] else if k in m && m[k] >= add[k] then m[k] else add[k]
  }

  /** What record_batch leaves: the per-pair commands one after another, but one ZADD
      GT of the collected mapping for the global sorted set. */
  function RecordBatch(t: Indices, ps: seq<Pair>): Indices
    requires AllHaveDelta(ps)
  {
    RecordAll(t, ps).(bestPairs := ZaddAll(t.bestPairs, LastPositive(ps)))
  }

  function PositiveCount(ps: seq<Pair>): nat
    requires AllHaveDelta(ps)
  {
    if ps == [] then 0 else PositiveCount(ps[..|ps| - 1]) + if Delta(ps[|ps| - 1]) > 0.0 then 1 else 0
  }

  // ---------------------------------------------------------------- batch and fold

  lemma {:induction false} PositiveKeys(ps: seq<Pair>)
    requires AllHaveDelta(ps)
    ensures LastPositive(ps).Keys == MaxPositive(ps).Keys
    ensures forall m :: m in LastPositive(ps) ==> 0.0 < LastPositive(ps)[m] <= MaxPositive(ps)[m]
  {
    if ps != [] { PositiveKeys(ps[..|ps| - 1]); }
  }

  lemma {:induction false} FoldTakesMax(t: Indices, ps: seq<Pair>)
    requires AllHaveDelta(ps)
    ensures RecordAll(t, ps).bestPairs == ZaddAll(t.bestPairs, MaxPositive(ps))
  {
    if ps == [] {
      assert ZaddAll(t.bestPairs, map[]) == t.bestPairs;
    } else {
      FoldTakesMax(t, ps[..|ps| - 1]);
      var p, front := ps[|ps| - 1], MaxPositive(ps[..|ps| - 1]);
      if Delta(p) > 0.0 {
        ZaddAllStep(t.bestPairs, front, Member(p.d, p.g), Delta(p));
      }
    }
  }

  lemma ZaddAllStep(m: map<string, real>, add: map<string, real>, k: string, v: real)
    ensures ZaddGt(ZaddAll(m, add), k, v) == ZaddAll(m, ZaddGt(add, k, v))
  {
    var one, two := ZaddGt(ZaddAll(m, add), k, v), ZaddAll(m, ZaddGt(add, k, v));
    assert one.Keys == two.Keys;
    forall x | x in one ensures one[x] == two[x] {
    }
  }

  /** One batch is the same as its pairs one after another, except for the global
      scores, and for those too exactly when no member's best delta of the batch is
      lost: it is the member's last positive one, or no better than the stored score. */
  lemma BatchIsFoldIff(t: Indices, ps: seq<Pair>)
    requires AllHaveDelta(ps)
    ensures RecordBatch(t, ps).(bestPairs := RecordAll(t, ps).bestPairs) == RecordAll(t, ps)
    ensures RecordBatch(t, ps) == RecordAll(t, ps)
      <==> forall m :: m in MaxPositive(ps) && m in LastPositive(ps) ==>
             MaxPositive(ps)[m] == LastPositive(ps)[m] || (m in t.bestPairs && MaxPositive(ps)[m] <= t.bestPairs[m])
  {
    PositiveKeys(ps);
    FoldTakesMax(t, ps);
    var last, best := LastPositive(ps), MaxPositive(ps);
    var batch, fold := ZaddAll(t.bestPairs, last), ZaddAll(t.bestPairs, best);
    if forall m :: m in best && m in last ==> best[m] == last[m] || (m in t.bestPairs && best[m] <= t.bestPairs[m]) {
      assert batch == fold;
    } else {
      var m :| m in best && best[m] != last[m] && !(m in t.bestPairs && best[m] <= t.bestPairs[m]);
      assert batch[m] != fold[m];
    }
  }

  ghost predicate NoRepeatedMember(ps: seq<Pair>) {
    forall i, j :: 0 <= i < j < |ps| ==> Member(ps[i].d, ps[i].g) != Member(ps[j].d, ps[j].g)
  }

  /** Without a repeated pair the last delta of a member is its best one. */
  lemma {:induction false} UniqueMembersLoseNothing(ps: seq<Pair>)
    requires AllHaveDelta(ps) && NoRepeatedMember(ps)
    ensures LastPositive(ps) == MaxPositive(ps)
    ensures forall m :: m in LastPositive(ps) ==> exists i :: 0 <= i < |ps| && Member(ps[i].d, ps[i].g) == m
  {
    if ps != [] {
      var front := ps[..|ps| - 1];
      UniqueMembersLoseNothing(front);
      forall m | m in LastPositive(ps) ensures exists i :: 0 <= i < |ps| && Member(ps[i].d, ps[i].g) == m {
        if m in LastPositive(front) {
          var i :| 0 <= i < |front| && Member(front[i].d, front[i].g) == m;
          assert ps[i] == front[i];
        } else {
          assert Member(ps[|ps| - 1].d, ps[|ps| - 1].g) == m;
        }
      }
      forall i | 0 <= i < |front|
        ensures Member(front[i].d, front[i].g) != Member(ps[|ps| - 1].d, ps[|ps| - 1].g)
      {
        assert ps[i] == front[i];
      }
    }
  }

  // ---------------------------------------------------------------- agreement over runs

  /** A run of record_batch calls from the empty tracker. */
  function RecordBatches(batches: seq<seq<Pair>>): Indices
    requires forall b :: b in batches ==> AllHaveDelta(b)
  {
    if batches == [] then EMPTY else RecordBatch(RecordBatches(batches[..|batches| - 1]), batches[|batches| - 1])
  }

  ghost predicate Agree(t: Indices) {
    && t.metrics.Keys == t.wins + t.resisted
    && t.improvements.Keys == t.wins
    && t.bestPairs.Keys == (set x | x in t.wins :: Member(x.0, x.1))
    && (forall x :: x in t.improvements ==> t.improvements[x] > 0.0)
  }

  lemma AgreeOne(t: Indices, p: Pair)
    requires Agree(t) && HasDelta(p)
    ensures Agree(RecordOne(t, p))
  {
  }

  lemma {:induction false} AgreeAll(t: Indices, ps: seq<Pair>)
    requires Agree(t) && AllHaveDelta(ps)
    ensures Agree(RecordAll(t, ps))
  {
    if ps != [] {
      AgreeAll(t, ps[..|ps| - 1]);
      AgreeOne(RecordAll(t, ps[..|ps| - 1]), ps[|ps| - 1]);
    }
  }

  lemma AgreeBatch(t: Indices, ps: seq<Pair>)
    requires Agree(t) && AllHaveDelta(ps)
    ensures Agree(RecordBatch(t, ps))
  {
    AgreeAll(t, ps);
    PositiveKeys(ps);
    FoldTakesMax(t, ps);
    assert ZaddAll(t.bestPairs, LastPositive(ps)).Keys == ZaddAll(t.bestPairs, MaxPositive(ps)).Keys;
  }

  lemma {:induction false} RunsAgree(batches: seq<seq<Pair>>)
    requires forall b :: b in batches ==> AllHaveDelta(b)
    ensures Agree(RecordBatches(batches))
  {
    if batches != [] {
      RunsAgree(batches[..|batches| - 1]);
      AgreeBatch(RecordBatches(batches[..|batches| - 1]), batches[|batches| - 1]);
    }
  }

  // ---------------------------------------------------------------- what is recorded

  /** Some pair (d, g) of the list has a positive delta; one has a delta of at most 0; one
      is listed at all; and this is the record of the last one listed. */
  ghost predicate Beat(ps: seq<Pair>, d: Id, g: Id)
    requires AllHaveDelta(ps)
  {
    exists p :: p in ps && p.d == d && p.g == g && p.record["delta"] > 0.0
  }

  ghost predicate Withstood(ps: seq<Pair>, d: Id, g: Id)
    requires AllHaveDelta(ps)
  {
    exists p :: p in ps && p.d == d && p.g == g && p.record["delta"] <= 0.0
  }

  ghost predicate Met(ps: seq<Pair>, d: Id, g: Id) {
    exists p :: p in ps && p.d == d && p.g == g
  }

  ghost predicate LastRecord(ps: seq<Pair>, d: Id, g: Id, record: map<string, real>) {
    exists i :: 0 <= i < |ps| && ps[i] == Pair(d, g, record)
                && forall j :: i < j < |ps| ==> !(ps[j].d == d && ps[j].g == g)
  }

  /** Recording these pairs adds a win of d over g exactly for a positive delta, an entry
      that g resisted d exactly for another one, and leaves the last record. */
  ghost predicate Adds(t: Indices, ps: seq<Pair>, t': Indices, d: Id, g: Id)
    requires AllHaveDelta(ps)
  {
    && ((d, g) in t'.wins <==> (d, g) in t.wins || Beat(ps, d, g))
    && ((d, g) in t'.resisted <==> (d, g) in t.resisted || Withstood(ps, d, g))
    && ((d, g) in t'.metrics <==> (d, g) in t.metrics || Met(ps, d, g))
    && (Met(ps, d, g) ==> LastRecord(ps, d, g, t'.metrics[(d, g)]))
    && (!Met(ps, d, g) && (d, g) in t.metrics ==> t'.metrics[(d, g)] == t.metrics[(d, g)])
  }

  lemma OneMorePair(ps: seq<Pair>, p: Pair, d: Id, g: Id)
    requires AllHaveDelta(ps) && HasDelta(p)
    ensures AllHaveDelta(ps + [p])
    ensures Beat(ps + [p], d, g) <==> Beat(ps, d, g) || (p.d == d && p.g == g && p.record["delta"] > 0.0)
    ensures Withstood(ps + [p], d, g) <==> Withstood(ps, d, g) || (p.d == d && p.g == g && p.record["delta"] <= 0.0)
    ensures Met(ps + [p], d, g) <==> Met(ps, d, g) || (p.d == d && p.g == g)
  {
    assert p in ps + [p];
    assert forall x :: x in ps ==> x in ps + [p];
  }

  lemma LastRecordStep(ps: seq<Pair>, p: Pair, d: Id, g: Id, record: map<string, real>)
    ensures p.d == d && p.g == g ==> LastRecord(ps + [p], d, g, p.record)
    ensures !(p.d == d && p.g == g) && LastRecord(ps, d, g, record) ==> LastRecord(ps + [p], d, g, record)
  {
    var all := ps + [p];
    assert all[|ps|] == p;
    if !(p.d == d && p.g == g) && LastRecord(ps, d, g, record) {
      var i :| 0 <= i < |ps| && ps[i] == Pair(d, g, record)
               && forall j :: i < j < |ps| ==> !(ps[j].d == d && ps[j].g == g);
      assert all[i] == Pair(d, g, record);
      forall j | i < j < |all| ensures !(all[j].d == d && all[j].g == g) {
        if j < |ps| { assert all[j] == ps[j]; }
      }
    }
  }

  lemma AddsOne(t: Indices, ps: seq<Pair>, mid: Indices, p: Pair, d: Id, g: Id)
    requires AllHaveDelta(ps) && HasDelta(p) && Adds(t, ps, mid, d, g)
    ensures AllHaveDelta(ps + [p]) && Adds(t, ps + [p], RecordOne(mid, p), d, g)
  {
    OneMorePair(ps, p, d, g);
    if Met(ps + [p], d, g) && !(p.d == d && p.g == g) {
      LastRecordStep(ps, p, d, g, mid.metrics[(d, g)]);
    } else {
      LastRecordStep(ps, p, d, g, p.record);
    }
  }

  /** One batch, from any state of the indices. */
  lemma {:induction false} BatchAdds(t: Indices, ps: seq<Pair>, d: Id, g: Id)
    requires AllHaveDelta(ps)
    ensures Adds(t, ps, RecordBatch(t, ps), d, g)
  {
    if ps != [] {
      var front, p := ps[..|ps| - 1], ps[|ps| - 1];
      BatchAdds(t, front, d, g);
      assert Adds(t, front, RecordAll(t, front), d, g);
      AddsOne(t, front, RecordAll(t, front), p, d, g);
      assert front + [p] == ps;
    }
  }

  lemma AddsMore(t: Indices, ps: seq<Pair>, mid: Indices, qs: seq<Pair>, t': Indices, d: Id, g: Id)
    requires AllHaveDelta(ps) && AllHaveDelta(qs) && Adds(t, ps, mid, d, g) && Adds(mid, qs, t', d, g)
    ensures AllHaveDelta(ps + qs) && Adds(t, ps + qs, t', d, g)
  {
    var all := ps + qs;
    assert forall x :: x in all <==> x in ps || x in qs;
    if Met(all, d, g) {
      var record := t'.metrics[(d, g)];
      if Met(qs, d, g) {
        var i :| 0 <= i < |qs| && qs[i] == Pair(d, g, record)
                 && forall j :: i < j < |qs| ==> !(qs[j].d == d && qs[j].g == g);
        assert all[|ps| + i] == Pair(d, g, record);
        assert LastRecord(all, d, g, record);
      } else {
        var i :| 0 <= i < |ps| && ps[i] == Pair(d, g, record)
                 && forall j :: i < j < |ps| ==> !(ps[j].d == d && ps[j].g == g);
        assert all[i] == Pair(d, g, record);
        forall j | i < j < |all| ensures !(all[j].d == d && all[j].g == g) {
          if j < |ps| { assert all[j] == ps[j]; } else { assert all[j] in qs; }
        }
        assert LastRecord(all, d, g, record);
      }
    }
  }

  /** Over any sequence of batches: d beat g exactly if some pair (d, g) ever recorded has a
      positive delta, g resisted d exactly if some has not, and the record kept for the pair
      is the last one recorded. */
  lemma {:induction false} IndicesTellHistory(batches: seq<seq<Pair>>, d: Id, g: Id)
    requires forall b :: b in batches ==> AllHaveDelta(b)
    ensures AllHaveDelta(Flatten(batches)) && Adds(EMPTY, Flatten(batches), RecordBatches(batches), d, g)
  {
    if batches != [] {
      var front, last := batches[..|batches| - 1], batches[|batches| - 1];
      IndicesTellHistory(front, d, g);
      BatchAdds(RecordBatches(front), last, d, g);
      AddsMore(EMPTY, Flatten(front), RecordBatches(front), last, RecordBatches(batches), d, g);
    }
  }

  // ---------------------------------------------------------------- global scores

  predicate Positive(p: Pair) {
    "delta" in p.record && p.record["delta"] > 0.0
  }

  /** The last positive delta of this member in the batch. */
  ghost predicate LastDelta(ps: seq<Pair>, m: string, score: real) {
    exists i :: 0 <= i < |ps| && Positive(ps[i]) && Member(ps[i].d, ps[i].g) == m && ps[i].record["delta"] == score
                && forall j :: i < j < |ps| && Positive(ps[j]) ==> Member(ps[j].d, ps[j].g) != m
  }

  lemma LastDeltaStep(front: seq<Pair>, p: Pair, m: string, score: real)
    ensures LastDelta(front + [p], m, score) <==>
      if Positive(p) && Member(p.d, p.g) == m then score == p.record["delta"] else LastDelta(front, m, score)
  {
    var all := front + [p];
    assert all[|front|] == p;
    assert forall i :: 0 <= i < |front| ==> all[i] == front[i];
    if LastDelta(front, m, score) && !(Positive(p) && Member(p.d, p.g) == m) {
      var i :| 0 <= i < |front| && Positive(front[i]) && Member(front[i].d, front[i].g) == m
               && front[i].record["delta"] == score
               && forall j :: i < j < |front| && Positive(front[j]) ==> Member(front[j].d, front[j].g) != m;
      assert all[i] == front[i];
    }
  }

  lemma {:induction false} LastPositiveIs(ps: seq<Pair>, m: string, score: real)
    requires AllHaveDelta(ps)
    ensures m in LastPositive(ps) && LastPositive(ps)[m] == score <==> LastDelta(ps, m, score)
  {
    if ps != [] {
      var front, p := ps[..|ps| - 1], ps[|ps| - 1];
      LastPositiveIs(front, m, score);
      LastDeltaStep(front, p, m, score);
      assert ps == front + [p] && p in ps && HasDelta(p);
      assert Positive(p) <==> Delta(p) > 0.0;
    }
  }

  /** The greatest of the last positive deltas of the batches. */
  ghost predicate IsGlobalScore(batches: seq<seq<Pair>>, m: string, score: real) {
    && (exists b :: b in batches && LastDelta(b, m, score))
    && (forall b, x :: b in batches && LastDelta(b, m, x) ==> x <= score)
  }

  /** Over any sequence of batches the global score of a member is the greatest of the last
      positive deltas its batches had for it, and a member without any is not ranked. */
  lemma {:induction false} GlobalScoresOfRun(batches: seq<seq<Pair>>, m: string)
    requires forall b :: b in batches ==> AllHaveDelta(b)
    ensures m in RecordBatches(batches).bestPairs ==> IsGlobalScore(batches, m, RecordBatches(batches).bestPairs[m])
    ensures m !in RecordBatches(batches).bestPairs ==> forall b, x :: b in batches ==> !LastDelta(b, m, x)
  {
    if batches != [] {
      var front, last := batches[..|batches| - 1], batches[|batches| - 1];
      GlobalScoresOfRun(front, m);
      assert batches == front + [last] && last in batches;
      assert forall b :: b in front ==> b in batches;
      forall x ensures m in LastPositive(last) && LastPositive(last)[m] == x <==> LastDelta(last, m, x) {
        LastPositiveIs(last, m, x);
      }
      var before, after := RecordBatches(front).bestPairs, RecordBatches(batches).bestPairs;
      assert after == ZaddAll(before, LastPositive(last));
      if m in after {
        if m in LastPositive(last) && after[m] == LastPositive(last)[m] {
          assert LastDelta(last, m, after[m]);
        } else {
          assert after[m] == before[m];
          var b :| b in front && LastDelta(b, m, before[m]);
          assert b in batches;
        }
        assert exists b :: b in batches && LastDelta(b, m, after[m]);
      }
    }
  }

  lemma {:induction false} PositiveCountIs(ps: seq<Pair>)
    requires AllHaveDelta(ps)
    ensures PositiveCount(ps) == |set i | 0 <= i < |ps| && Positive(ps[i])|
  {
    if ps != [] {
      var front, p := ps[..|ps| - 1], ps[|ps| - 1];
      PositiveCountIs(front);
      var before := set i | 0 <= i < |front| && Positive(front[i]);
      var after := set i | 0 <= i < |ps| && Positive(ps[i]);
      assert p in ps && HasDelta(p) && (Positive(p) <==> Delta(p) > 0.0);
      assert |front| !in before;
      if Positive(p) {
        assert after == before + {|front|};
      } else {
        assert after == before;
      }
    }
  }

  ghost predicate NoBars(t: Indices) {
    forall x :: x in t.wins ==> '|' !in x.0
  }

  /** After any sequence of batches the five indices tell the same story: d faced g iff
      d beat g or g resisted d; d beat g iff d has a score for g iff the composite
      member has a global score. */
  lemma FiveIndicesAgree(batches: seq<seq<Pair>>, d: Id, g: Id)
    requires forall b :: b in batches ==> AllHaveDelta(b)
    ensures var t := RecordBatches(batches);
      && ((d, g) in t.metrics <==> (d, g) in t.wins || (d, g) in t.resisted)
      && ((d, g) in t.wins <==> (d, g) in t.improvements)
      && ('|' !in d && NoBars(t) ==> ((d, g) in t.wins <==> Member(d, g) in t.bestPairs))
  {
    RunsAgree(batches);
    var t := RecordBatches(batches);
    if '|' !in d && NoBars(t) && Member(d, g) in t.bestPairs {
      var x :| x in t.wins && Member(x.0, x.1) == Member(d, g);
      MemberInjective(x.0, x.1, d, g);
      assert x == (d, g);
    }
  }

  /** What record_improvement leaves: the two scores, and nothing in the other indices. */
  function Improve(t: Indices, d: Id, g: Id, delta: real): Indices {
    if delta <= 0.0 then t
    else t.(improvements := ZaddGt(t.improvements, (d, g), delta),
           bestPairs := ZaddGt(t.bestPairs, Member(d, g), delta))
  }

  /** It keeps the indices agreeing exactly when it drops the delta or the win of the pair
      is on record already. */
  lemma ImprovementKeepsAgreeIff(t: Indices, d: Id, g: Id, delta: real)
    requires Agree(t)
    ensures Agree(Improve(t, d, g, delta)) <==> delta <= 0.0 || (d, g) in t.wins
  {
    var t' := Improve(t, d, g, delta);
    if delta > 0.0 {
      assert (d, g) in t'.improvements;
      if (d, g) in t.wins {
        assert Member(d, g) in t.bestPairs;
        assert t'.improvements.Keys == t.improvements.Keys && t'.bestPairs.Keys == t.bestPairs.Keys;
      }
    }
  }

  // ---------------------------------------------------------------- membership and scores over runs

  /** Nothing that was ever recorded disappears, and scores never fall. */
  ghost predicate Grows(t: Indices, t': Indices) {
    && t.wins <= t'.wins && t.resisted <= t'.resisted && t.metrics.Keys <= t'.metrics.Keys
    && (forall x :: x in t.improvements ==> x in t'.improvements && t.improvements[x] <= t'.improvements[x])
    && (forall m :: m in t.bestPairs ==> m in t'.bestPairs && t.bestPairs[m] <= t'.bestPairs[m])
  }

  lemma {:induction false} AllGrows(t: Indices, ps: seq<Pair>)
    requires AllHaveDelta(ps)
    ensures Grows(t, RecordAll(t, ps))
  {
    if ps != [] { AllGrows(t, ps[..|ps| - 1]); }
  }

  lemma BatchGrows(t: Indices, ps: seq<Pair>)
    requires AllHaveDelta(ps)
    ensures Grows(t, RecordBatch(t, ps))
  {
    AllGrows(t, ps);
  }

  /** The score of (d, g) is the greatest positive delta in this history. */
  ghost predicate IsMaxDelta(score: real, d: Id, g: Id, history: seq<Pair>)
    requires AllHaveDelta(history)
  {
    && (exists i :: 0 <= i < |history| && history[i].d == d && history[i].g == g && Delta(history[i]) == score)
    && (forall i :: 0 <= i < |history| && history[i].d == d && history[i].g == g ==> Delta(history[i]) <= score)
  }

  function Flatten(batches: seq<seq<Pair>>): seq<Pair> {
    if batches == [] then [] else Flatten(batches[..|batches| - 1]) + batches[|batches| - 1]
  }

  /** The improvement scores are exactly the maxima of a history. */
  ghost predicate ScoresAreMaxima(t: Indices, history: seq<Pair>)
    requires AllHaveDelta(history)
  {
    && (forall x :: x in t.improvements ==> t.improvements[x] > 0.0 && IsMaxDelta(t.improvements[x], x.0, x.1, history))
    && (forall i :: 0 <= i < |history| && Delta(history[i]) > 0.0 ==> (history[i].d, history[i].g) in t.improvements)
  }

  lemma MaximaOne(t: Indices, history: seq<Pair>, p: Pair)
    requires AllHaveDelta(history) && HasDelta(p) && ScoresAreMaxima(t, history)
    ensures AllHaveDelta(history + [p]) && ScoresAreMaxima(RecordOne(t, p), history + [p])
  {
    var h', t' := history + [p], RecordOne(t, p);
    forall x | x in t'.improvements ensures IsMaxDelta(t'.improvements[x], x.0, x.1, h') {
      if x in t.improvements && t'.improvements[x] == t.improvements[x] {
        var i :| 0 <= i < |history| && history[i].d == x.0 && history[i].g == x.1
               && Delta(history[i]) == t.improvements[x];
        assert h'[i] == history[i];
      } else {
        assert h'[|history|] == p;
      }
    }
  }

  lemma {:induction false} MaximaAll(t: Indices, history: seq<Pair>, ps: seq<Pair>)
    requires AllHaveDelta(history) && AllHaveDelta(ps) && ScoresAreMaxima(t, history)
    ensures AllHaveDelta(history + ps) && ScoresAreMaxima(RecordAll(t, ps), history + ps)
  {
    if ps == [] {
      assert history + ps == history;
    } else {
      var front, p := ps[..|ps| - 1], ps[|ps| - 1];
      var h, mid := history + front, RecordAll(t, front);
      MaximaAll(t, history, front);
      MaximaOne(mid, h, p);
      assert history + ps == h + [p];
      assert RecordAll(t, ps) == RecordOne(mid, p);
    }
  }

  /** Each improvement score is the greatest positive delta ever recorded for its pair,
      over any sequence of batches, repeated pairs included. */
  lemma {:induction false} ScoresAreMaximaOfRun(batches: seq<seq<Pair>>)
    requires forall b :: b in batches ==> AllHaveDelta(b)
    ensures AllHaveDelta(Flatten(batches)) && ScoresAreMaxima(RecordBatches(batches), Flatten(batches))
  {
    if batches != [] {
      var front, last := batches[..|batches| - 1], batches[|batches| - 1];
      ScoresAreMaximaOfRun(front);
      MaximaAll(RecordBatches(front), Flatten(front), last);
    }
  }
}
