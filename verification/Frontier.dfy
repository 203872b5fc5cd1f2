/** The per-iteration statistics behind the evolution plot: a two-pointer scan over
    iterations and frontier points (gigaevo/cli/plot.py). */
module Frontier {
  import opened Prelude

  /** A field of a history entry: not there, there but no number, or a number. */
  datatype Field<T> = Absent | Unparsable | Parsed(value: T)

  datatype Entry = Entry(s: Field<int>, v: Field<real>)

  datatype Point = Point(step: int, value: real)

  predicate Usable(e: Entry) {
    e.s.Parsed? && e.v.Parsed?
  }

  /** The entry makes room for its iteration, even if its value is then no number. */
  predicate Names(e: Entry) {
    e.s.Parsed? && !e.v.Absent?
  }

  function Points(entries: seq<Entry>): seq<Point> {
    if entries == [] then []
    else
      var e := entries[|entries| - 1];
      Points(entries[..|entries| - 1]) + if Usable(e) then [Point(e.s.value, e.v.value)] else []
  }

  /** A point stands for an entry in which step and value are numbers. */
  lemma {:induction false} PointMembers(entries: seq<Entry>, p: Point)
    ensures p in Points(entries) <==> Entry(Parsed(p.step), Parsed(p.value)) in entries
  {
    if entries != [] {
      var front, e := entries[..|entries| - 1], entries[|entries| - 1];
      PointMembers(front, p);
      assert entries == front + [e];
    }
  }

  predicate Better(a: real, b: real, higher: bool) {
    if higher then a > b else a < b
  }

  /** The naive definition: the optimum over all frontier points up to `step`. */
  ghost predicate OptimumAt(v: real, points: seq<Point>, step: int, higher: bool) {
    && (exists p :: p in points && p.step <= step && p.value == v)
    && forall p :: p in points && p.step <= step ==> if higher then p.value <= v else p.value >= v
  }

  ghost predicate Started(points: seq<Point>, step: int) {
    exists p :: p in points && p.step <= step
  }

  lemma OptimumUnique(a: real, b: real, points: seq<Point>, step: int, higher: bool)
    requires OptimumAt(a, points, step, higher) && OptimumAt(b, points, step, higher)
    ensures a == b
  {
  }

  /** The optimum never gets worse. */
  lemma OptimumMonotone(a: real, b: real, points: seq<Point>, early: int, late: int, higher: bool)
    requires OptimumAt(a, points, early, higher) && OptimumAt(b, points, late, higher) && early <= late
    ensures if higher then a <= b else a >= b
  {
    var p :| p in points && p.step <= early && p.value == a;
    assert p in points && p.step <= late;
  }

  /** The value of the last entry of an iteration. */
  ghost predicate LastValue(v: real, entries: seq<Entry>, iteration: int) {
    exists i :: 0 <= i < |entries| && entries[i] == Entry(Parsed(iteration), Parsed(v))
                && forall j :: i < j < |entries| && entries[j].s == Parsed(iteration) ==> !entries[j].v.Parsed?
  }

  ghost predicate Recorded(entries: seq<Entry>, iteration: int) {
    exists e :: e in entries && e.s == Parsed(iteration) && e.v.Parsed?
  }

  ghost predicate Named(entries: seq<Entry>, iteration: int) {
    exists e :: e in entries && e.s == Parsed(iteration) && !e.v.Absent?
  }

  /** Some iteration has a value that is no number, and no value that is one. */
  ghost predicate OnlyUnparsable(entries: seq<Entry>) {
    exists g :: Named(entries, g) && !Recorded(entries, g)
  }

  // ----- Sorting -----

  ghost predicate ByStep(s: seq<Point>) {
    forall i, j :: 0 <= i < j < |s| ==> s[i].step <= s[j].step
  }

  function InsertPoint(p: Point, s: seq<Point>): seq<Point> {
    if s == [] || p.step < s[|s| - 1].step then
      (if s == [] then [p] else InsertPoint(p, s[..|s| - 1]) + [s[|s| - 1]])
    else s + [p]
  }

  function SortPoints(s: seq<Point>): seq<Point> {
    if s == [] then [] else InsertPoint(s[|s| - 1], SortPoints(s[..|s| - 1]))
  }

  lemma {:induction false} InsertPointSorts(p: Point, s: seq<Point>)
    requires ByStep(s)
    ensures ByStep(InsertPoint(p, s))
    ensures forall x :: x in InsertPoint(p, s) <==> x == p || x in s
  {
    if s != [] && p.step < s[|s| - 1].step {
      var front, last := s[..|s| - 1], s[|s| - 1];
      InsertPointSorts(p, front);
      assert s == front + [last];
      var rest := InsertPoint(p, front);
      forall i | 0 <= i < |rest| ensures rest[i].step <= last.step {
        assert rest[i] in rest;
      }
    }
  }

  lemma {:induction false} SortPointsSorts(s: seq<Point>)
    ensures ByStep(SortPoints(s)) && forall x :: x in SortPoints(s) <==> x in s
  {
    if s != [] {
      SortPointsSorts(s[..|s| - 1]);
      InsertPointSorts(s[|s| - 1], SortPoints(s[..|s| - 1]));
      assert s == s[..|s| - 1] + [s[|s| - 1]];
    }
  }

  ghost predicate Increasing(s: seq<int>) {
    forall i, j :: 0 <= i < j < |s| ==> s[i] < s[j]
  }

  function InsertInt(x: int, s: seq<int>): seq<int> {
    if s == [] || s[|s| - 1] < x then s + [x] else InsertInt(x, s[..|s| - 1]) + [s[|s| - 1]]
  }

  lemma {:induction false} InsertIntSorts(x: int, s: seq<int>)
    requires Increasing(s) && x !in s
    ensures Increasing(InsertInt(x, s)) && forall y :: y in InsertInt(x, s) <==> y == x || y in s
  {
    if s != [] && s[|s| - 1] >= x {
      var front, last := s[..|s| - 1], s[|s| - 1];
      InsertIntSorts(x, front);
      assert s == front + [last] && last in s;
      var rest := InsertInt(x, front);
      forall i | 0 <= i < |rest| ensures rest[i] < last {
        assert rest[i] in rest;
      }
    }
  }

  method SortedKeys(keys: set<int>) returns (sorted: seq<int>)
    ensures Increasing(sorted) && forall x :: x in sorted <==> x in keys
  {
    sorted := [];
    var todo := keys;
    while todo != {}
      invariant todo <= keys && Increasing(sorted)
      invariant forall x :: x in sorted <==> x in keys && x !in todo
      decreases todo
    {
      ghost var some := SomeElement(todo);
      assert some in todo;
      var x :| x in todo;
      InsertIntSorts(x, sorted);
      sorted, todo := InsertInt(x, sorted), todo - {x};
    }
  }

  // ----- Collecting the iterations -----

  function ValuesAt(values: map<int, seq<real>>, g: int): seq<real> {
    if g in values then values[g] else []
  }

  function AddValue(values: map<int, seq<real>>, e: Entry): map<int, seq<real>> {
    if !Names(e) then values
    else values[e.s.value := ValuesAt(values, e.s.value) + if e.v.Parsed? then [e.v.value] else []]
  }

  /** The values of each iteration, in the order they were recorded. */
  function ValuesOf(entries: seq<Entry>): map<int, seq<real>> {
    if entries == [] then map[] else AddValue(ValuesOf(entries[..|entries| - 1]), entries[|entries| - 1])
  }

  lemma OneMoreEntry(front: seq<Entry>, e: Entry, g: int)
    ensures Named(front + [e], g) <==> Named(front, g) || (Names(e) && e.s.value == g)
    ensures Recorded(front + [e], g) <==> Recorded(front, g) || (Usable(e) && e.s.value == g)
  {
    assert e in front + [e];
    assert forall x :: x in front ==> x in front + [e];
  }

  /** The iteration has a list of values if it is named; the list is empty exactly if
      none of its values is a number, and else ends in the last recorded one. */
  ghost predicate Lists(values: map<int, seq<real>>, entries: seq<Entry>, g: int) {
    && (g in values <==> Named(entries, g))
    && (ValuesAt(values, g) != [] <==> Recorded(entries, g))
    && (ValuesAt(values, g) != [] ==> LastValue(ValuesAt(values, g)[|ValuesAt(values, g)| - 1], entries, g))
  }

  lemma ListsStep(values: map<int, seq<real>>, front: seq<Entry>, e: Entry, g: int)
    requires Lists(values, front, g)
    ensures Lists(AddValue(values, e), front + [e], g)
  {
    OneMoreEntry(front, e, g);
    var vs, vs' := ValuesAt(values, g), ValuesAt(AddValue(values, e), g);
    if Usable(e) && e.s.value == g {
      assert vs' == vs + [e.v.value];
      assert (front + [e])[|front|] == Entry(Parsed(g), Parsed(e.v.value));
    } else {
      assert vs' == vs;
      if vs != [] { LastValueKept(front, e, vs[|vs| - 1], g); }
    }
  }

  lemma {:induction false} ValuesAreRecorded(entries: seq<Entry>, g: int)
    ensures Lists(ValuesOf(entries), entries, g)
  {
    if entries != [] {
      var front, e := entries[..|entries| - 1], entries[|entries| - 1];
      assert entries == front + [e];
      ValuesAreRecorded(front, g);
      ListsStep(ValuesOf(front), front, e, g);
    }
  }

  lemma LastValueKept(front: seq<Entry>, e: Entry, v: real, g: int)
    requires LastValue(v, front, g) && !(Usable(e) && e.s.value == g)
    ensures LastValue(v, front + [e], g)
  {
    var all := front + [e];
    var i :| 0 <= i < |front| && front[i] == Entry(Parsed(g), Parsed(v))
             && forall j :: i < j < |front| && front[j].s == Parsed(g) ==> !front[j].v.Parsed?;
    assert all[i] == Entry(Parsed(g), Parsed(v));
    forall j | i < j < |all| && all[j].s == Parsed(g) ensures !all[j].v.Parsed? {
      if j < |front| { assert all[j] == front[j]; }
    }
  }

  method CollectValues(entries: seq<Entry>) returns (values: map<int, seq<real>>)
    ensures values == ValuesOf(entries)
  {
    values := map[];
    for n := 0 to |entries|
      invariant values == ValuesOf(entries[..n])
    {
      assert entries[..n + 1][..n] == entries[..n];
      var e := entries[n];
      if e.s.Absent? || e.v.Absent? { continue; }
      if e.s.Unparsable? { continue; }
      ghost var before := values;
      var g := e.s.value;
      if g !in values {
        values := values[g := []];
      }
      ghost var parsed := if e.v.Parsed? then [e.v.value] else [];
      if e.v.Parsed? {
        values := values[g := values[g] + [e.v.value]];
      }
      assert ValuesAt(before, g) + [] == ValuesAt(before, g);
      assert values == before[g := ValuesAt(before, g) + parsed];
    }
    assert entries[..|entries|] == entries;
  }

  method CollectPoints(entries: seq<Entry>) returns (points: seq<Point>)
    ensures points == Points(entries)
  {
    points := [];
    for n := 0 to |entries|
      invariant points == Points(entries[..n])
    {
      assert entries[..n + 1][..n] == entries[..n];
      var e := entries[n];
      if Usable(e) {
        points := points + [Point(e.s.value, e.v.value)];
      }
    }
    assert entries[..|entries|] == entries;
  }

  // ----- The scan -----

  /** The running best after the first `fi` points. */
  ghost predicate BestOfPrefix(best: Option<real>, points: seq<Point>, fi: nat, higher: bool)
    requires fi <= |points|
  {
    && (best.None? <==> fi == 0)
    && (best.Some? ==> (exists i :: 0 <= i < fi && points[i].value == best.value)
                       && forall i :: 0 <= i < fi ==> !Better(points[i].value, best.value, higher))
  }

  /** What has been recorded for an iteration already scanned is the naive optimum. */
  ghost predicate Scanned(at: map<int, real>, gen: int, points: seq<Point>, higher: bool) {
    && (gen in at <==> Started(points, gen))
    && (gen in at ==> OptimumAt(at[gen], points, gen, higher))
  }

  lemma PrefixIsOptimum(best: Option<real>, points: seq<Point>, fi: nat, gen: int, higher: bool)
    requires fi <= |points| && ByStep(points) && BestOfPrefix(best, points, fi, higher)
    requires forall i :: 0 <= i < fi ==> points[i].step <= gen
    requires fi < |points| ==> points[fi].step > gen
    ensures best.Some? <==> Started(points, gen)
    ensures best.Some? ==> OptimumAt(best.value, points, gen, higher)
  {
    if fi > 0 { assert points[0] in points; }
    forall p | p in points && p.step <= gen ensures exists i :: 0 <= i < fi && points[i] == p {
      var i :| 0 <= i < |points| && points[i] == p;
    }
    if best.Some? {
      var i :| 0 <= i < fi && points[i].value == best.value;
      assert points[i] in points;
    }
  }

  /** The inner loop: consume the points up to `gen`. */
  method Advance(points: seq<Point>, start: nat, best0: Option<real>, gen: int, higher: bool)
    returns (fi: nat, best: Option<real>)
    requires start <= |points| && BestOfPrefix(best0, points, start, higher)
    requires forall i :: 0 <= i < start ==> points[i].step <= gen
    ensures start <= fi <= |points| && BestOfPrefix(best, points, fi, higher)
    ensures forall i :: 0 <= i < fi ==> points[i].step <= gen
    ensures fi < |points| ==> points[fi].step > gen
  {
    fi, best := start, best0;
    while fi < |points| && points[fi].step <= gen
      invariant start <= fi <= |points| && BestOfPrefix(best, points, fi, higher)
      invariant forall i :: 0 <= i < fi ==> points[i].step <= gen
    {
      var v := points[fi].value;
      if best.None? {
        best := Some(v);
      } else if higher && v > best.value {
        best := Some(v);
      } else if !higher && v < best.value {
        best := Some(v);
      }
      assert points[fi].value == v;
      fi := fi + 1;
    }
  }

  method Scan(gens: seq<int>, points: seq<Point>, higher: bool) returns (at: map<int, real>)
    requires Increasing(gens) && ByStep(points)
    ensures forall g :: g in gens ==> Scanned(at, g, points, higher)
  {
    at := map[];
    var fi: nat, best: Option<real> := 0, None;
    for n := 0 to |gens|
      invariant fi <= |points| && BestOfPrefix(best, points, fi, higher)
      invariant forall i, m :: 0 <= i < fi && n <= m < |gens| ==> points[i].step <= gens[m]
      invariant forall m :: 0 <= m < n ==> Scanned(at, gens[m], points, higher)
      invariant forall m :: n <= m < |gens| ==> gens[m] !in at
    {
      fi, best := Advance(points, fi, best, gens[n], higher);
      PrefixIsOptimum(best, points, fi, gens[n], higher);
      if best.Some? {
        at := at[gens[n] := best.value];
      }
    }
  }

  datatype Stats = Stats(iterations: seq<int>, bests: seq<real>, means: seq<real>)

  /** The numbers reported for one iteration. */
  ghost predicate IsReported(g: int, best: real, mean: real, at: map<int, real>, values: map<int, seq<real>>) {
    && g in at && best == at[g]
    && g in values && values[g] != [] && mean == values[g][|values[g]| - 1]
  }

  /** The output lists: scanned iterations only, each with its best and its last value.
      Taking the last value of an empty list raises, scanned or not. */
  method Report(gens: seq<int>, at: map<int, real>, values: map<int, seq<real>>) returns (r: Result<Stats>)
    requires Increasing(gens) && forall g :: g in gens ==> g in values
    ensures r.Err? <==> exists g :: g in gens && values[g] == []
    ensures r.Ok? ==> |r.value.iterations| == |r.value.bests| == |r.value.means| && Increasing(r.value.iterations)
    ensures r.Ok? ==> forall g :: g in r.value.iterations <==> g in gens && g in at
    ensures r.Ok? ==> forall i :: 0 <= i < |r.value.iterations| ==>
      IsReported(r.value.iterations[i], r.value.bests[i], r.value.means[i], at, values)
  {
    var iterations: seq<int>, bests: seq<real>, means: seq<real> := [], [], [];
    for n := 0 to |gens|
      invariant |iterations| == |bests| == |means| && Increasing(iterations)
      invariant forall g :: g in iterations <==> g in gens[..n] && g in at
      invariant forall g :: g in gens[..n] ==> values[g] != []
      invariant forall i :: 0 <= i < |iterations| ==> IsReported(iterations[i], bests[i], means[i], at, values)
    {
      var gen := gens[n];
      assert gens[..n + 1] == gens[..n] + [gen] && gen in gens;
      var vals := values[gen];
      if vals == [] { return Err("IndexError"); }
      if gen !in at { continue; }
      iterations, bests, means := iterations + [gen], bests + [at[gen]], means + [vals[|vals| - 1]];
    }
    assert gens[..|gens|] == gens;
    return Ok(Stats(iterations, bests, means));
  }

  /** What the plot should show: exactly the recorded iterations at or after the first
      frontier point, in increasing order; each with the naive optimum of the frontier so
      far and the last value recorded for it; bests that never get worse. */
  ghost predicate Faithful(t: Stats, entries: seq<Entry>, points: seq<Point>, higher: bool) {
    && |t.iterations| == |t.bests| == |t.means| && Increasing(t.iterations)
    && (forall g :: g in t.iterations <==> Recorded(entries, g) && Started(points, g))
    && (forall n :: 0 <= n < |t.iterations| ==> OptimumAt(t.bests[n], points, t.iterations[n], higher))
    && (forall n :: 0 <= n < |t.iterations| ==> LastValue(t.means[n], entries, t.iterations[n]))
    && (forall m, n :: 0 <= m < n < |t.iterations| ==>
          if higher then t.bests[m] <= t.bests[n] else t.bests[m] >= t.bests[n])
  }

  /** It raises exactly when some iteration has a value that is no number and none that
      is; otherwise the result is faithful. */
  method ComputePerIterationStats(genMeanEntries: seq<Entry>, frontierEntries: seq<Entry>, higherIsBetter: bool)
    returns (r: Result<Stats>)
    ensures r.Err? <==> OnlyUnparsable(genMeanEntries)
    ensures r.Ok? ==> Faithful(r.value, genMeanEntries, Points(frontierEntries), higherIsBetter)
    ensures forall p :: p in Points(frontierEntries) <==> Entry(Parsed(p.step), Parsed(p.value)) in frontierEntries
  {
    forall p { PointMembers(frontierEntries, p); }
    var values := CollectValues(genMeanEntries);
    forall g ensures g in values <==> Named(genMeanEntries, g)
             ensures g in values ==> (values[g] == [] <==> !Recorded(genMeanEntries, g))
    {
      ValuesAreRecorded(genMeanEntries, g);
    }
    RecordedIsNamed(genMeanEntries);
    var raw := CollectPoints(frontierEntries);
    var points := SortPoints(raw);
    SortPointsSorts(raw);
    SameOptima(points, raw, higherIsBetter);
    var gens := SortedKeys(values.Keys);
    if gens == [] { return Ok(Stats([], [], [])); }
    var at := Scan(gens, points, higherIsBetter);
    r := Report(gens, at, values);
    if r.Ok? {
      ReportIsFaithful(r.value, genMeanEntries, raw, higherIsBetter, gens, at, values);
    }
  }

  lemma RecordedIsNamed(entries: seq<Entry>)
    ensures forall g :: Recorded(entries, g) ==> Named(entries, g)
  {
  }

  lemma ReportIsFaithful(t: Stats, entries: seq<Entry>, points: seq<Point>, higher: bool,
                         gens: seq<int>, at: map<int, real>, values: map<int, seq<real>>)
    requires values == ValuesOf(entries) && forall g :: g in gens <==> g in values
    requires forall g :: g in gens ==> values[g] != [] && Scanned(at, g, points, higher)
    requires |t.iterations| == |t.bests| == |t.means| && Increasing(t.iterations)
    requires forall g :: g in t.iterations <==> g in gens && g in at
    requires forall i :: 0 <= i < |t.iterations| ==>
      IsReported(t.iterations[i], t.bests[i], t.means[i], at, values)
    ensures Faithful(t, entries, points, higher)
  {
    forall g ensures g in t.iterations <==> Recorded(entries, g) && Started(points, g) {
      ValuesAreRecorded(entries, g);
      assert g in gens ==> Scanned(at, g, points, higher);
    }
    forall n | 0 <= n < |t.iterations|
      ensures OptimumAt(t.bests[n], points, t.iterations[n], higher)
      ensures LastValue(t.means[n], entries, t.iterations[n])
    {
      assert t.iterations[n] in t.iterations;
      assert Scanned(at, t.iterations[n], points, higher);
      ValuesAreRecorded(entries, t.iterations[n]);
    }
    forall m, n | 0 <= m < n < |t.iterations|
      ensures if higher then t.bests[m] <= t.bests[n] else t.bests[m] >= t.bests[n]
    {
      OptimumMonotone(t.bests[m], t.bests[n], points, t.iterations[m], t.iterations[n], higher);
    }
  }

  lemma SameOptima(points: seq<Point>, raw: seq<Point>, higher: bool)
    requires forall x :: x in points <==> x in raw
    ensures forall v, g :: OptimumAt(v, points, g, higher) <==> OptimumAt(v, raw, g, higher)
    ensures forall g :: Started(points, g) <==> Started(raw, g)
  {
  }
}
