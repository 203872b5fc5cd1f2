/** The two archive providers: plain top-k, and the greedy pass that keeps one elite per
    behaviour cell (gigaevo/adversarial/opponent_provider.py). */
module StratifiedProvider {
  import opened Prelude
  import opened OpponentProvider

  /** A stored program as the archive reader sees it. */
  datatype Payload = Payload(code: string, fitness: Option<real>)

  /** One archive hash field: cell and program id. */
  type Entry = (string, Id)

  predicate Loads(e: Entry, blobs: map<Id, Payload>) {
    e.1 in blobs && blobs[e.1].code != "" && blobs[e.1].fitness.Some?
  }

  function Load(id: Id, p: Payload): Opponent
    requires p.fitness.Some?
  {
    Opponent(id, p.code, p.fitness.value)
  }

  function LoadAll(items: seq<Entry>, blobs: map<Id, Payload>): seq<Opponent> {
    if items == [] then []
    else
      var e := items[|items| - 1];
      LoadAll(items[..|items| - 1], blobs) + if Loads(e, blobs) then [Load(e.1, blobs[e.1])] else []
  }

  function CellMap(items: seq<Entry>, blobs: map<Id, Payload>): map<string, string> {
    if items == [] then map[]
    else
      var e := items[|items| - 1];
      var m := CellMap(items[..|items| - 1], blobs);
      if Loads(e, blobs) then m[e.1 := e.0] else m
  }

  /** The program of this opponent can be loaded, with this code and fitness. */
  ghost predicate Loadable(o: Opponent, blobs: map<Id, Payload>) {
    && o.id in blobs && o.code != ""
    && blobs[o.id] == Payload(o.code, Some(o.fitness))
  }

  /** The cell of the last loadable entry of this id. */
  ghost predicate IsLastCell(items: seq<Entry>, id: Id, cell: string) {
    exists i :: 0 <= i < |items| && items[i] == (cell, id) && forall j :: i < j < |items| ==> items[j].1 != id
  }

  lemma LastCellStep(items: seq<Entry>, e: Entry, id: Id, cell: string)
    ensures IsLastCell(items + [e], id, cell) <==> if e.1 == id then e.0 == cell else IsLastCell(items, id, cell)
  {
    var all := items + [e];
    assert all[|items|] == e;
    if IsLastCell(items, id, cell) && e.1 != id {
      var i :| 0 <= i < |items| && items[i] == (cell, id) && forall j :: i < j < |items| ==> items[j].1 != id;
      assert all[i] == (cell, id);
      forall j | i < j < |all| ensures all[j].1 != id {
        if j < |items| { assert all[j] == items[j]; }
      }
    }
    if IsLastCell(all, id, cell) && e.1 != id {
      var i :| 0 <= i < |all| && all[i] == (cell, id) && forall j :: i < j < |all| ==> all[j].1 != id;
      assert items[i] == (cell, id);
      forall j | i < j < |items| ensures items[j].1 != id {
        assert items[j] == all[j];
      }
    }
  }

  /** The cache holds exactly the loadable programs of the archive, each with its own code
      and fitness, in the order of the entries and once for each; and the cell of each is
      the one of its last entry. */
  lemma {:induction false} LoadsAll(items: seq<Entry>, blobs: map<Id, Payload>) returns (at: seq<nat>)
    ensures |at| == |LoadAll(items, blobs)| && forall j, k :: 0 <= j < k < |at| ==> at[j] < at[k]
    ensures forall i: nat :: i in at <==>
      i < |items| && items[i].1 in blobs && blobs[items[i].1].code != "" && blobs[items[i].1].fitness.Some?
    ensures forall j :: 0 <= j < |at| ==>
      at[j] < |items| && LoadAll(items, blobs)[j].id == items[at[j]].1 && Loadable(LoadAll(items, blobs)[j], blobs)
    ensures forall o: Opponent, cell :: Loadable(o, blobs) ==>
      (o.id in CellMap(items, blobs) && CellMap(items, blobs)[o.id] == cell <==> IsLastCell(items, o.id, cell))
  {
    at := [];
    if items != [] {
      var front, e := items[..|items| - 1], items[|items| - 1];
      at := LoadsAll(front, blobs);
      assert items == front + [e];
      ghost var before := at;
      if Loads(e, blobs) { at := at + [|front|]; }
      forall i: nat ensures i in at <==>
        i < |items| && items[i].1 in blobs && blobs[items[i].1].code != "" && blobs[items[i].1].fitness.Some?
      {
        assert i in at <==> i in before || (i == |front| && Loads(e, blobs));
      }
      forall o: Opponent, cell | Loadable(o, blobs)
        ensures o.id in CellMap(items, blobs) && CellMap(items, blobs)[o.id] == cell <==> IsLastCell(items, o.id, cell)
      {
        LastCellStep(front, e, o.id, cell);
      }
    }
  }

  /** Every cached opponent has the payload and a cell of some entry with its id. */
  lemma {:induction false} LoadedFrom(items: seq<Entry>, blobs: map<Id, Payload>)
    ensures forall o :: o in LoadAll(items, blobs) ==>
      && o.id in blobs && blobs[o.id].fitness.Some? && o == Load(o.id, blobs[o.id])
      && o.id in CellMap(items, blobs)
    ensures forall id :: id in CellMap(items, blobs) ==> (CellMap(items, blobs)[id], id) in items
    ensures IdsIdentify(LoadAll(items, blobs))
  {
    if items != [] {
      LoadedFrom(items[..|items| - 1], blobs);
    }
  }

  lemma CacheIsLoadable(items: seq<Entry>, blobs: map<Id, Payload>)
    ensures forall o :: o in LoadAll(items, blobs) <==> Loadable(o, blobs) && exists e :: e in items && e.1 == o.id
    ensures forall o :: o in LoadAll(items, blobs) ==>
      o.id in CellMap(items, blobs) && IsLastCell(items, o.id, CellMap(items, blobs)[o.id])
  {
    var at := LoadsAll(items, blobs);
    var all := LoadAll(items, blobs);
    LoadedFrom(items, blobs);
    forall o ensures o in all <==> Loadable(o, blobs) && exists e :: e in items && e.1 == o.id {
      if o in all {
        var j :| 0 <= j < |all| && all[j] == o;
        assert items[at[j]] in items;
      }
      if Loadable(o, blobs) && exists e :: e in items && e.1 == o.id {
        var i: nat :| i < |items| && items[i].1 == o.id;
        assert i in at;
        var j :| 0 <= j < |at| && at[j] == i;
        assert all[j] == o;
      }
    }
  }

  ghost predicate OnePerCell(cells: map<string, string>, s: seq<Opponent>) {
    forall i, j :: 0 <= i < j < |s| ==> CellOf(cells, s[i]) != CellOf(cells, s[j])
  }

  /** Hash fields are distinct; if no program sits in two cells either, the cache holds
      one opponent per cell. */
  lemma {:induction false} ArchiveIsOnePerCell(items: seq<Entry>, blobs: map<Id, Payload>)
    requires forall i, j :: 0 <= i < j < |items| ==> items[i].0 != items[j].0 && items[i].1 != items[j].1
    ensures OnePerCell(CellMap(items, blobs), LoadAll(items, blobs))
  {
    if items != [] {
      var front, e := items[..|items| - 1], items[|items| - 1];
      ArchiveIsOnePerCell(front, blobs);
      LoadedFrom(front, blobs);
      var before, cells := CellMap(front, blobs), CellMap(items, blobs);
      forall o | o in LoadAll(front, blobs)
        ensures CellOf(cells, o) == CellOf(before, o) && CellOf(before, o) != e.0
      {
        var x := (before[o.id], o.id);
        assert x in front;
        var i :| 0 <= i < |front| && front[i] == x;
        assert items[i] == x;
      }
    }
  }

  // ----- Plain top-k -----

  /** Python's `s[:k]`: a negative bound counts from the end. */
  function Slice<T>(s: seq<T>, k: int): seq<T> {
    if k >= 0 then s[..Min(k, |s|)] else s[..Max(0, |s| + k)]
  }

  /** A prefix of the ranking, and what it leaves out. */
  lemma TopAndRest(cache: seq<Opponent>, top: seq<Opponent>, higher: bool)
    requires top <= Rank(cache, higher)
    ensures exists rest ::
      && multiset(top + rest) == multiset(cache)
      && forall p, o :: p in top && o in rest ==> AtLeast(p, o, higher)
  {
    RankIsSort(cache, higher);
    var ranked := Rank(cache, higher);
    var rest := ranked[|top|..];
    assert top + rest == ranked;
    forall p, o | p in top && o in rest ensures AtLeast(p, o, higher) {
      var i :| 0 <= i < |top| && top[i] == p;
      var j :| 0 <= j < |rest| && rest[j] == o;
      assert ranked[i] == p && ranked[|top| + j] == o;
      assert AtLeast(ranked[i], ranked[|top| + j], higher);
    }
    assert multiset(top + rest) == multiset(cache);
  }

  class RedisProvider {
    var cache: seq<Opponent>

    /** The ranked cache, cut off; the same for every order of the cache. */
    method GetTopK(k: int, higherIsBetter: bool) returns (top: seq<Opponent>)
      ensures top == Slice(Rank(cache, higherIsBetter), k)
      ensures Ranked(top, higherIsBetter)
      ensures |top| == if k >= 0 then Min(k, |cache|) else Max(0, |cache| + k)
      ensures forall i, j :: 0 <= i < j < |top| ==> AtLeast(top[i], top[j], higherIsBetter)
      ensures exists rest ::
        && multiset(top + rest) == multiset(cache)
        && forall p, o :: p in top && o in rest ==> AtLeast(p, o, higherIsBetter)
    {
      RankIsSort(cache, higherIsBetter);
      TopAndRest(cache, Slice(Rank(cache, higherIsBetter), k), higherIsBetter);
      SameElements(cache, Rank(cache, higherIsBetter));
      top := Slice(Rank(cache, higherIsBetter), k);
    }
  }

  // ----- The greedy pass -----

  ghost predicate BestOfCells(picked: seq<Opponent>, s: seq<Opponent>, cells: map<string, string>, higher: bool) {
    forall p, o :: p in picked && o in s && CellOf(cells, o) == CellOf(cells, p) ==> !Before(o, p, higher)
  }

  ghost predicate OutranksOthers(picked: seq<Opponent>, s: seq<Opponent>, cells: map<string, string>, higher: bool) {
    forall p, o :: p in picked && o in s && CellOf(cells, o) !in CellsOf(cells, picked) ==> !Before(o, p, higher)
  }

  ghost predicate AllIn(picked: seq<Opponent>, s: seq<Opponent>) {
    forall p :: p in picked ==> p in s
  }

  /** The pass after `i` ranked opponents: every cell met has its first, hence best,
      opponent picked. */
  ghost predicate Greedy(picked: seq<Opponent>, ranked: seq<Opponent>, i: nat,
                         cells: map<string, string>, higher: bool)
    requires i <= |ranked|
  {
    && AllIn(picked, ranked[..i])
    && Ranked(picked, higher)
    && OnePerCell(cells, picked)
    && CellsOf(cells, picked) == CellsOf(cells, ranked[..i])
    && BestOfCells(picked, ranked, cells, higher)
  }

  lemma RankedAfter(ranked: seq<Opponent>, i: nat, higher: bool, p: Opponent, o: Opponent)
    requires Ranked(ranked, higher) && i <= |ranked| && p in ranked[..i] && o in ranked[i..]
    ensures !Before(o, p, higher)
  {
  }

  lemma CellsStep(ranked: seq<Opponent>, i: nat, cells: map<string, string>)
    requires i < |ranked|
    ensures CellsOf(cells, ranked[..i + 1]) == CellsOf(cells, ranked[..i]) + {CellOf(cells, ranked[i])}
  {
    assert ranked[..i + 1] == ranked[..i] + [ranked[i]];
  }

  lemma GreedySkips(picked: seq<Opponent>, ranked: seq<Opponent>, i: nat,
                    cells: map<string, string>, higher: bool)
    requires i < |ranked| && Greedy(picked, ranked, i, cells, higher)
    requires CellOf(cells, ranked[i]) in CellsOf(cells, picked)
    ensures Greedy(picked, ranked, i + 1, cells, higher)
  {
    CellsStep(ranked, i, cells);
    assert ranked[..i + 1] == ranked[..i] + [ranked[i]];
  }

  lemma PickKeepsShape(picked: seq<Opponent>, op: Opponent, cells: map<string, string>, higher: bool)
    requires Ranked(picked, higher) && OnePerCell(cells, picked)
    requires CellOf(cells, op) !in CellsOf(cells, picked)
    requires forall p :: p in picked ==> !Before(op, p, higher)
    ensures Ranked(picked + [op], higher) && OnePerCell(cells, picked + [op])
    ensures CellsOf(cells, picked + [op]) == CellsOf(cells, picked) + {CellOf(cells, op)}
  {
    forall p | p in picked ensures CellOf(cells, p) != CellOf(cells, op) {
      assert CellOf(cells, p) in CellsOf(cells, picked);
    }
  }

  /** The first opponent of a new cell is the best of that cell. */
  lemma FirstIsBest(ranked: seq<Opponent>, i: nat, o: Opponent, cells: map<string, string>, higher: bool)
    requires Ranked(ranked, higher) && i < |ranked| && CellOf(cells, ranked[i]) !in CellsOf(cells, ranked[..i])
    requires o in ranked && CellOf(cells, o) == CellOf(cells, ranked[i])
    ensures !Before(o, ranked[i], higher)
  {
    BeforeTotal(o, o, higher);
    forall j | 0 <= j < i ensures CellOf(cells, ranked[j]) != CellOf(cells, ranked[i]) {
      assert ranked[j] in ranked[..i];
      assert CellOf(cells, ranked[j]) in CellsOf(cells, ranked[..i]);
    }
  }

  lemma PickKeepsBest(picked: seq<Opponent>, ranked: seq<Opponent>, i: nat, cells: map<string, string>, higher: bool)
    requires Ranked(ranked, higher) && i < |ranked| && BestOfCells(picked, ranked, cells, higher)
    requires CellOf(cells, ranked[i]) !in CellsOf(cells, ranked[..i])
    ensures BestOfCells(picked + [ranked[i]], ranked, cells, higher)
  {
    var op, next := ranked[i], picked + [ranked[i]];
    forall p, o | p in next && o in ranked && CellOf(cells, o) == CellOf(cells, p) ensures !Before(o, p, higher) {
      if p == op {
        FirstIsBest(ranked, i, o, cells, higher);
      } else {
        assert p in picked;
      }
    }
  }

  lemma GreedyPicks(picked: seq<Opponent>, ranked: seq<Opponent>, i: nat, cells: map<string, string>, higher: bool)
    requires Ranked(ranked, higher)
    requires i < |ranked| && Greedy(picked, ranked, i, cells, higher)
    requires CellOf(cells, ranked[i]) !in CellsOf(cells, picked)
    ensures Greedy(picked + [ranked[i]], ranked, i + 1, cells, higher)
  {
    var op := ranked[i];
    CellsStep(ranked, i, cells);
    forall p | p in picked ensures !Before(op, p, higher) {
      RankedAfter(ranked, i, higher, p, op);
    }
    PickKeepsShape(picked, op, cells, higher);
    PickKeepsBest(picked, ranked, i, cells, higher);
    assert AllIn(picked + [op], ranked[..i + 1]) by {
      assert ranked[..i + 1] == ranked[..i] + [op];
    }
  }

  lemma PicksOutrank(picked: seq<Opponent>, ranked: seq<Opponent>, i: nat, cells: map<string, string>, higher: bool)
    requires i <= |ranked| && Ranked(ranked, higher) && AllIn(picked, ranked[..i])
    requires CellsOf(cells, picked) == CellsOf(cells, ranked[..i])
    ensures OutranksOthers(picked, ranked, cells, higher)
  {
    forall p, o | p in picked && o in ranked && CellOf(cells, o) !in CellsOf(cells, picked)
      ensures !Before(o, p, higher)
    {
      assert o !in ranked[..i];
      assert ranked == ranked[..i] + ranked[i..];
      RankedAfter(ranked, i, higher, p, o);
    }
  }

  lemma GreedyEnds(picked: seq<Opponent>, cache: seq<Opponent>, i: nat,
                   cells: map<string, string>, k: int, higher: bool)
    requires i <= |cache| == |Rank(cache, higher)| && Greedy(picked, Rank(cache, higher), i, cells, higher)
    requires (i == |cache| && (picked == [] || |picked| <= k)) || |picked| == Max(k, 1)
    ensures IsStratifiedTop(picked, cache, cells, k, higher)
  {
    var ranked := Rank(cache, higher);
    RankIsSort(cache, higher);
    SameElements(cache, ranked);
    PicksOutrank(picked, ranked, i, cells, higher);
    OnePerCellReordered(cells, picked, picked);
    assert CellsOf(cells, ranked) == CellsOf(cells, cache);
    assert CellsOf(cells, ranked[..i]) <= CellsOf(cells, ranked);
    SubsetSize(CellsOf(cells, ranked[..i]), CellsOf(cells, ranked));
    if i == |cache| {
      assert ranked[..i] == ranked;
    }
  }

  class CellStratifiedProvider {
    const higherIsBetter: bool
    var cache: seq<Opponent>
    var cellFields: map<string, string>
    var lastHofEliteIds: Option<set<Id>>

    constructor (higherIsBetter: bool)
      ensures cache == [] && cellFields == map[] && lastHofEliteIds == None && this.higherIsBetter == higherIsBetter
    {
      this.higherIsBetter := higherIsBetter;
      cache, cellFields, lastHofEliteIds := [], map[], None;
    }

    /** Entries whose program is missing, has no code or lacks the fitness key are skipped. */
    method RefreshCache(items: seq<Entry>, blobs: map<Id, Payload>)
      modifies this`cache, this`cellFields
      ensures cache == LoadAll(items, blobs) && cellFields == CellMap(items, blobs)
      ensures IdsIdentify(cache)
      ensures forall o :: o in cache <==> Loadable(o, blobs) && exists e :: e in items && e.1 == o.id
      ensures forall o :: o in cache ==> o.id in cellFields && IsLastCell(items, o.id, cellFields[o.id])
    {
      var opponents: seq<Opponent>, cellMap: map<string, string> := [], map[];
      for n := 0 to |items|
        invariant opponents == LoadAll(items[..n], blobs) && cellMap == CellMap(items[..n], blobs)
      {
        assert items[..n + 1][..n] == items[..n];
        var (cell, pid) := items[n];
        if pid !in blobs { continue; }
        var p := blobs[pid];
        if p.fitness.None? || p.code == "" { continue; }
        opponents := opponents + [Opponent(pid, p.code, p.fitness.value)];
        cellMap := cellMap[pid := cell];
      }
      assert items[..|items|] == items;
      cache, cellFields := opponents, cellMap;
      LoadedFrom(items, blobs);
      CacheIsLoadable(items, blobs);
    }

    /** The greedy pass yields the stratified top, and a change of the elite set is
        remembered. */
    method GetTopK(k: int, higher: bool) returns (picked: seq<Opponent>)
      modifies this`lastHofEliteIds
      ensures IsStratifiedTop(picked, cache, cellFields, k, higherIsBetter && higher)
      ensures TopOfCells(picked, cache, cellFields, k, higherIsBetter && higher)
      ensures lastHofEliteIds == if cache == [] then old(lastHofEliteIds) else Some(set o | o in picked :: o.id)
    {
      var effective := higherIsBetter && higher;
      if cache == [] {
        return [];
      }
      picked := PickElites(k, effective);
      var ids := Ids(picked);
      assert picked[0].id in ids;
      if ids != {} && Some(ids) != lastHofEliteIds {
        lastHofEliteIds := Some(ids);
      }
    }

    method PickElites(k: int, effective: bool) returns (picked: seq<Opponent>)
      requires cache != []
      ensures IsStratifiedTop(picked, cache, cellFields, k, effective) && picked != []
      ensures TopOfCells(picked, cache, cellFields, k, effective)
    {
      var ranked := Rank(cache, effective);
      RankIsSort(cache, effective);
      SameElements(cache, ranked);
      picked := [];
      var seenCells: set<string> := {};
      var i := 0;
      while i < |ranked|
        invariant i <= |ranked|
        invariant Greedy(picked, ranked, i, cellFields, effective) && seenCells == CellsOf(cellFields, picked)
        invariant picked == [] || |picked| < k
        invariant i > 0 ==> picked != []
      {
        var op := ranked[i];
        var cell := CellOf(cellFields, op);
        i := i + 1;
        if cell in seenCells {
          GreedySkips(picked, ranked, i - 1, cellFields, effective);
          continue;
        }
        GreedyPicks(picked, ranked, i - 1, cellFields, effective);
        NewCell(picked, op, cellFields);
        picked := picked + [op];
        seenCells := seenCells + {cell};
        if |picked| >= k { break; }
      }
      GreedyEnds(picked, cache, i, cellFields, k, effective);
      StratifiedIsTopOfCells(picked, cache, cellFields, k, effective);
    }
  }

  function Ids(s: seq<Opponent>): set<Id> {
    set o | o in s :: o.id
  }

  lemma NewCell(picked: seq<Opponent>, op: Opponent, cells: map<string, string>)
    ensures CellsOf(cells, picked + [op]) == CellsOf(cells, picked) + {CellOf(cells, op)}
  {
  }

  // ----- The archive already holds one program per cell -----

  /** One opponent per cell survives reordering. */
  lemma OnePerCellReordered(cells: map<string, string>, s: seq<Opponent>, t: seq<Opponent>)
    requires OnePerCell(cells, s) && multiset(s) == multiset(t)
    ensures OnePerCell(cells, t) && |CellsOf(cells, s)| == |s|
  {
    SameElements(s, t);
    var cs := seq(|s|, i requires 0 <= i < |s| => CellOf(cells, s[i]));
    DistinctSize(cs);
    assert Elements(cs) == CellsOf(cells, s) by {
      forall c | c in CellsOf(cells, s) ensures c in cs {
        var o :| o in s && CellOf(cells, o) == c;
        var i :| 0 <= i < |s| && s[i] == o;
        assert cs[i] == c;
      }
    }
    var ct := seq(|t|, i requires 0 <= i < |t| => CellOf(cells, t[i]));
    assert Elements(ct) == CellsOf(cells, t) by {
      forall c | c in CellsOf(cells, t) ensures c in ct {
        var o :| o in t && CellOf(cells, o) == c;
        var i :| 0 <= i < |t| && t[i] == o;
        assert ct[i] == c;
      }
    }
    assert CellsOf(cells, s) == CellsOf(cells, t);
    SizeDistinct(ct);
    forall i, j | 0 <= i < j < |t| ensures CellOf(cells, t[i]) != CellOf(cells, t[j]) {
      assert ct[i] != ct[j];
    }
  }

  lemma StratifiedIsTopOfCells(picked: seq<Opponent>, cache: seq<Opponent>, cells: map<string, string>,
                               k: int, higher: bool)
    requires IsStratifiedTop(picked, cache, cells, k, higher)
    ensures TopOfCells(picked, cache, cells, k, higher)
  {
    forall a, b ensures SameCell(cells, a, b) <==> CellOf(cells, a) == CellOf(cells, b) {
      SameCellIff(cells, a, b);
    }
    forall p, o ensures AtLeast(p, o, higher) <==> !Before(o, p, higher) {
      AtLeastIff(p, o, higher);
    }
    OnePerCellReordered(cells, picked, picked);
    SubsetSize(CellsOf(cells, picked), CellsOf(cells, cache));
    forall p, o | p in picked && o in cache && forall q :: q in picked ==> !SameCell(cells, q, o)
      ensures AtLeast(p, o, higher)
    {
      assert CellOf(cells, o) !in CellsOf(cells, picked);
    }
    if |picked| < Max(k, 1) {
      forall o | o in cache ensures exists p :: p in picked && SameCell(cells, p, o) {
        assert CellOf(cells, o) in CellsOf(cells, picked);
        var p :| p in picked && CellOf(cells, p) == CellOf(cells, o);
      }
    }
  }

  lemma CutKeepsBest(ranked: seq<Opponent>, n: nat, cells: map<string, string>, higher: bool)
    requires Ranked(ranked, higher) && OnePerCell(cells, ranked) && n <= |ranked|
    ensures BestOfCells(ranked[..n], ranked, cells, higher)
  {
    forall p, o | p in ranked[..n] && o in ranked && CellOf(cells, o) == CellOf(cells, p)
      ensures !Before(o, p, higher) {
      BeforeTotal(p, p, higher);
      var i :| 0 <= i < n && ranked[i] == p;
      var j :| 0 <= j < |ranked| && ranked[j] == o;
    }
  }

  lemma CutOutranks(ranked: seq<Opponent>, n: nat, cells: map<string, string>, higher: bool)
    requires Ranked(ranked, higher) && n <= |ranked|
    ensures OutranksOthers(ranked[..n], ranked, cells, higher)
  {
    forall p, o | p in ranked[..n] && o in ranked && CellOf(cells, o) !in CellsOf(cells, ranked[..n])
      ensures !Before(o, p, higher)
    {
      assert o !in ranked[..n];
      assert ranked == ranked[..n] + ranked[n..];
      RankedAfter(ranked, n, higher, p, o);
    }
  }

  /** With one program per cell, the stratified pass is the plain ranking cut at k: the
      cell check never rejects anything. */
  lemma StratifiedIsPlain(picked: seq<Opponent>, cache: seq<Opponent>, cells: map<string, string>, k: int, higher: bool)
    requires k >= 1 && OnePerCell(cells, cache) && IdsIdentify(cache)
    requires IsStratifiedTop(picked, cache, cells, k, higher)
    ensures picked == Slice(Rank(cache, higher), k)
  {
    var ranked, n := Rank(cache, higher), Min(k, |cache|);
    RankIsSort(cache, higher);
    SameElements(cache, ranked);
    OnePerCellReordered(cells, cache, ranked);
    CutKeepsBest(ranked, n, cells, higher);
    CutOutranks(ranked, n, cells, higher);
    StratifiedTopIsUnique(picked, ranked[..n], cache, cache, cells, k, higher);
  }
}
