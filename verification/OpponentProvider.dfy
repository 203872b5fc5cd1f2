/** Opponent selection: plain top-k and one elite per behaviour cell
    (gigaevo/adversarial/opponent_provider.py). */
module OpponentProvider {
  import opened Prelude
  import opened Order

  datatype Opponent = Opponent(id: Id, code: string, fitness: real)

  /** Stronger fitness first, then the smaller id. */
  predicate Before(a: Opponent, b: Opponent, higher: bool) {
    || (if higher then a.fitness > b.fitness else a.fitness < b.fitness)
    || (a.fitness == b.fitness && LexLess(a.id, b.id))
  }

  lemma BeforeTotal(a: Opponent, b: Opponent, higher: bool)
    ensures Before(a, b, higher) || Before(b, a, higher) || (a.id == b.id && a.fitness == b.fitness)
    ensures !(Before(a, b, higher) && Before(b, a, higher))
  {
    LexTotal(a.id, b.id);
  }

  /** What the ranking promises of an opponent against one it is preferred to: it is at least
      as strong and, of the same strength, has no greater id. */
  ghost predicate AtLeast(p: Opponent, o: Opponent, higher: bool) {
    && (if higher then p.fitness >= o.fitness else p.fitness <= o.fitness)
    && (p.fitness == o.fitness ==> !LexLess(o.id, p.id))
  }

  lemma AtLeastIff(p: Opponent, o: Opponent, higher: bool)
    ensures AtLeast(p, o, higher) <==> !Before(o, p, higher)
  {
  }

  lemma NotAfterTransitive(a: Opponent, b: Opponent, c: Opponent, higher: bool)
    requires !Before(b, a, higher) && !Before(c, b, higher)
    ensures !Before(c, a, higher)
  {
    BeforeTotal(a, b, higher);
    BeforeTotal(b, c, higher);
    BeforeTotal(a, c, higher);
    if LexLess(a.id, b.id) && LexLess(b.id, c.id) {
      LexTransitive(a.id, b.id, c.id);
    }
  }

  // ----- Sorting -----

  ghost predicate Ranked(s: seq<Opponent>, higher: bool) {
    forall i, j :: 0 <= i < j < |s| ==> !Before(s[j], s[i], higher)
  }

  function Insert(x: Opponent, s: seq<Opponent>, higher: bool): seq<Opponent> {
    if s == [] || !Before(s[0], x, higher) then [x] + s else [s[0]] + Insert(x, s[1..], higher)
  }

  /** The stable sort both providers start from. */
  function Rank(s: seq<Opponent>, higher: bool): seq<Opponent> {
    if s == [] then [] else Insert(s[0], Rank(s[1..], higher), higher)
  }

  lemma {:induction false} InsertPermutes(x: Opponent, s: seq<Opponent>, higher: bool)
    ensures multiset(Insert(x, s, higher)) == multiset(s) + multiset{x}
  {
    if s != [] && Before(s[0], x, higher) {
      InsertPermutes(x, s[1..], higher);
      assert s == [s[0]] + s[1..];
    }
  }

  lemma Cons(x: Opponent, s: seq<Opponent>, higher: bool)
    requires Ranked(s, higher) && forall y :: y in s ==> !Before(y, x, higher)
    ensures Ranked([x] + s, higher)
  {
  }

  lemma {:induction false} InsertRanked(x: Opponent, s: seq<Opponent>, higher: bool)
    requires Ranked(s, higher)
    ensures Ranked(Insert(x, s, higher), higher)
  {
    if s == [] || !Before(s[0], x, higher) {
      forall i | 0 <= i < |s| ensures !Before(s[i], x, higher) {
        if i > 0 { NotAfterTransitive(x, s[0], s[i], higher); }
      }
      Cons(x, s, higher);
    } else {
      var rest := Insert(x, s[1..], higher);
      InsertRanked(x, s[1..], higher);
      InsertPermutes(x, s[1..], higher);
      BeforeTotal(s[0], x, higher);
      forall y | y in rest ensures !Before(y, s[0], higher) {
        assert y in multiset(rest);
      }
      Cons(s[0], rest, higher);
    }
  }

  lemma {:induction false} RankIsSort(s: seq<Opponent>, higher: bool)
    ensures Ranked(Rank(s, higher), higher)
    ensures forall i, j :: 0 <= i < j < |Rank(s, higher)| ==> AtLeast(Rank(s, higher)[i], Rank(s, higher)[j], higher)
    ensures multiset(Rank(s, higher)) == multiset(s)
  {
    if s != [] {
      RankIsSort(s[1..], higher);
      InsertRanked(s[0], Rank(s[1..], higher), higher);
      InsertPermutes(s[0], Rank(s[1..], higher), higher);
      assert s == [s[0]] + s[1..];
    }
  }

  lemma SameElements(s: seq<Opponent>, t: seq<Opponent>)
    requires multiset(s) == multiset(t)
    ensures |s| == |t|
    ensures forall x :: x in s <==> x in t
  {
    assert |multiset(s)| == |multiset(t)|;
    forall x ensures x in s <==> x in t {
      assert x in s <==> x in multiset(s);
      assert x in t <==> x in multiset(t);
    }
  }

  /** An id names one opponent. */
  ghost predicate IdsIdentify(s: seq<Opponent>) {
    forall a, b :: a in s && b in s && a.id == b.id ==> a == b
  }

  lemma HeadFirst(s: seq<Opponent>, x: Opponent, higher: bool)
    requires Ranked(s, higher) && x in s
    ensures !Before(x, s[0], higher)
  {
    BeforeTotal(x, x, higher);
  }

  lemma SplitHead(s: seq<Opponent>)
    requires s != []
    ensures multiset(s) == multiset{s[0]} + multiset(s[1..])
  {
    assert s == [s[0]] + s[1..];
  }

  lemma {:induction false} RankedIsUnique(s: seq<Opponent>, t: seq<Opponent>, higher: bool)
    requires Ranked(s, higher) && Ranked(t, higher) && multiset(s) == multiset(t) && IdsIdentify(s)
    ensures s == t
  {
    SameElements(s, t);
    if s != [] {
      HeadFirst(s, t[0], higher);
      HeadFirst(t, s[0], higher);
      BeforeTotal(s[0], t[0], higher);
      assert s[0] == t[0];
      SplitHead(s);
      SplitHead(t);
      assert multiset(s[1..]) == multiset(s) - multiset{s[0]} == multiset(t[1..]);
      RankedIsUnique(s[1..], t[1..], higher);
    }
  }

  /** The ranking does not depend on the order in which the archive was read. */
  lemma RankOrderFree(s: seq<Opponent>, t: seq<Opponent>, higher: bool)
    requires multiset(s) == multiset(t) && IdsIdentify(s)
    ensures Rank(s, higher) == Rank(t, higher)
  {
    RankIsSort(s, higher);
    RankIsSort(t, higher);
    SameElements(s, Rank(s, higher));
    RankedIsUnique(Rank(s, higher), Rank(t, higher), higher);
  }

  // ----- What a stratified top-k is -----

  /** The cell of an opponent; one without a recorded cell is a cell of its own. */
  function CellOf(cells: map<string, string>, o: Opponent): string {
    if o.id in cells then cells[o.id] else o.id
  }

  function CellsOf(cells: map<string, string>, s: seq<Opponent>): set<string> {
    set o | o in s :: CellOf(cells, o)
  }

  /** At most one opponent per cell, the best of its cell, in rank order, none of them
      outranked by an opponent of a cell without a pick, and as many as asked for or
      as there are cells. Asking for fewer than one gives one. */
  ghost predicate IsStratifiedTop(picked: seq<Opponent>, cache: seq<Opponent>, cells: map<string, string>,
                                  k: int, higher: bool) {
    && (forall p :: p in picked ==> p in cache)
    && Ranked(picked, higher)
    && (forall i, j :: 0 <= i < j < |picked| ==> CellOf(cells, picked[i]) != CellOf(cells, picked[j]))
    && (forall p, o :: p in picked && o in cache && CellOf(cells, o) == CellOf(cells, p) ==> !Before(o, p, higher))
    && (forall p, o :: p in picked && o in cache && CellOf(cells, o) !in CellsOf(cells, picked) ==>
          !Before(o, p, higher))
    && |picked| == Min(Max(k, 1), |CellsOf(cells, cache)|)
  }

  /** Both are in the same recorded cell, or in the cell named by the id of the one that
      has none recorded. */
  ghost predicate SameCell(cells: map<string, string>, a: Opponent, b: Opponent) {
    if a.id in cells then cells[a.id] == (if b.id in cells then cells[b.id] else b.id)
    else a.id == (if b.id in cells then cells[b.id] else b.id)
  }

  /** What callers get: cached opponents of different cells, strongest first, none of them
      weaker than another one of its cell or than any of a cell without a pick; as many as
      asked for, at least one, or one for every cell. */
  ghost predicate TopOfCells(picked: seq<Opponent>, cache: seq<Opponent>, cells: map<string, string>,
                             k: int, higher: bool) {
    && (forall p :: p in picked ==> p in cache)
    && (forall i, j :: 0 <= i < j < |picked| ==>
          !SameCell(cells, picked[i], picked[j]) && AtLeast(picked[i], picked[j], higher))
    && (forall p, o :: p in picked && o in cache && SameCell(cells, p, o) ==> AtLeast(p, o, higher))
    && (forall p, o :: p in picked && o in cache && (forall q :: q in picked ==> !SameCell(cells, q, o)) ==>
          AtLeast(p, o, higher))
    && |picked| <= Max(k, 1)
    && (|picked| < Max(k, 1) ==> forall o :: o in cache ==> exists p :: p in picked && SameCell(cells, p, o))
  }

  lemma SameCellIff(cells: map<string, string>, a: Opponent, b: Opponent)
    ensures SameCell(cells, a, b) <==> CellOf(cells, a) == CellOf(cells, b)
  {
  }

  /** The i-th picks of two stratified tops of the same opponents agree: each is the best
      opponent whose cell has no earlier pick. */
  lemma PickAgrees(p: seq<Opponent>, q: seq<Opponent>, c: seq<Opponent>, d: seq<Opponent>,
                   cells: map<string, string>, k: int, higher: bool, i: nat)
    requires IsStratifiedTop(p, c, cells, k, higher) && IsStratifiedTop(q, d, cells, k, higher)
    requires IdsIdentify(c) && forall o :: o in c <==> o in d
    requires i < |p| && i < |q| && p[..i] == q[..i]
    ensures !Before(p[i], q[i], higher)
  {
    var x, y := p[i], q[i];
    assert x in p && y in q;
    if CellOf(cells, x) in CellsOf(cells, q) {
      var z :| z in q && CellOf(cells, z) == CellOf(cells, x);
      assert !Before(z, x, higher) && !Before(x, z, higher);
      BeforeTotal(x, z, higher);
      assert z == x;
      forall j | 0 <= j < i ensures q[j] != x {
        assert p[..i][j] == q[..i][j];
        assert CellOf(cells, p[j]) != CellOf(cells, p[i]);
      }
    }
  }

  /** There is only one stratified top, and it depends on which opponents are cached, not
      on their order or on repetitions. */
  lemma StratifiedTopIsUnique(p: seq<Opponent>, q: seq<Opponent>, c: seq<Opponent>, d: seq<Opponent>,
                              cells: map<string, string>, k: int, higher: bool)
    requires IsStratifiedTop(p, c, cells, k, higher) && IsStratifiedTop(q, d, cells, k, higher)
    requires IdsIdentify(c) && forall o :: o in c <==> o in d
    ensures p == q
  {
    assert CellsOf(cells, c) == CellsOf(cells, d);
    PrefixesAgree(p, q, c, d, cells, k, higher, |p|);
    assert p[..|p|] == p && q[..|p|] == q;
  }

  lemma {:induction false} PrefixesAgree(p: seq<Opponent>, q: seq<Opponent>, c: seq<Opponent>, d: seq<Opponent>,
                                         cells: map<string, string>, k: int, higher: bool, n: nat)
    requires IsStratifiedTop(p, c, cells, k, higher) && IsStratifiedTop(q, d, cells, k, higher)
    requires IdsIdentify(c) && forall o :: o in c <==> o in d
    requires n <= |p| == |q|
    ensures p[..n] == q[..n]
  {
    if n > 0 {
      var i := n - 1;
      PrefixesAgree(p, q, c, d, cells, k, higher, i);
      PickAgrees(p, q, c, d, cells, k, higher, i);
      PickAgrees(q, p, d, c, cells, k, higher, i);
      BeforeTotal(p[i], q[i], higher);
      assert p[i] in p && q[i] in q;
      assert p[..n] == p[..i] + [p[i]] && q[..n] == q[..i] + [q[i]];
    }
  }
}
