/** Reachability in a finite directed graph, and what eliminating a vertex or adding an
    edge does to it. */
module Digraph {

  type Relation = set<(string, string)>

  ghost predicate Path(r: Relation, p: seq<string>) {
    |p| >= 2 && forall i, j :: 0 <= i < j < |p| && j == i + 1 ==> (p[i], p[j]) in r
  }

  ghost predicate PathFromTo(r: Relation, p: seq<string>, a: string, b: string) {
    Path(r, p) && p[0] == a && p[|p| - 1] == b
  }

  /** There is a path of at least one edge. */
  ghost predicate Reaches(r: Relation, a: string, b: string) {
    exists p :: PathFromTo(r, p, a, b)
  }

  ghost predicate Acyclic(r: Relation) {
    forall a :: !Reaches(r, a, a)
  }

  lemma EdgeReaches(r: Relation, a: string, b: string)
    requires (a, b) in r
    ensures Reaches(r, a, b)
  {
    assert PathFromTo(r, [a, b], a, b);
  }

  lemma ReachesTransitive(r: Relation, a: string, b: string, c: string)
    requires Reaches(r, a, b) && Reaches(r, b, c)
    ensures Reaches(r, a, c)
  {
    var p :| PathFromTo(r, p, a, b);
    var q :| PathFromTo(r, q, b, c);
    var pq := p + q[1..];
    forall i, j | 0 <= i < j < |pq| && j == i + 1 ensures (pq[i], pq[j]) in r {
      if j >= |p| {
        assert pq[j] == q[j - |p| + 1] && pq[i] == q[i - |p| + 1];
      }
    }
    assert PathFromTo(r, pq, a, c);
  }

  /** Every edge of `r` is a path in `s`. */
  ghost predicate Simulates(r: Relation, s: Relation) {
    forall e :: e in r ==> Reaches(s, e.0, e.1)
  }

  lemma {:induction false} SimulatedReach(r: Relation, s: Relation, p: seq<string>)
    requires Simulates(r, s) && Path(r, p)
    ensures Reaches(s, p[0], p[|p| - 1])
    decreases |p|
  {
    assert (p[0], p[1]) in r;
    if |p| > 2 {
      var q := p[1..];
      SimulatedReach(r, s, q);
      ReachesTransitive(s, p[0], p[1], p[|p| - 1]);
    }
  }

  lemma SubRelationReaches(r: Relation, s: Relation, a: string, b: string)
    requires r <= s && Reaches(r, a, b)
    ensures Reaches(s, a, b)
  {
    var p :| PathFromTo(r, p, a, b);
    assert PathFromTo(s, p, a, b);
  }

  // ----- Eliminating a vertex -----

  /** Bridge every two-step path through `n` and forget `n`. */
  function Eliminate(r: Relation, n: string): Relation {
    (set e | e in r && e.0 != n && e.1 != n)
    + (set x, y | x in r && y in r && x.1 == n && y.0 == n && x.0 != n && y.1 != n :: (x.0, y.1))
  }

  lemma EliminateMember(r: Relation, n: string, a: string, b: string)
    ensures (a, b) in Eliminate(r, n) <==>
            a != n && b != n && ((a, b) in r || ((a, n) in r && (n, b) in r))
  {
    if a != n && b != n && (a, n) in r && (n, b) in r {
      var x, y := (a, n), (n, b);
      assert x in r && y in r;
    }
  }

  lemma EliminateSimulated(r: Relation, n: string)
    ensures Simulates(Eliminate(r, n), r)
  {
    forall e | e in Eliminate(r, n) ensures Reaches(r, e.0, e.1) {
      EliminateMember(r, n, e.0, e.1);
      if (e.0, e.1) in r {
        EdgeReaches(r, e.0, e.1);
      } else {
        EdgeReaches(r, e.0, n);
        EdgeReaches(r, n, e.1);
        ReachesTransitive(r, e.0, n, e.1);
      }
    }
  }

  lemma {:induction false} PathSurvivesElimination(r: Relation, n: string, p: seq<string>)
    requires (n, n) !in r && Path(r, p) && p[0] != n && p[|p| - 1] != n
    ensures Reaches(Eliminate(r, n), p[0], p[|p| - 1])
    decreases |p|
  {
    assert (p[0], p[1]) in r;
    var next := if p[1] == n then 2 else 1;
    if next == 2 { assert (p[1], p[2]) in r; }
    EliminateMember(r, n, p[0], p[next]);
    EdgeReaches(Eliminate(r, n), p[0], p[next]);
    if next < |p| - 1 {
      PathSurvivesElimination(r, n, p[next..]);
      ReachesTransitive(Eliminate(r, n), p[0], p[next], p[|p| - 1]);
    }
  }

  /** Eliminating a vertex without a self-loop keeps reachability between all the others
      exactly. */
  lemma EliminationKeepsReach(r: Relation, n: string, a: string, b: string)
    requires (n, n) !in r && a != n && b != n
    ensures Reaches(r, a, b) <==> Reaches(Eliminate(r, n), a, b)
  {
    if Reaches(r, a, b) {
      var p :| PathFromTo(r, p, a, b);
      PathSurvivesElimination(r, n, p);
    }
    if Reaches(Eliminate(r, n), a, b) {
      var p :| PathFromTo(Eliminate(r, n), p, a, b);
      EliminateSimulated(r, n);
      SimulatedReach(Eliminate(r, n), r, p);
    }
  }

  /** A cycle survives elimination, and none appears. */
  lemma EliminationKeepsAcyclic(r: Relation, n: string)
    requires (n, n) !in r
    ensures Acyclic(r) <==> Acyclic(Eliminate(r, n))
  {
    if !Acyclic(r) {
      var a :| Reaches(r, a, a);
      var p :| PathFromTo(r, p, a, a);
      var x := if a == n then p[1] else a;
      assert (p[0], p[1]) in r;
      if a == n {
        SimulatedTail(r, p);
        EdgeReaches(r, n, x);
        ReachesTransitive(r, x, n, x);
      }
      EliminationKeepsReach(r, n, x, x);
    }
    if !Acyclic(Eliminate(r, n)) {
      var a :| Reaches(Eliminate(r, n), a, a);
      var p :| PathFromTo(Eliminate(r, n), p, a, a);
      assert (p[0], p[1]) in Eliminate(r, n);
      EliminateMember(r, n, p[0], p[1]);
      EliminationKeepsReach(r, n, a, a);
    }
  }

  lemma SimulatedTail(r: Relation, p: seq<string>)
    requires Path(r, p) && p[1] != p[|p| - 1]
    ensures Reaches(r, p[1], p[|p| - 1])
  {
    assert PathFromTo(r, p[1..], p[1], p[|p| - 1]);
  }

  // ----- Adding an edge -----

  ghost predicate ReachesOrIs(r: Relation, a: string, b: string) {
    a == b || Reaches(r, a, b)
  }

  lemma {:induction false} PathWithEdge(r: Relation, u: string, v: string, p: seq<string>)
    requires Path(r + {(u, v)}, p)
    ensures || Reaches(r, p[0], p[|p| - 1])
            || (ReachesOrIs(r, p[0], u) && ReachesOrIs(r, v, p[|p| - 1]))
    decreases |p|
  {
    var last := p[|p| - 1];
    assert (p[0], p[1]) in r + {(u, v)};
    if (p[0], p[1]) in r {
      EdgeReaches(r, p[0], p[1]);
    }
    if |p| > 2 {
      PathWithEdge(r, u, v, p[1..]);
      if (p[0], p[1]) in r {
        if Reaches(r, p[1], last) {
          ReachesTransitive(r, p[0], p[1], last);
        } else if p[1] != u {
          ReachesTransitive(r, p[0], p[1], u);
        }
      }
    }
  }

  /** Adding an edge keeps a graph acyclic exactly when its end does not already lead
      back to its start. */
  lemma AddEdgeAcyclicIff(r: Relation, u: string, v: string)
    ensures Acyclic(r + {(u, v)}) <==> Acyclic(r) && !ReachesOrIs(r, v, u)
  {
    var s := r + {(u, v)};
    EdgeReaches(s, u, v);
    if Acyclic(s) {
      forall a ensures !Reaches(r, a, a) {
        if Reaches(r, a, a) { SubRelationReaches(r, s, a, a); }
      }
      if Reaches(r, v, u) {
        SubRelationReaches(r, s, v, u);
        ReachesTransitive(s, u, v, u);
      }
    }
    if Acyclic(r) && !ReachesOrIs(r, v, u) && !Acyclic(s) {
      var a :| Reaches(s, a, a);
      var p :| PathFromTo(s, p, a, a);
      PathWithEdge(r, u, v, p);
      if v != a && a != u {
        ReachesTransitive(r, v, a, u);
      }
    }
  }

  // ----- Splitting an edge -----

  ghost predicate Untouched(r: Relation, n: string) {
    forall x :: (x, n) !in r && (n, x) !in r
  }

  /** The edge from `m` to `e` now goes through `x`, which also waits for `c`, which
      waits for `t`. */
  function Detour(r: Relation, t: string, c: string, m: string, x: string, e: string): Relation {
    r + {(t, c), (m, x), (c, x), (x, e)}
  }

  /** The detour with `x` bridged. */
  function Bridge(r: Relation, t: string, c: string, m: string, e: string): Relation {
    r + {(t, c), (m, e), (c, e)}
  }

  lemma EliminateJoin(r: Relation, t: string, c: string, m: string, x: string, e: string)
    requires Untouched(r, x) && x !in {t, c, m, e}
    ensures Eliminate(Detour(r, t, c, m, x, e), x) == Bridge(r, t, c, m, e)
  {
    var d := Detour(r, t, c, m, x, e);
    forall a, b ensures (a, b) in Eliminate(d, x) <==> (a, b) in Bridge(r, t, c, m, e) {
      EliminateMember(d, x, a, b);
    }
  }

  lemma EliminateWaiter(r: Relation, t: string, c: string, m: string, e: string)
    requires Untouched(r, c) && c !in {t, m, e}
    ensures Eliminate(Bridge(r, t, c, m, e), c) == r + {(m, e), (t, e)}
  {
    var d := Bridge(r, t, c, m, e);
    forall a, b ensures (a, b) in Eliminate(d, c) <==> (a, b) in r + {(m, e), (t, e)} {
      EliminateMember(d, c, a, b);
    }
  }

  lemma NoSelfLoops(r: Relation, t: string, c: string, m: string, x: string, e: string)
    requires Untouched(r, x) && Untouched(r, c) && x !in {t, c, m, e} && c !in {t, m, e}
    ensures (x, x) !in Detour(r, t, c, m, x, e) && (c, c) !in Bridge(r, t, c, m, e)
  {
  }

  lemma TwiceEliminatedReach(r: Relation, x: string, c: string, a: string, b: string)
    requires (x, x) !in r && (c, c) !in Eliminate(r, x)
    requires a != x && a != c && b != x && b != c
    ensures Reaches(r, a, b) <==> Reaches(Eliminate(Eliminate(r, x), c), a, b)
  {
    EliminationKeepsReach(r, x, a, b);
    EliminationKeepsReach(Eliminate(r, x), c, a, b);
  }

  /** Between all other vertices the detour means: `m` and `t` come before `e`. */
  lemma DetourMeans(r: Relation, t: string, c: string, m: string, x: string, e: string)
    requires Untouched(r, x) && Untouched(r, c) && x !in {t, c, m, e} && c !in {t, m, e}
    ensures forall a, b :: a !in {c, x} && b !in {c, x} ==>
      (Reaches(Detour(r, t, c, m, x, e), a, b) <==> Reaches(r + {(m, e), (t, e)}, a, b))
    ensures Acyclic(Detour(r, t, c, m, x, e)) <==> Acyclic(r + {(m, e), (t, e)})
  {
    var d := Detour(r, t, c, m, x, e);
    NoSelfLoops(r, t, c, m, x, e);
    EliminateJoin(r, t, c, m, x, e);
    EliminateWaiter(r, t, c, m, e);
    EliminationKeepsAcyclic(d, x);
    EliminationKeepsAcyclic(Bridge(r, t, c, m, e), c);
    forall a, b | a !in {c, x} && b !in {c, x}
      ensures Reaches(d, a, b) <==> Reaches(r + {(m, e), (t, e)}, a, b)
    {
      TwiceEliminatedReach(d, x, c, a, b);
    }
  }
}
