/** The stage graph a pipeline builder assembles: data-flow edges, execution-order
    dependencies, and the arrow relation both induce
    (gigaevo/entrypoint/default_pipelines.py, gigaevo/programs/dag/automata.py). */
module PipelineGraph {
  import opened Prelude
  import opened Digraph

  datatype Edge = Edge(source: string, destination: string, input: string)

  datatype Condition = OnSuccess | OnFailure | Always

  datatype Dep = Dep(stage: string, condition: Condition)

  datatype Graph = Graph(nodes: set<string>, edges: seq<Edge>, deps: map<string, seq<Dep>>)

  // ----- The builder's operations -----

  function AddStage(g: Graph, name: string): Graph {
    g.(nodes := g.nodes + {name})
  }

  function AddEdge(g: Graph, e: Edge): Graph {
    g.(edges := g.edges + [e])
  }

  function RemoveEdge(g: Graph, source: string, destination: string): Graph {
    g.(edges := Filter(g.edges, (e: Edge) => !(e.source == source && e.destination == destination)))
  }

  function AddDep(g: Graph, stage: string, dep: Dep): Graph {
    g.(deps := g.deps[stage := if stage in g.deps then g.deps[stage] + [dep] else [dep]])
  }

  function RemoveDep(g: Graph, stage: string, dep: Dep): Graph {
    if stage in g.deps then g.(deps := g.deps[stage := Filter(g.deps[stage], d => d != dep)]) else g
  }

  predicate Avoids(e: Edge, name: string) {
    e.source != name && e.destination != name
  }

  function RemoveStage(g: Graph, name: string): Graph {
    Graph(g.nodes - {name},
          Filter(g.edges, e => Avoids(e, name)),
          map s | s in g.deps && s != name :: Filter(g.deps[s], (d: Dep) => d.stage != name))
  }

  // ----- What the operations do to the arrows -----

  /** A stage runs after the stages it reads from and the stages it depends on. */
  function Arrows(g: Graph): Relation {
    (set e | e in g.edges :: (e.source, e.destination))
    + (set s, d | s in g.deps && d in g.deps[s] :: (d.stage, s))
  }

  ghost predicate DataArrow(g: Graph, a: string, b: string) {
    exists e :: e in g.edges && e.source == a && e.destination == b
  }

  ghost predicate DepArrow(g: Graph, a: string, b: string) {
    b in g.deps && exists d :: d in g.deps[b] && d.stage == a
  }

  lemma ArrowsAre(g: Graph, a: string, b: string)
    ensures (a, b) in Arrows(g) <==> DataArrow(g, a, b) || DepArrow(g, a, b)
  {
  }

  /** A new data edge adds exactly its arrow, so the graph stays acyclic exactly when its
      end does not already lead to its start. */
  lemma AddEdgeArrows(g: Graph, e: Edge)
    ensures Arrows(AddEdge(g, e)) == Arrows(g) + {(e.source, e.destination)}
    ensures Acyclic(Arrows(AddEdge(g, e))) <==> Acyclic(Arrows(g)) && !ReachesOrIs(Arrows(g), e.destination, e.source)
  {
    var h := AddEdge(g, e);
    assert h.edges[|g.edges|] == e;
    forall a, b ensures (a, b) in Arrows(h) <==> (a, b) in Arrows(g) + {(e.source, e.destination)} {
      ArrowsAre(g, a, b);
      ArrowsAre(h, a, b);
      if DataArrow(g, a, b) {
        var x :| x in g.edges && x.source == a && x.destination == b;
        assert x in h.edges;
      }
    }
    AddEdgeAcyclicIff(Arrows(g), e.source, e.destination);
  }

  /** A new dependency does the same for the arrow from the stage it names. */
  lemma AddDepArrows(g: Graph, stage: string, dep: Dep)
    ensures Arrows(AddDep(g, stage, dep)) == Arrows(g) + {(dep.stage, stage)}
    ensures Acyclic(Arrows(AddDep(g, stage, dep))) <==> Acyclic(Arrows(g)) && !ReachesOrIs(Arrows(g), stage, dep.stage)
  {
    var h := AddDep(g, stage, dep);
    assert dep in h.deps[stage];
    forall a, b ensures (a, b) in Arrows(h) <==> (a, b) in Arrows(g) + {(dep.stage, stage)} {
      ArrowsAre(g, a, b);
      ArrowsAre(h, a, b);
      if DepArrow(g, a, b) {
        var x :| x in g.deps[b] && x.stage == a;
        assert x in h.deps[b];
      }
    }
    AddEdgeAcyclicIff(Arrows(g), dep.stage, stage);
  }

  /** Removing the data edges between two stages removes their arrow, unless a dependency
      draws it too. */
  lemma RemoveEdgeArrows(g: Graph, source: string, destination: string, a: string, b: string)
    ensures (a, b) in Arrows(RemoveEdge(g, source, destination))
      <==> (a, b) in Arrows(g) && ((a, b) == (source, destination) ==> DepArrow(g, a, b))
  {
    var h := RemoveEdge(g, source, destination);
    ArrowsAre(g, a, b);
    ArrowsAre(h, a, b);
    FilterMember(g.edges, (e: Edge) => !(e.source == source && e.destination == destination));
    if DataArrow(g, a, b) && (a, b) != (source, destination) {
      var e :| e in g.edges && e.source == a && e.destination == b;
      assert e in h.edges;
    }
  }

  /** Removing a dependency removes its arrow, unless a data edge or a dependency with
      another condition draws it too. */
  lemma RemoveDepArrows(g: Graph, stage: string, dep: Dep, a: string, b: string)
    requires stage in g.deps && dep in g.deps[stage]
    ensures (a, b) in Arrows(RemoveDep(g, stage, dep))
      <==> (a, b) in Arrows(g) && ((a, b) == (dep.stage, stage) ==>
             DataArrow(g, a, b) || exists d :: d in g.deps[stage] && d != dep && d.stage == a)
  {
    var h := RemoveDep(g, stage, dep);
    ArrowsAre(g, a, b);
    ArrowsAre(h, a, b);
    FilterMember(g.deps[stage], d => d != dep);
    if DepArrow(g, a, b) {
      var d :| d in g.deps[b] && d.stage == a;
      if b != stage || d != dep { assert d in h.deps[b]; }
    }
  }

  /** Removing undoes adding exactly when there was no data edge between the stages. */
  lemma RemoveEdgeUndoesAddIff(g: Graph, e: Edge)
    ensures RemoveEdge(AddEdge(g, e), e.source, e.destination) == g <==> !DataArrow(g, e.source, e.destination)
  {
    var keep := (x: Edge) => !(x.source == e.source && x.destination == e.destination);
    FilterAppend(g.edges, [e], keep);
    FilterMember(g.edges, keep);
    assert Filter([e], keep) == [];
    if !DataArrow(g, e.source, e.destination) {
      FilterAll(g.edges, keep);
    }
  }

  /** The list of a stage after adding and removing a dependency. */
  lemma DepListAfter(g: Graph, stage: string, dep: Dep)
    ensures var h := RemoveDep(AddDep(g, stage, dep), stage, dep);
      h == g.(deps := g.deps[stage := Filter(if stage in g.deps then g.deps[stage] else [], d => d != dep)])
  {
    var keep := (d: Dep) => d != dep;
    var before := if stage in g.deps then g.deps[stage] else [];
    FilterAppend(before, [dep], keep);
    assert Filter([dep], keep) == [];
    var added := AddDep(g, stage, dep);
    assert added.deps[stage] == before + [dep];
    assert Filter(before, keep) + [] == Filter(before, keep);
    assert RemoveDep(added, stage, dep).deps == added.deps[stage := Filter(before + [dep], d => d != dep)];
    assert added.deps[stage := Filter(before, keep)] == g.deps[stage := Filter(before, keep)];
  }

  /** Removing undoes adding exactly when the stage had a list without that dependency:
      a list that adding created stays behind, empty. */
  lemma RemoveDepUndoesAddIff(g: Graph, stage: string, dep: Dep)
    ensures RemoveDep(AddDep(g, stage, dep), stage, dep) == g <==> stage in g.deps && dep !in g.deps[stage]
  {
    DepListAfter(g, stage, dep);
    if stage in g.deps {
      var keep := (d: Dep) => d != dep;
      FilterMember(g.deps[stage], keep);
      if dep !in g.deps[stage] {
        FilterAll(g.deps[stage], keep);
        assert g.deps[stage := g.deps[stage]] == g.deps;
      }
    }
  }

  /** The graph does not mention the name anywhere. */
  ghost predicate Fresh(g: Graph, name: string) {
    && name !in g.nodes && name !in g.deps
    && (forall e :: e in g.edges ==> e.source != name && e.destination != name)
    && forall s, d :: s in g.deps && d in g.deps[s] ==> d.stage != name
  }

  lemma FreshHasNoArrows(g: Graph, name: string, x: string)
    requires Fresh(g, name)
    ensures (name, x) !in Arrows(g) && (x, name) !in Arrows(g)
  {
  }

  /** Removing a stage removes exactly the arrows at that stage. */
  lemma RemoveStageArrows(g: Graph, name: string, a: string, b: string)
    ensures (a, b) in Arrows(RemoveStage(g, name)) <==> (a, b) in Arrows(g) && a != name && b != name
  {
    var h := RemoveStage(g, name);
    ArrowsAre(g, a, b);
    ArrowsAre(h, a, b);
    FilterMember(g.edges, e => Avoids(e, name));
    assert DataArrow(h, a, b) <==> DataArrow(g, a, b) && a != name && b != name by {
      if DataArrow(g, a, b) && a != name && b != name {
        var e :| e in g.edges && e.source == a && e.destination == b;
        assert e in h.edges;
      }
    }
    if b in g.deps && b != name {
      FilterMember(g.deps[b], (d: Dep) => d.stage != name);
      if DepArrow(g, a, b) && a != name {
        var d :| d in g.deps[b] && d.stage == a;
        assert d in h.deps[b];
      }
    }
  }

  /** Removing a stage never creates a cycle. */
  lemma RemoveStageKeepsAcyclic(g: Graph, name: string)
    requires Acyclic(Arrows(g))
    ensures Acyclic(Arrows(RemoveStage(g, name)))
  {
    var h := RemoveStage(g, name);
    forall e | e in Arrows(h) ensures e in Arrows(g) {
      RemoveStageArrows(g, name, e.0, e.1);
    }
    forall a ensures !Reaches(Arrows(h), a, a) {
      if Reaches(Arrows(h), a, a) { SubRelationReaches(Arrows(h), Arrows(g), a, a); }
    }
  }

  /** Removing a stage undoes adding it, whatever edges and dependencies it came with. */
  lemma RemoveUndoesAdd(g: Graph, name: string, es: seq<Edge>, ds: seq<Dep>)
    requires Fresh(g, name)
    requires forall e :: e in es ==> !Avoids(e, name)
    ensures RemoveStage(Graph(g.nodes + {name}, g.edges + es, g.deps[name := ds]), name) == g
  {
    var keep := e => Avoids(e, name);
    FilterAppend(g.edges, es, keep);
    FilterAll(g.edges, keep);
    FilterNone(es, keep);
    forall s | s in g.deps ensures Filter(g.deps[s], (d: Dep) => d.stage != name) == g.deps[s] {
      FilterAll(g.deps[s], (d: Dep) => d.stage != name);
    }
    var h := RemoveStage(Graph(g.nodes + {name}, g.edges + es, g.deps[name := ds]), name);
    assert h.nodes == g.nodes;
    assert h.edges == g.edges;
    assert h.deps == g.deps;
  }
}
