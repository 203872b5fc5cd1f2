/** PipelineBuilder and the two rewrites the adversarial pipeline makes on it
    (gigaevo/entrypoint/default_pipelines.py, gigaevo/adversarial/asymmetric_pipeline.py). */
module PipelineBuilder {
  import opened Prelude
  import opened Digraph
  import opened PipelineGraph

  const CALL_VALIDATOR := "CallValidatorFunction"
  const PARSE_METRICS := "ParseMetricsStage"
  const MERGE_METRICS := "MergeMetricsStage"
  const ENSURE_METRICS := "EnsureMetricsStage"
  const MERGE_COVERAGE := "MergeCoverageMetricsStage"
  const DG_TRACKER := "DGTrackerStage"
  const VALIDATION_RESULT := "validation_result"

  function CoverageStage(role: Role): string {
    if role == Improver then "ComputeDWinsCountStage" else "ComputeGResistedCountStage"
  }

  predicate ReadsValidator(e: Edge) {
    e.source == CALL_VALIDATOR && e.input == VALIDATION_RESULT
  }

  /** Consumers of the validation result read it from the parse stage. */
  function Rewire(e: Edge): Edge {
    if ReadsValidator(e) then Edge(PARSE_METRICS, e.destination, VALIDATION_RESULT) else e
  }

  function RewireAll(edges: seq<Edge>): seq<Edge> {
    seq(|edges|, i requires 0 <= i < |edges| => Rewire(edges[i]))
  }

  function InsertParse(g: Graph): Graph {
    var rewired := AddStage(g, PARSE_METRICS).(edges := RewireAll(g.edges));
    AddDep(AddEdge(rewired, Edge(CALL_VALIDATOR, PARSE_METRICS, "raw_validator_output")),
           PARSE_METRICS, Dep(CALL_VALIDATOR, OnSuccess))
  }

  function AddCoverage(g: Graph, role: Role): Graph {
    var cov := CoverageStage(role);
    var g1 := AddDep(AddStage(g, cov), cov, Dep(DG_TRACKER, OnSuccess));
    var g2 := RemoveEdge(AddStage(g1, MERGE_COVERAGE), MERGE_METRICS, ENSURE_METRICS);
    AddEdge(AddEdge(AddEdge(g2, Edge(MERGE_METRICS, MERGE_COVERAGE, "first")),
                    Edge(cov, MERGE_COVERAGE, "second")),
            Edge(MERGE_COVERAGE, ENSURE_METRICS, "candidate"))
  }

  /** All edges but those between these two stages, in their order. */
  ghost predicate WithoutEdge(before: seq<Edge>, after: seq<Edge>, source: string, destination: string) {
    exists at :: Picks(before, at, after) && forall i: nat :: i in at <==>
      i < |before| && !(before[i].source == source && before[i].destination == destination)
  }

  /** All edges that do not touch the stage, in their order. */
  ghost predicate WithoutStage(before: seq<Edge>, after: seq<Edge>, name: string) {
    exists at :: Picks(before, at, after) && forall i: nat :: i in at <==>
      i < |before| && before[i].source != name && before[i].destination != name
  }

  /** All dependencies on other stages, in their order. */
  ghost predicate WithoutDeps(before: seq<Dep>, after: seq<Dep>, name: string) {
    exists at :: Picks(before, at, after) && forall i: nat :: i in at <==> i < |before| && before[i].stage != name
  }

  ghost predicate WithoutDep(before: seq<Dep>, after: seq<Dep>, dep: Dep) {
    exists at :: Picks(before, at, after) && forall i: nat :: i in at <==> i < |before| && before[i] != dep
  }

  /** The list of dependencies of a stage, empty if it has none. */
  function DepsOf(deps: map<string, seq<Dep>>, stage: string): seq<Dep> {
    if stage in deps then deps[stage] else []
  }

  lemma WithoutEdgeFilter(edges: seq<Edge>, source: string, destination: string)
    ensures WithoutEdge(edges, Filter(edges, (e: Edge) => !(e.source == source && e.destination == destination)),
                        source, destination)
  {
    var at := FilterPicks(edges, (e: Edge) => !(e.source == source && e.destination == destination));
  }

  lemma WithoutStageFilter(edges: seq<Edge>, name: string)
    ensures WithoutStage(edges, Filter(edges, e => Avoids(e, name)), name)
  {
    var at := FilterPicks(edges, e => Avoids(e, name));
  }

  lemma WithoutDepsFilter(list: seq<Dep>, name: string)
    ensures WithoutDeps(list, Filter(list, (d: Dep) => d.stage != name), name)
  {
    var at := FilterPicks(list, (d: Dep) => d.stage != name);
  }

  /** What removing a stage leaves, arrows included. */
  ghost predicate StageRemoved(g: Graph, h: Graph, name: string) {
    && h.nodes == g.nodes - {name} && WithoutStage(g.edges, h.edges, name)
    && h.deps.Keys == g.deps.Keys - {name}
    && (forall s :: s in h.deps ==> WithoutDeps(g.deps[s], h.deps[s], name))
    && forall a, b :: (a, b) in Arrows(h) <==> (a, b) in Arrows(g) && a != name && b != name
  }

  lemma RemoveStageLeaves(g: Graph, name: string)
    ensures StageRemoved(g, PipelineGraph.RemoveStage(g, name), name)
  {
    var h := PipelineGraph.RemoveStage(g, name);
    WithoutStageFilter(g.edges, name);
    forall s | s in h.deps ensures WithoutDeps(g.deps[s], h.deps[s], name) {
      WithoutDepsFilter(g.deps[s], name);
    }
    forall a, b ensures (a, b) in Arrows(h) <==> (a, b) in Arrows(g) && a != name && b != name {
      RemoveStageArrows(g, name, a, b);
    }
  }

  /** The coverage stage of the role runs after the tracker, and its output is merged as the
      second dictionary between merge and ensure. */
  ghost predicate CoverageAdded(g: Graph, h: Graph, role: Role) {
    var cov := if role == Improver then "ComputeDWinsCountStage" else "ComputeGResistedCountStage";
    && h.nodes == g.nodes + {cov, "MergeCoverageMetricsStage"}
    && h.deps == g.deps[cov := DepsOf(g.deps, cov) + [Dep("DGTrackerStage", OnSuccess)]]
    && exists kept ::
         && WithoutEdge(g.edges, kept, "MergeMetricsStage", "EnsureMetricsStage")
         && h.edges == kept + [Edge("MergeMetricsStage", "MergeCoverageMetricsStage", "first"),
                               Edge(cov, "MergeCoverageMetricsStage", "second"),
                               Edge("MergeCoverageMetricsStage", "EnsureMetricsStage", "candidate")]
  }

  lemma AddCoverageLeaves(g: Graph, role: Role)
    ensures CoverageAdded(g, AddCoverage(g, role), role)
  {
    var kept := RemoveEdge(g, MERGE_METRICS, ENSURE_METRICS).edges;
    WithoutEdgeFilter(g.edges, MERGE_METRICS, ENSURE_METRICS);
    assert WithoutEdge(g.edges, kept, "MergeMetricsStage", "EnsureMetricsStage");
    var dep := Dep(DG_TRACKER, OnSuccess);
    assert AddCoverage(g, role).deps == AddDep(g, CoverageStage(role), dep).deps;
    assert [] + [dep] == [dep];
    assert AddCoverage(g, role).edges ==
           kept + [Edge(MERGE_METRICS, MERGE_COVERAGE, "first"),
                   Edge(CoverageStage(role), MERGE_COVERAGE, "second"),
                   Edge(MERGE_COVERAGE, ENSURE_METRICS, "candidate")];
  }

  lemma AddStageUndone(g: Graph, name: string)
    requires Fresh(g, name)
    ensures PipelineGraph.RemoveStage(PipelineGraph.AddStage(g, name), name) == g
  {
    RemoveUndoesAdd(g, name, [], []);
    var h := PipelineGraph.RemoveStage(PipelineGraph.AddStage(g, name), name);
    var k := PipelineGraph.RemoveStage(Graph(g.nodes + {name}, g.edges + [], g.deps[name := []]), name);
    assert g.edges + [] == g.edges;
    assert h.deps == k.deps;
  }

  /** Removing a dependency touches no other arrow. */
  lemma RemoveDepKeepsOthers(g: Graph, stage: string, dep: Dep)
    ensures Arrows(RemoveDep(g, stage, dep)) <= Arrows(g)
    ensures forall a, b :: (a, b) != (dep.stage, stage) ==>
      ((a, b) in Arrows(RemoveDep(g, stage, dep)) <==> (a, b) in Arrows(g))
  {
    if stage in g.deps {
      if dep in g.deps[stage] {
        forall a, b ensures (a, b) in Arrows(RemoveDep(g, stage, dep)) ==> (a, b) in Arrows(g)
                    ensures (a, b) != (dep.stage, stage) ==>
                       ((a, b) in Arrows(RemoveDep(g, stage, dep)) <==> (a, b) in Arrows(g))
        {
          RemoveDepArrows(g, stage, dep, a, b);
        }
        forall e | e in Arrows(RemoveDep(g, stage, dep)) ensures e in Arrows(g) {
          RemoveDepArrows(g, stage, dep, e.0, e.1);
        }
      } else {
        FilterAll(g.deps[stage], d => d != dep);
        assert RemoveDep(g, stage, dep).deps == g.deps;
      }
    }
  }

  class Builder {
    var nodes: set<string>
    var dataFlowEdges: seq<Edge>
    var deps: map<string, seq<Dep>>

    function Contents(): Graph
      reads this
    {
      Graph(nodes, dataFlowEdges, deps)
    }

    constructor ()
      ensures Contents() == Graph({}, [], map[])
    {
      nodes, dataFlowEdges, deps := {}, [], map[];
    }

    method AddStage(name: string)
      modifies this
      ensures Contents() == PipelineGraph.AddStage(old(Contents()), name)
      ensures nodes == old(nodes) + {name} && dataFlowEdges == old(dataFlowEdges) && deps == old(deps)
      ensures Arrows(Contents()) == old(Arrows(Contents()))
      ensures Fresh(old(Contents()), name) ==> PipelineGraph.RemoveStage(Contents(), name) == old(Contents())
    {
      if Fresh(Contents(), name) {
        AddStageUndone(Contents(), name);
      }
      nodes := nodes + {name};
    }

    method RemoveStage(name: string)
      modifies this
      ensures Contents() == PipelineGraph.RemoveStage(old(Contents()), name)
      ensures StageRemoved(old(Contents()), Contents(), name)
    {
      RemoveStageLeaves(Contents(), name);
      nodes := nodes - {name};
      dataFlowEdges := Filter(dataFlowEdges, e => Avoids(e, name));
      deps := deps - {name};
      DropDepsOn(name);
      assert deps == PipelineGraph.RemoveStage(old(Contents()), name).deps;
    }

    /** The loop over the dependency lists of the remaining stages. */
    method DropDepsOn(name: string)
      modifies this`deps
      ensures deps == map s | s in old(deps) :: Filter(old(deps)[s], (d: Dep) => d.stage != name)
    {
      var todo := deps.Keys;
      while todo != {}
        invariant todo <= old(deps).Keys && deps.Keys == old(deps).Keys
        invariant forall s :: s in old(deps) ==>
          deps[s] == if s in todo then old(deps)[s] else Filter(old(deps)[s], (d: Dep) => d.stage != name)
        decreases todo
      {
        var stage :| stage in todo;
        deps := deps[stage := Filter(deps[stage], (d: Dep) => d.stage != name)];
        todo := todo - {stage};
      }
    }

    method AddDataFlowEdge(source: string, destination: string, input: string)
      modifies this`dataFlowEdges
      ensures Contents() == AddEdge(old(Contents()), Edge(source, destination, input))
      ensures dataFlowEdges == old(dataFlowEdges) + [Edge(source, destination, input)]
      ensures Arrows(Contents()) == old(Arrows(Contents())) + {(source, destination)}
      ensures Acyclic(Arrows(Contents())) <==>
        old(Acyclic(Arrows(Contents()))) && !ReachesOrIs(old(Arrows(Contents())), destination, source)
    {
      AddEdgeArrows(Contents(), Edge(source, destination, input));
      dataFlowEdges := dataFlowEdges + [Edge(source, destination, input)];
    }

    method RemoveDataFlowEdge(source: string, destination: string)
      modifies this`dataFlowEdges
      ensures Contents() == RemoveEdge(old(Contents()), source, destination)
      ensures WithoutEdge(old(dataFlowEdges), dataFlowEdges, source, destination)
      ensures forall a, b :: (a, b) in Arrows(Contents()) <==>
        (a, b) in old(Arrows(Contents())) && ((a, b) == (source, destination) ==> DepArrow(old(Contents()), a, b))
    {
      forall a, b { RemoveEdgeArrows(Contents(), source, destination, a, b); }
      WithoutEdgeFilter(dataFlowEdges, source, destination);
      dataFlowEdges := Filter(dataFlowEdges, (e: Edge) => !(e.source == source && e.destination == destination));
    }

    method AddExecDep(stage: string, dep: Dep)
      modifies this`deps
      ensures Contents() == AddDep(old(Contents()), stage, dep)
      ensures deps == old(deps)[stage := DepsOf(old(deps), stage) + [dep]]
      ensures Arrows(Contents()) == old(Arrows(Contents())) + {(dep.stage, stage)}
      ensures Acyclic(Arrows(Contents())) <==>
        old(Acyclic(Arrows(Contents()))) && !ReachesOrIs(old(Arrows(Contents())), stage, dep.stage)
    {
      AddDepArrows(Contents(), stage, dep);
      if stage !in deps {
        deps := deps[stage := []];
        assert deps[stage] + [dep] == [dep];
      }
      deps := deps[stage := deps[stage] + [dep]];
    }

    method RemoveExecDep(stage: string, dep: Dep)
      modifies this`deps
      ensures Contents() == RemoveDep(old(Contents()), stage, dep)
      ensures stage !in old(deps) ==> deps == old(deps)
      ensures stage in old(deps) ==>
        && stage in deps && deps == old(deps)[stage := deps[stage]]
        && WithoutDep(old(deps)[stage], deps[stage], dep)
      ensures Arrows(Contents()) <= old(Arrows(Contents()))
      ensures forall a, b :: (a, b) != (dep.stage, stage) ==>
        ((a, b) in Arrows(Contents()) <==> (a, b) in old(Arrows(Contents())))
    {
      RemoveDepKeepsOthers(Contents(), stage, dep);
      if stage in deps {
        ghost var at := FilterPicks(deps[stage], d => d != dep);
        deps := deps[stage := Filter(deps[stage], d => d != dep)];
      }
    }

    method InsertParseMetricsStage()
      modifies this
      ensures Contents() == InsertParse(old(Contents()))
      ensures nodes == old(nodes) + {"ParseMetricsStage"}
      ensures |dataFlowEdges| == |old(dataFlowEdges)| + 1
        && dataFlowEdges[|old(dataFlowEdges)|] ==
           Edge("CallValidatorFunction", "ParseMetricsStage", "raw_validator_output")
      ensures forall i :: 0 <= i < |old(dataFlowEdges)| ==>
        var e := old(dataFlowEdges)[i];
        dataFlowEdges[i] ==
          if e.source == "CallValidatorFunction" && e.input == "validation_result"
          then Edge("ParseMetricsStage", e.destination, "validation_result") else e
      ensures deps == old(deps)["ParseMetricsStage" :=
        DepsOf(old(deps), "ParseMetricsStage") + [Dep("CallValidatorFunction", OnSuccess)]]
    {
      AddStage(PARSE_METRICS);
      var newEdges := [];
      for i := 0 to |dataFlowEdges|
        invariant newEdges == RewireAll(dataFlowEdges[..i])
        invariant Contents() == PipelineGraph.AddStage(old(Contents()), PARSE_METRICS)
      {
        var e := dataFlowEdges[i];
        if e.source == CALL_VALIDATOR && e.input == VALIDATION_RESULT {
          newEdges := newEdges + [Edge(PARSE_METRICS, e.destination, VALIDATION_RESULT)];
        } else {
          newEdges := newEdges + [e];
        }
        assert dataFlowEdges[..i + 1] == dataFlowEdges[..i] + [e];
      }
      assert dataFlowEdges[..|dataFlowEdges|] == dataFlowEdges;
      dataFlowEdges := newEdges;
      AddDataFlowEdge(CALL_VALIDATOR, PARSE_METRICS, "raw_validator_output");
      AddExecDep(PARSE_METRICS, Dep(CALL_VALIDATOR, OnSuccess));
    }

    method AddTrackerCoverageStages(role: Role)
      modifies this
      ensures Contents() == AddCoverage(old(Contents()), role)
      ensures CoverageAdded(old(Contents()), Contents(), role)
    {
      AddCoverageLeaves(Contents(), role);
      var cov := CoverageStage(role);
      AddStage(cov);
      AddExecDep(cov, Dep(DG_TRACKER, OnSuccess));
      AddStage(MERGE_COVERAGE);
      RemoveDataFlowEdge(MERGE_METRICS, ENSURE_METRICS);
      AddDataFlowEdge(MERGE_METRICS, MERGE_COVERAGE, "first");
      AddDataFlowEdge(cov, MERGE_COVERAGE, "second");
      AddDataFlowEdge(MERGE_COVERAGE, ENSURE_METRICS, "candidate");
    }
  }
}
