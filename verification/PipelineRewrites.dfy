/** What the two pipeline rewrites keep: eliminating the stages they insert gives back
    the arrows the graph had (gigaevo/adversarial/asymmetric_pipeline.py). */
module PipelineRewrites {
  import opened Prelude
  import opened Digraph
  import opened PipelineGraph
  import opened PipelineBuilder

  // ----- Inserting the parse stage -----

  ghost predicate FeedsConsumer(g: Graph, b: string) {
    exists e :: e in g.edges && ReadsValidator(e) && e.destination == b
  }

  lemma RewiredEdges(edges: seq<Edge>, e: Edge)
    ensures e in RewireAll(edges) <==> exists o :: o in edges && Rewire(o) == e
  {
    if e in RewireAll(edges) {
      var i :| 0 <= i < |edges| && RewireAll(edges)[i] == e;
      assert edges[i] in edges;
    }
    if o :| o in edges && Rewire(o) == e {
      var i :| 0 <= i < |edges| && edges[i] == o;
      assert RewireAll(edges)[i] == e;
    }
  }

  /** The arrows between old stages: those that were there, except that the validation
      result no longer comes straight from the validator. */
  lemma InsertedOldArrow(g: Graph, a: string, b: string)
    requires Fresh(g, PARSE_METRICS) && a != PARSE_METRICS && b != PARSE_METRICS
    ensures (a, b) in Arrows(InsertParse(g)) ==> (a, b) in Arrows(g)
    ensures (a, b) in Arrows(g) ==> (a, b) in Arrows(InsertParse(g)) || (a == CALL_VALIDATOR && FeedsConsumer(g, b))
  {
    var h := InsertParse(g);
    ArrowsAre(g, a, b);
    ArrowsAre(h, a, b);
    assert DepArrow(h, a, b) <==> DepArrow(g, a, b);
    if DataArrow(h, a, b) {
      var e :| e in h.edges && e.source == a && e.destination == b;
      RewiredEdges(g.edges, e);
    }
    if DataArrow(g, a, b) {
      var e :| e in g.edges && e.source == a && e.destination == b;
      RewiredEdges(g.edges, Rewire(e));
      assert Rewire(e) in h.edges;
    }
  }

  lemma ParseStageArrows(g: Graph, x: string)
    requires Fresh(g, PARSE_METRICS)
    ensures (x, PARSE_METRICS) in Arrows(InsertParse(g)) <==> x == CALL_VALIDATOR
    ensures (PARSE_METRICS, x) in Arrows(InsertParse(g)) <==> FeedsConsumer(g, x)
  {
    var h := InsertParse(g);
    var raw := Edge(CALL_VALIDATOR, PARSE_METRICS, "raw_validator_output");
    assert h.edges == RewireAll(g.edges) + [raw];
    assert h.deps == g.deps[PARSE_METRICS := [Dep(CALL_VALIDATOR, OnSuccess)]];
    ArrowsAre(h, x, PARSE_METRICS);
    ArrowsAre(h, PARSE_METRICS, x);
    assert raw in h.edges;
    forall e | e in RewireAll(g.edges)
      ensures e.destination != PARSE_METRICS && (e.source == PARSE_METRICS ==> FeedsConsumer(g, e.destination)) {
      RewiredEdges(g.edges, e);
    }
    if FeedsConsumer(g, x) {
      var e :| e in g.edges && ReadsValidator(e) && e.destination == x;
      RewiredEdges(g.edges, Rewire(e));
      assert Rewire(e) in h.edges;
    }
  }

  lemma ConsumerArrow(g: Graph, b: string)
    requires FeedsConsumer(g, b)
    ensures (CALL_VALIDATOR, b) in Arrows(g)
  {
    var e :| e in g.edges && ReadsValidator(e) && e.destination == b;
    ArrowsAre(g, CALL_VALIDATOR, b);
    assert DataArrow(g, CALL_VALIDATOR, b);
  }

  lemma ParseEliminates(g: Graph)
    requires Fresh(g, PARSE_METRICS)
    ensures Eliminate(Arrows(InsertParse(g)), PARSE_METRICS) == Arrows(g)
  {
    var r := Arrows(InsertParse(g));
    forall a, b ensures (a, b) in Eliminate(r, PARSE_METRICS) <==> (a, b) in Arrows(g) {
      EliminateMember(r, PARSE_METRICS, a, b);
      FreshHasNoArrows(g, PARSE_METRICS, a);
      FreshHasNoArrows(g, PARSE_METRICS, b);
      if a != PARSE_METRICS && b != PARSE_METRICS {
        ParseStageArrows(g, a);
        ParseStageArrows(g, b);
        InsertedOldArrow(g, a, b);
        if FeedsConsumer(g, b) { ConsumerArrow(g, b); }
      }
    }
  }

  /** Inserting the parse stage into any graph that does not mention it: which old stage
      can reach which does not change, a cycle neither appears nor disappears, no
      validation result leaves the validator directly, and every consumer still gets
      its validation result, now from a stage that runs after the validator succeeded. */
  lemma InsertParseKeepsMeaning(g: Graph)
    requires Fresh(g, PARSE_METRICS)
    ensures forall a, b :: a != PARSE_METRICS && b != PARSE_METRICS ==>
      (Reaches(Arrows(InsertParse(g)), a, b) <==> Reaches(Arrows(g), a, b))
    ensures Acyclic(Arrows(InsertParse(g))) <==> Acyclic(Arrows(g))
    ensures forall e :: e in InsertParse(g).edges ==> !ReadsValidator(e)
    ensures forall e :: e in g.edges && ReadsValidator(e) ==>
      Edge(PARSE_METRICS, e.destination, VALIDATION_RESULT) in InsertParse(g).edges
    ensures forall e :: e in g.edges && !ReadsValidator(e) ==> e in InsertParse(g).edges
    ensures Reaches(Arrows(InsertParse(g)), CALL_VALIDATOR, PARSE_METRICS)
  {
    var r := Arrows(InsertParse(g));
    ParseEliminates(g);
    ParseStageArrows(g, PARSE_METRICS);
    ParseStageArrows(g, CALL_VALIDATOR);
    EdgeReaches(r, CALL_VALIDATOR, PARSE_METRICS);
    EliminationKeepsAcyclic(r, PARSE_METRICS);
    forall a, b | a != PARSE_METRICS && b != PARSE_METRICS
      ensures Reaches(r, a, b) <==> Reaches(Arrows(g), a, b)
    {
      EliminationKeepsReach(r, PARSE_METRICS, a, b);
    }
    forall e | e in InsertParse(g).edges ensures !ReadsValidator(e) {
      RewiredEdges(g.edges, e);
    }
    forall e | e in g.edges ensures Rewire(e) in InsertParse(g).edges {
      RewiredEdges(g.edges, Rewire(e));
    }
  }

  // ----- Adding the coverage stages -----

  /** The arrows that stay: all but the direct data edge from merge to ensure. */
  function Kept(g: Graph): Relation {
    Arrows(RemoveEdge(g, MERGE_METRICS, ENSURE_METRICS))
  }

  predicate NewData(cov: string, a: string, b: string) {
    || (a == MERGE_METRICS && b == MERGE_COVERAGE)
    || (a == cov && b == MERGE_COVERAGE)
    || (a == MERGE_COVERAGE && b == ENSURE_METRICS)
  }

  lemma CoverageDataArrow(g: Graph, role: Role, a: string, b: string)
    ensures DataArrow(AddCoverage(g, role), a, b) <==>
            DataArrow(RemoveEdge(g, MERGE_METRICS, ENSURE_METRICS), a, b) || NewData(CoverageStage(role), a, b)
  {
    var h, k, cov := AddCoverage(g, role), RemoveEdge(g, MERGE_METRICS, ENSURE_METRICS), CoverageStage(role);
    var added := [Edge(MERGE_METRICS, MERGE_COVERAGE, "first"), Edge(cov, MERGE_COVERAGE, "second"),
                  Edge(MERGE_COVERAGE, ENSURE_METRICS, "candidate")];
    assert h.edges == k.edges + added;
    if NewData(cov, a, b) {
      var i :=
        if a == MERGE_METRICS && b == MERGE_COVERAGE then 0
        else if a == cov && b == MERGE_COVERAGE then 1
        else 2;
      assert added[i] in h.edges;
    }
    if DataArrow(k, a, b) {
      var e :| e in k.edges && e.source == a && e.destination == b;
      assert e in h.edges;
    }
  }

  lemma CoverageDepArrow(g: Graph, role: Role, a: string, b: string)
    requires Fresh(g, CoverageStage(role))
    ensures DepArrow(AddCoverage(g, role), a, b) <==> DepArrow(g, a, b) || (a, b) == (DG_TRACKER, CoverageStage(role))
  {
    var h, cov := AddCoverage(g, role), CoverageStage(role);
    assert h.deps == g.deps[cov := [Dep(DG_TRACKER, OnSuccess)]];
    assert Dep(DG_TRACKER, OnSuccess) in h.deps[cov];
  }

  lemma CoverageArrows(g: Graph, role: Role)
    requires Fresh(g, CoverageStage(role)) && Fresh(g, MERGE_COVERAGE)
    ensures Arrows(AddCoverage(g, role)) ==
            Detour(Kept(g), DG_TRACKER, CoverageStage(role), MERGE_METRICS, MERGE_COVERAGE, ENSURE_METRICS)
  {
    var h, k, cov := AddCoverage(g, role), RemoveEdge(g, MERGE_METRICS, ENSURE_METRICS), CoverageStage(role);
    forall a, b
      ensures (a, b) in Arrows(h) <==>
        (a, b) in Detour(Kept(g), DG_TRACKER, cov, MERGE_METRICS, MERGE_COVERAGE, ENSURE_METRICS) {
      ArrowsAre(h, a, b);
      ArrowsAre(k, a, b);
      CoverageDataArrow(g, role, a, b);
      CoverageDepArrow(g, role, a, b);
    }
  }

  /** The only old arrow that can go is the one from merge to ensure. */
  lemma KeptArrows(g: Graph, a: string, b: string)
    ensures (a, b) in Kept(g) ==> (a, b) in Arrows(g)
    ensures (a, b) in Arrows(g) ==> (a, b) in Kept(g) || (a, b) == (MERGE_METRICS, ENSURE_METRICS)
  {
    var k := RemoveEdge(g, MERGE_METRICS, ENSURE_METRICS);
    FilterMember(g.edges, (e: Edge) => !(e.source == MERGE_METRICS && e.destination == ENSURE_METRICS));
    ArrowsAre(g, a, b);
    ArrowsAre(k, a, b);
    if DataArrow(g, a, b) && (a, b) != (MERGE_METRICS, ENSURE_METRICS) {
      var e :| e in g.edges && e.source == a && e.destination == b;
      assert e in k.edges;
    }
  }

  lemma FreshStaysUntouched(g: Graph, n: string)
    requires Fresh(g, n)
    ensures Untouched(Kept(g), n)
  {
    forall x ensures (x, n) !in Kept(g) && (n, x) !in Kept(g) {
      KeptArrows(g, x, n);
      KeptArrows(g, n, x);
      FreshHasNoArrows(g, n, x);
    }
  }

  /** The old arrows with merge and the tracker before ensure. */
  function Bridged(g: Graph): Relation {
    Arrows(g) + {(MERGE_METRICS, ENSURE_METRICS), (DG_TRACKER, ENSURE_METRICS)}
  }

  lemma BridgedIsKept(g: Graph)
    ensures Bridged(g) == Kept(g) + {(MERGE_METRICS, ENSURE_METRICS), (DG_TRACKER, ENSURE_METRICS)}
  {
    forall a, b
      ensures (a, b) in Bridged(g) <==>
        (a, b) in Kept(g) + {(MERGE_METRICS, ENSURE_METRICS), (DG_TRACKER, ENSURE_METRICS)} {
      KeptArrows(g, a, b);
    }
  }

  lemma StageNamesDiffer(role: Role)
    ensures MERGE_COVERAGE !in {DG_TRACKER, CoverageStage(role), MERGE_METRICS, ENSURE_METRICS}
    ensures CoverageStage(role) !in {DG_TRACKER, MERGE_METRICS, ENSURE_METRICS}
    ensures DG_TRACKER != ENSURE_METRICS
  {
    assert |MERGE_COVERAGE| == 25 && |DG_TRACKER| == 14 && |MERGE_METRICS| == 17 && |ENSURE_METRICS| == 18;
    assert |CoverageStage(Improver)| == 22 && |CoverageStage(Constructor)| == 26;
  }

  /** Whatever the graph was, after the rewrite merge still reaches ensure, no old stage
      loses a stage it reached, reachability among the old stages is exactly that of the
      old arrows with merge and the tracker before ensure, and so is acyclicity. */
  lemma CoverageKeepsMeaning(g: Graph, role: Role)
    requires Fresh(g, CoverageStage(role)) && Fresh(g, MERGE_COVERAGE)
    ensures forall a, b ::
        a !in {CoverageStage(role), MERGE_COVERAGE} && b !in {CoverageStage(role), MERGE_COVERAGE} ==>
      (Reaches(Arrows(AddCoverage(g, role)), a, b) <==> Reaches(Bridged(g), a, b))
    ensures Acyclic(Arrows(AddCoverage(g, role))) <==> Acyclic(Bridged(g))
    ensures forall a, b :: Reaches(Arrows(g), a, b) ==> Reaches(Bridged(g), a, b)
    ensures Reaches(Arrows(AddCoverage(g, role)), MERGE_METRICS, ENSURE_METRICS)
    ensures Reaches(Arrows(AddCoverage(g, role)), DG_TRACKER, ENSURE_METRICS)
  {
    StageNamesDiffer(role);
    CoverageArrows(g, role);
    FreshStaysUntouched(g, MERGE_COVERAGE);
    FreshStaysUntouched(g, CoverageStage(role));
    BridgedIsKept(g);
    DetourMeans(Kept(g), DG_TRACKER, CoverageStage(role), MERGE_METRICS, MERGE_COVERAGE, ENSURE_METRICS);
    forall a, b | Reaches(Arrows(g), a, b) ensures Reaches(Bridged(g), a, b) {
      SubRelationReaches(Arrows(g), Bridged(g), a, b);
    }
    EdgeReaches(Bridged(g), MERGE_METRICS, ENSURE_METRICS);
    EdgeReaches(Bridged(g), DG_TRACKER, ENSURE_METRICS);
  }

  /** In the pipeline the rewrite is made for, where merge feeds ensure directly, the
      result is acyclic exactly when the graph was and ensure does not lead to the
      tracker; and the direct edge is gone. */
  lemma CoverageAcyclicIff(g: Graph, role: Role)
    requires Fresh(g, CoverageStage(role)) && Fresh(g, MERGE_COVERAGE)
    requires DataArrow(g, MERGE_METRICS, ENSURE_METRICS)
    ensures Acyclic(Arrows(AddCoverage(g, role))) <==>
            Acyclic(Arrows(g)) && !Reaches(Arrows(g), ENSURE_METRICS, DG_TRACKER)
    ensures !DataArrow(AddCoverage(g, role), MERGE_METRICS, ENSURE_METRICS)
  {
    StageNamesDiffer(role);
    CoverageKeepsMeaning(g, role);
    ArrowsAre(g, MERGE_METRICS, ENSURE_METRICS);
    assert Bridged(g) == Arrows(g) + {(DG_TRACKER, ENSURE_METRICS)};
    AddEdgeAcyclicIff(Arrows(g), DG_TRACKER, ENSURE_METRICS);
    CoverageDataArrow(g, role, MERGE_METRICS, ENSURE_METRICS);
    FilterMember(g.edges, (e: Edge) => !(e.source == MERGE_METRICS && e.destination == ENSURE_METRICS));
  }
}
