/** CompositionInjectionHook: at most one composed program for each (D, G) pair, ever
    (gigaevo/adversarial/composition_injection.py). */
module CompositionInjection {
  import opened Prelude
  import opened Programs
  import opened DgTracker
  import opened DgTrackerStore
  import opened ProgramStore
  import opened RedisProgramStorage
  import opened OpponentProvider

  /** One injection: the new program, the pair it was made from, and the delta and all
      scores the tracker held at that moment. */
  datatype Composed = Composed(id: Id, d: Id, g: Id, delta: real, scores: map<(Id, Id), real>)

  /** Code composition; `None` when it raises. */
  type ComposeFn = (string, string) -> Option<string>

  /** Program.create_child with one parent, and the metadata of an injection. */
  function Child(id: Id, parent: Program, code: string, d: Id): Program {
    Program(id, code, None, map[], map[],
            map["mutation_type" := "d_improvement", "d_source_id" := d, "g_source_id" := parent.id],
            parent.iteration, Queued,
            Lineage([parent.id], [], Some("d_improvement"), parent.lineage.generation + 1), 0, 0)
  }

  /** The permanent dedup set holds the pairs it was found with and those of the injections
      made since; no pair was injected twice, and none of those found. */
  ghost predicate LedgerMatches(ledger: seq<Composed>, initial: set<string>, injected: set<string>) {
    && (forall i, j :: 0 <= i < j < |ledger| ==> Member(ledger[i].d, ledger[i].g) != Member(ledger[j].d, ledger[j].g))
    && (forall i :: 0 <= i < |ledger| ==> Member(ledger[i].d, ledger[i].g) !in initial)
    && injected == initial + Elements(Members(ledger))
  }

  /** Every injection ever made used the improver with the greatest delta its constructor
      had at that moment. */
  ghost predicate AllWereBest(ledger: seq<Composed>) {
    forall e :: e in ledger ==> IsBestD(e.scores, e.g, e.d, e.delta)
  }

  function Members(ledger: seq<Composed>): seq<string> {
    seq(|ledger|, i requires 0 <= i < |ledger| => Member(ledger[i].d, ledger[i].g))
  }

  /** There are as many composed programs as the dedup set has grown by. */
  lemma AtMostOnce(ledger: seq<Composed>, initial: set<string>, injected: set<string>)
    requires LedgerMatches(ledger, initial, injected)
    ensures |ledger| == |injected| - |initial|
  {
    var ms := Members(ledger);
    DistinctSize(ms);
    assert initial !! Elements(ms);
  }

  lemma LedgerAppend(ledger: seq<Composed>, initial: set<string>, injected: set<string>, e: Composed)
    requires LedgerMatches(ledger, initial, injected) && AllWereBest(ledger)
    requires Member(e.d, e.g) !in injected && IsBestD(e.scores, e.g, e.d, e.delta)
    ensures LedgerMatches(ledger + [e], initial, injected + {Member(e.d, e.g)}) && AllWereBest(ledger + [e])
  {
    assert Members(ledger + [e]) == Members(ledger) + [Member(e.d, e.g)];
    forall i | 0 <= i < |ledger| ensures Member(ledger[i].d, ledger[i].g) != Member(e.d, e.g) {
      assert Members(ledger)[i] in Elements(Members(ledger));
    }
  }

  // ---------------------------------------------------------------- one injection

  /** The tracker's indices and its dedup set, the constructors' store, and every injection
      made so far. */
  datatype World = World(tracker: Indices, injected: set<string>, db: Db, ledger: seq<Composed>)

  /** The hook passes over this constructor: it has no best improver, or that pair was
      injected before, or the improver left the archive, or composition raises. */
  ghost predicate PassesOver(w: World, g: Program, archive: map<Id, Opponent>, compose: ComposeFn) {
    Handled(g, archive, compose, w.tracker.improvements, w.injected)
  }

  /** This injection: the best improver of the constructor, still archived and not injected
      with it before; a child of the constructor with the composed code is stored. */
  ghost predicate Injects(w: World, w': World, g: Program, archive: map<Id, Opponent>, compose: ComposeFn,
                          newId: Id, e: Composed) {
    && e.id == newId && e.g == g.id && e.scores == w.tracker.improvements
    && IsBestD(e.scores, e.g, e.d, e.delta) && Member(e.d, e.g) !in w.injected
    && e.d in archive && compose(g.code, archive[e.d].code).Some?
    && w' == World(w.tracker, w.injected + {Member(e.d, e.g)},
                   ProgramStore.Add(w.db, Child(newId, g, compose(g.code, archive[e.d].code).value, e.d)),
                   w.ledger + [e])
  }

  ghost predicate OneStep(w: World, w': World, g: Program, archive: map<Id, Opponent>, compose: ComposeFn, newId: Id) {
    if PassesOver(w, g, archive, compose) then w' == w
    else exists e :: Injects(w, w', g, archive, compose, newId, e)
  }

  /** One call of inject_all: constructor after constructor. */
  ghost predicate Injections(w: World, w': World, gs: seq<Program>, archive: map<Id, Opponent>, compose: ComposeFn,
                             newIds: seq<Id>)
    requires |newIds| == |gs|
    decreases |gs|
  {
    if gs == [] then w' == w
    else
      var n := |gs| - 1;
      exists m :: Injections(w, m, gs[..n], archive, compose, newIds[..n])
                  && OneStep(m, w', gs[n], archive, compose, newIds[n])
  }

  ghost predicate LedgerOk(w: World, initial: set<string>) {
    LedgerMatches(w.ledger, initial, w.injected) && AllWereBest(w.ledger)
  }

  lemma OneStepKeepsLedger(w: World, w': World, g: Program, archive: map<Id, Opponent>, compose: ComposeFn,
                           newId: Id, initial: set<string>)
    requires LedgerOk(w, initial) && OneStep(w, w', g, archive, compose, newId)
    ensures LedgerOk(w', initial) && w'.tracker == w.tracker && w.ledger <= w'.ledger
    ensures forall e :: e in w'.ledger && e !in w.ledger ==> e.scores == w.tracker.improvements
  {
    if w' != w {
      var e :| Injects(w, w', g, archive, compose, newId, e);
      LedgerAppend(w.ledger, initial, w.injected, e);
    }
  }

  lemma {:induction false} InjectionsKeepLedger(w: World, w': World, gs: seq<Program>, archive: map<Id, Opponent>,
                                                compose: ComposeFn, newIds: seq<Id>, initial: set<string>)
    requires |newIds| == |gs| && Injections(w, w', gs, archive, compose, newIds) && LedgerOk(w, initial)
    ensures LedgerOk(w', initial) && w'.tracker == w.tracker && w.ledger <= w'.ledger
    ensures forall e :: e in w'.ledger && e !in w.ledger ==> e.scores == w.tracker.improvements
    decreases |gs|
  {
    if gs != [] {
      var n := |gs| - 1;
      var m :| Injections(w, m, gs[..n], archive, compose, newIds[..n])
               && OneStep(m, w', gs[n], archive, compose, newIds[n]);
      InjectionsKeepLedger(w, m, gs[..n], archive, compose, newIds[..n], initial);
      OneStepKeepsLedger(m, w', gs[n], archive, compose, newIds[n], initial);
    }
  }

  // ---------------------------------------------------------------- any sequence of calls

  /** A batch for the tracker, a call of inject_all, or any change other users make to the
      constructors' store. */
  datatype Event =
    | Record(batch: seq<Pair>)
    | InjectAll(gs: seq<Program>, archive: map<Id, Opponent>, compose: ComposeFn, newIds: seq<Id>)
    | Store(db: Db)

  ghost predicate Happens(w: World, w': World, event: Event) {
    match event
    case Record(batch) => w' ==
      if AllHaveDelta(batch) then w.(tracker := DgTracker.RecordBatch(w.tracker, batch)) else w
    case InjectAll(gs, archive, compose, newIds) =>
      |newIds| == |gs| && Injections(w, w', gs, archive, compose, newIds)
    case Store(db) => w' == w.(db := db)
  }

  ghost predicate IsRun(ws: seq<World>, events: seq<Event>) {
    |ws| == |events| + 1 && forall i :: 0 <= i < |events| ==> Happens(ws[i], ws[i + 1], events[i])
  }

  /** The scores this injection was chosen by are those the tracker held at some moment of
      the run. */
  ghost predicate ScoredIn(ws: seq<World>, n: nat, e: Composed) {
    exists j :: 0 <= j < n && j < |ws| && e.scores == ws[j].tracker.improvements
  }

  lemma EventKeepsLedger(w: World, w': World, event: Event, initial: set<string>)
    requires LedgerOk(w, initial) && Happens(w, w', event)
    ensures LedgerOk(w', initial)
    ensures forall e :: e in w'.ledger && e !in w.ledger ==> e.scores == w.tracker.improvements
  {
    match event
    case Record(_) =>
    case InjectAll(gs, archive, compose, newIds) =>
      InjectionsKeepLedger(w, w', gs, archive, compose, newIds, initial);
    case Store(_) =>
  }

  lemma {:induction false} RunKeepsLedger(ws: seq<World>, events: seq<Event>, n: nat)
    requires IsRun(ws, events) && ws[0].ledger == [] && n < |ws|
    ensures LedgerOk(ws[n], ws[0].injected)
    ensures forall e :: e in ws[n].ledger ==> ScoredIn(ws, n, e)
  {
    if n == 0 {
      assert Members([]) == [];
    } else {
      RunKeepsLedger(ws, events, n - 1);
      assert Happens(ws[n - 1], ws[n], events[n - 1]);
      EventKeepsLedger(ws[n - 1], ws[n], events[n - 1], ws[0].injected);
      forall e | e in ws[n].ledger ensures ScoredIn(ws, n, e) {
        if e in ws[n - 1].ledger {
          assert ScoredIn(ws, n - 1, e);
        } else {
          assert e.scores == ws[n - 1].tracker.improvements;
        }
      }
    }
  }

  /** Over any sequence of batches, inject_all calls and other changes of the store, from a
      dedup set that may hold pairs of an earlier life: no pair is ever composed twice, none
      of the earlier ones is composed again, the dedup set grows by one for each composed
      program, and each was made with the improver of greatest delta its constructor had
      at that moment. */
  lemma AtMostOnceOverRuns(ws: seq<World>, events: seq<Event>)
    requires IsRun(ws, events) && ws[0].ledger == []
    ensures var w := ws[|events|];
      && (forall i, j :: 0 <= i < j < |w.ledger| ==> (w.ledger[i].d, w.ledger[i].g) != (w.ledger[j].d, w.ledger[j].g))
      && (forall e :: e in w.ledger ==> Member(e.d, e.g) !in ws[0].injected && Member(e.d, e.g) in w.injected)
      && |w.ledger| == |w.injected| - |ws[0].injected|
      && (forall e :: e in w.ledger ==> IsBestD(e.scores, e.g, e.d, e.delta) && ScoredIn(ws, |events|, e))
  {
    RunKeepsLedger(ws, events, |events|);
    var w := ws[|events|];
    AtMostOnce(w.ledger, ws[0].injected, w.injected);
    forall e | e in w.ledger ensures Member(e.d, e.g) !in ws[0].injected && Member(e.d, e.g) in w.injected {
      var i :| 0 <= i < |w.ledger| && w.ledger[i] == e;
      assert Members(w.ledger)[i] == Member(e.d, e.g);
    }
  }

  // ---------------------------------------------------------------- one call, seen by its caller

  /** This injection used the best improver of its constructor, an improver still in
      the archive, and stored a child whose only parent is the constructor. */
  ghost predicate Justified(e: Composed, gs: seq<Program>, archive: map<Id, Opponent>, compose: ComposeFn,
                            improvements: map<(Id, Id), real>, blobs: map<Id, Program>) {
    && e.scores == improvements && IsBestD(improvements, e.g, e.d, e.delta)
    && e.d in archive
    && e.id in blobs && blobs[e.id].id == e.id
    && blobs[e.id].lineage.parents == [e.g]
    && exists g :: g in gs && MadeFrom(blobs[e.id], g, e, archive, compose)
  }

  ghost predicate MadeFrom(p: Program, g: Program, e: Composed, archive: map<Id, Opponent>, compose: ComposeFn)
    requires e.d in archive
  {
    && g.id == e.g
    && p.state == Queued && p.name.None? && p.metrics == map[] && p.stageResults == map[]
    && p.iteration == g.iteration
    && p.lineage == Lineage([g.id], [], Some("d_improvement"), g.lineage.generation + 1)
    && p.metadata == map["mutation_type" := "d_improvement", "d_source_id" := e.d, "g_source_id" := g.id]
    && compose(g.code, archive[e.d].code) == Some(p.code)
  }

  lemma JustifiedKept(e: Composed, gs: seq<Program>, gs': seq<Program>, archive: map<Id, Opponent>, compose: ComposeFn,
                      improvements: map<(Id, Id), real>, blobs: map<Id, Program>, blobs': map<Id, Program>)
    requires Justified(e, gs, archive, compose, improvements, blobs)
    requires forall g :: g in gs ==> g in gs'
    requires e.id in blobs' && blobs'[e.id] == blobs[e.id]
    ensures Justified(e, gs', archive, compose, improvements, blobs')
  {
    var g :| g in gs && MadeFrom(blobs[e.id], g, e, archive, compose);
    assert g in gs';
  }

  ghost predicate AllJustified(es: seq<Composed>, gs: seq<Program>, archive: map<Id, Opponent>, compose: ComposeFn,
                               improvements: map<(Id, Id), real>, blobs: map<Id, Program>) {
    forall e :: e in es ==> Justified(e, gs, archive, compose, improvements, blobs)
  }

  /** One more injection, or none, with a constructor of the list. */
  lemma AllJustifiedStep(es: seq<Composed>, es': seq<Composed>, gs: seq<Program>, g: Program,
                         archive: map<Id, Opponent>,
                         compose: ComposeFn, improvements: map<(Id, Id), real>,
                         blobs: map<Id, Program>, blobs': map<Id, Program>)
    requires AllJustified(es, gs, archive, compose, improvements, blobs)
    requires forall id :: id in blobs ==> id in blobs' && blobs'[id] == blobs[id]
    requires es' == es
             || exists e :: es' == es + [e] && Justified(e, [g], archive, compose, improvements, blobs')
    ensures AllJustified(es', gs + [g], archive, compose, improvements, blobs')
  {
    forall e | e in es' ensures Justified(e, gs + [g], archive, compose, improvements, blobs') {
      if e in es {
        JustifiedKept(e, gs, gs + [g], archive, compose, improvements, blobs, blobs');
      } else {
        JustifiedKept(e, [g], gs + [g], archive, compose, improvements, blobs', blobs');
      }
    }
  }

  /** If the constructor has a best improver that is still in the archive and composes
      with it, then that pair has been injected, now or earlier. */
  ghost predicate Handled(g: Program, archive: map<Id, Opponent>, compose: ComposeFn,
                          improvements: map<(Id, Id), real>, injected: set<string>) {
    forall d, score ::
      IsBestD(improvements, g.id, d, score) && d in archive && compose(g.code, archive[d].code).Some? ==>
      Member(d, g.id) in injected
  }

  ghost predicate AllHandled(gs: seq<Program>, archive: map<Id, Opponent>, compose: ComposeFn,
                             improvements: map<(Id, Id), real>, injected: set<string>) {
    forall g :: g in gs ==> Handled(g, archive, compose, improvements, injected)
  }

  lemma AllHandledStep(gs: seq<Program>, g: Program, archive: map<Id, Opponent>, compose: ComposeFn,
                       improvements: map<(Id, Id), real>, injected: set<string>, more: set<string>)
    requires AllHandled(gs, archive, compose, improvements, injected) && injected <= more
    requires Handled(g, archive, compose, improvements, more)
    ensures AllHandled(gs + [g], archive, compose, improvements, more)
  {
  }

  /** Handling the best improver handles the constructor. */
  lemma BestHandled(g: Program, d: Id, delta: real, archive: map<Id, Opponent>, compose: ComposeFn,
                    improvements: map<(Id, Id), real>, injected: set<string>)
    requires IsBestD(improvements, g.id, d, delta)
    requires d in archive && compose(g.code, archive[d].code).Some? ==> Member(d, g.id) in injected
    ensures Handled(g, archive, compose, improvements, injected)
  {
    forall d', score | IsBestD(improvements, g.id, d', score) ensures d' == d {
      BestDUnique(improvements, g.id, d, delta, d', score);
    }
  }

  /** An injection is justified, handles its constructor and keeps the ledger. */
  lemma InjectsJustified(w: World, w': World, g: Program, archive: map<Id, Opponent>, compose: ComposeFn,
                         newId: Id, e: Composed, initial: set<string>)
    requires Injects(w, w', g, archive, compose, newId, e) && LedgerOk(w, initial)
    ensures !PassesOver(w, g, archive, compose) && OneStep(w, w', g, archive, compose, newId)
    ensures Justified(e, [g], archive, compose, w'.tracker.improvements, w'.db.blobs)
    ensures Handled(g, archive, compose, w'.tracker.improvements, w'.injected)
    ensures LedgerOk(w', initial)
  {
    assert IsBestD(w.tracker.improvements, g.id, e.d, e.delta);
    LedgerAppend(w.ledger, initial, w.injected, e);
    BestHandled(g, e.d, e.delta, archive, compose, e.scores, w'.injected);
    assert g in [g] && MadeFrom(w'.db.blobs[newId], g, e, archive, compose);
  }

  /** What one step does: it may add one justified injection, keeps what is stored, and
      handles its constructor. */
  lemma OneStepEffect(w: World, w': World, g: Program, archive: map<Id, Opponent>, compose: ComposeFn, newId: Id)
    requires OneStep(w, w', g, archive, compose, newId) && newId !in w.db.blobs
    ensures w'.tracker == w.tracker && w.injected <= w'.injected
    ensures w'.ledger == w.ledger
            || exists e :: w'.ledger == w.ledger + [e]
                 && Justified(e, [g], archive, compose, w.tracker.improvements, w'.db.blobs)
    ensures forall id :: id in w.db.blobs ==> id in w'.db.blobs && w'.db.blobs[id] == w.db.blobs[id]
    ensures w'.db.blobs.Keys <= w.db.blobs.Keys + {newId}
    ensures Handled(g, archive, compose, w.tracker.improvements, w'.injected)
  {
    if w' != w {
      var e :| Injects(w, w', g, archive, compose, newId, e);
      BestHandled(g, e.d, e.delta, archive, compose, e.scores, w'.injected);
      assert g in [g] && MadeFrom(w'.db.blobs[newId], g, e, archive, compose);
    }
  }

  /** What a call does. */
  lemma {:induction false} InjectionsEffect(w: World, w': World, gs: seq<Program>, archive: map<Id, Opponent>,
                                            compose: ComposeFn, newIds: seq<Id>)
    requires |newIds| == |gs| && Injections(w, w', gs, archive, compose, newIds)
    requires Distinct(newIds) && Unused(newIds, 0, w.db.blobs)
    ensures w'.tracker == w.tracker && w.ledger <= w'.ledger
    ensures forall id :: id in w'.db.blobs ==> id in w.db.blobs || id in newIds
    ensures AllJustified(w'.ledger[|w.ledger|..], gs, archive, compose, w.tracker.improvements, w'.db.blobs)
    ensures AllHandled(gs, archive, compose, w.tracker.improvements, w'.injected)
    decreases |gs|
  {
    if gs != [] {
      var n := |gs| - 1;
      var g, newId := gs[n], newIds[n];
      var m :| Injections(w, m, gs[..n], archive, compose, newIds[..n]) && OneStep(m, w', g, archive, compose, newId);
      InjectionsEffect(w, m, gs[..n], archive, compose, newIds[..n]);
      OneStepEffect(m, w', g, archive, compose, newId);
      var es, es' := m.ledger[|w.ledger|..], w'.ledger[|w.ledger|..];
      if w'.ledger != m.ledger {
        assert es' == es + [w'.ledger[|w'.ledger| - 1]];
      }
      AllJustifiedStep(es, es', gs[..n], g, archive, compose, w.tracker.improvements, m.db.blobs, w'.db.blobs);
      AllHandledStep(gs[..n], g, archive, compose, w.tracker.improvements, m.injected, w'.injected);
      assert gs[..n] + [g] == gs;
    }
  }

  /** The ids from position `k` on are not stored yet. */
  ghost predicate Unused(newIds: seq<Id>, k: nat, blobs: map<Id, Program>) {
    forall i :: k <= i < |newIds| ==> newIds[i] !in blobs
  }

  lemma UnusedStep(newIds: seq<Id>, k: nat, blobs: map<Id, Program>, blobs': map<Id, Program>)
    requires k < |newIds| && Distinct(newIds) && Unused(newIds, k, blobs) && blobs'.Keys <= blobs.Keys + {newIds[k]}
    ensures Unused(newIds, k + 1, blobs')
  {
  }

  /** The ids returned are those of the injections made since the start. */
  ghost predicate Lists(start: World, w: World, ids: seq<Id>) {
    && start.ledger <= w.ledger && |w.ledger| == |start.ledger| + |ids|
    && forall i :: 0 <= i < |ids| ==> w.ledger[|start.ledger| + i].id == ids[i]
  }

  lemma ListsStep(start: World, m: World, w: World, ids: seq<Id>, id: Id)
    requires Lists(start, m, ids) && |w.ledger| == |m.ledger| + 1
    requires m.ledger <= w.ledger && w.ledger[|m.ledger|].id == id
    ensures Lists(start, w, ids + [id])
  {
  }

  /** Where inject_all is after `k` constructors. */
  ghost predicate Progress(start: World, w: World, gs: seq<Program>, archive: map<Id, Opponent>, compose: ComposeFn,
                           newIds: seq<Id>, k: nat, injectedIds: seq<Id>)
    requires k <= |gs| == |newIds|
  {
    && Injections(start, w, gs[..k], archive, compose, newIds[..k])
    && Unused(newIds, k, w.db.blobs) && Lists(start, w, injectedIds)
  }

  class Hook {
    const tracker: Tracker
    const storage: Storage
    /** The dedup set as this hook found it. */
    ghost const initial: set<string>
    /** Every injection this hook has completed. */
    ghost var ledger: seq<Composed>

    ghost function State(): World
      reads this, tracker, storage
    {
      World(tracker.Contents(), tracker.injected, storage.Contents(), ledger)
    }

    ghost predicate Valid()
      reads this, tracker, storage
    {
      storage.Valid() && LedgerOk(State(), initial)
    }

    constructor (tracker: Tracker, storage: Storage)
      requires storage.Valid()
      ensures Valid() && ledger == [] && initial == tracker.injected
      ensures this.tracker == tracker && this.storage == storage
    {
      this.tracker := tracker;
      this.storage := storage;
      initial := tracker.injected;
      ledger := [];
      new;
      assert Members([]) == [];
    }

    /** The best improver of this constructor and the composed code, unless there is none,
        the pair was injected before, the improver left the archive or composition raises. */
    method Choose(g: Program, archive: map<Id, Opponent>, compose: ComposeFn)
      returns (chosen: Option<(Id, real, string)>)
      ensures chosen.None? <==> PassesOver(State(), g, archive, compose)
      ensures chosen.Some? ==>
        var (d, delta, code) := chosen.value;
        && IsBestD(tracker.improvements, g.id, d, delta) && Member(d, g.id) !in tracker.injected
        && d in archive && compose(g.code, archive[d].code) == Some(code)
    {
      var best := tracker.GetBestDForG(g.id);
      if best.None? { return None; }
      var (d, delta) := best.value;
      assert IsBestD(tracker.improvements, g.id, d, delta);
      if tracker.IsPairInjected(d, g.id) || d !in archive {
        BestHandled(g, d, delta, archive, compose, tracker.improvements, tracker.injected);
        return None;
      }
      var code := compose(g.code, archive[d].code);
      if code.None? {
        BestHandled(g, d, delta, archive, compose, tracker.improvements, tracker.injected);
        return None;
      }
      return Some((d, delta, code.value));
    }

    /** Mark the pair, for ever. */
    method MarkInjected(d: Id, g: Id, ghost e: Composed)
      modifies this`ledger, tracker`injected
      ensures tracker.injected == old(tracker.injected) + {Member(d, g)} && ledger == old(ledger) + [e]
    {
      tracker.MarkPairInjected(d, g);
      ledger := ledger + [e];
    }

    /** One constructor: pass over it, or store the child and mark the pair. */
    method InjectOne(g: Program, archive: map<Id, Opponent>, compose: ComposeFn, newId: Id) returns (done: bool)
      requires Valid() && newId !in storage.blobs
      modifies this`ledger, tracker`injected, storage
      ensures Valid()
      ensures OneStep(old(State()), State(), g, archive, compose, newId)
      ensures done <==> !PassesOver(old(State()), g, archive, compose)
      ensures done ==> ledger != []
      ensures done ==>
        var e := ledger[|ledger| - 1];
        && ledger == old(ledger) + [e] && e.id == newId && e.g == g.id
        && tracker.injected == old(tracker.injected) + {Member(e.d, e.g)}
        && storage.members == old(storage.members) + {(Queued, newId)}
        && Justified(e, [g], archive, compose, tracker.improvements, storage.blobs)
      ensures !done ==> State() == old(State())
      ensures storage.blobs.Keys == old(storage.blobs.Keys) + if done then {newId} else {}
      ensures forall id :: id in old(storage.blobs) ==> storage.blobs[id] == old(storage.blobs[id])
      ensures Handled(g, archive, compose, tracker.improvements, tracker.injected)
      ensures old(tracker.injected) <= tracker.injected
    {
      var chosen := Choose(g, archive, compose);
      if chosen.None? { return false; }
      var (d, delta, code) := chosen.value;
      ghost var w, scores := State(), tracker.improvements;
      storage.Add(Child(newId, g, code, d));
      ghost var e := Composed(newId, d, g.id, delta, scores);
      MarkInjected(d, g.id, e);
      InjectsJustified(w, State(), g, archive, compose, newId, e, initial);
      return true;
    }

    /** One round of inject_all, after `k` of them. */
    method InjectNext(gs: seq<Program>, archive: map<Id, Opponent>, compose: ComposeFn, newIds: seq<Id>, k: nat,
                      ghost start: World, injectedIds: seq<Id>)
      returns (ids: seq<Id>)
      requires Valid() && k < |gs| == |newIds| && Distinct(newIds)
      requires Progress(start, State(), gs, archive, compose, newIds, k, injectedIds)
      modifies this`ledger, tracker`injected, storage
      ensures Valid() && Progress(start, State(), gs, archive, compose, newIds, k + 1, ids)
    {
      ghost var before := State();
      var done := InjectOne(gs[k], archive, compose, newIds[k]);
      UnusedStep(newIds, k, before.db.blobs, storage.blobs);
      OneMore(start, before, State(), gs, archive, compose, newIds, k);
      if done {
        ListsStep(start, before, State(), injectedIds, newIds[k]);
        return injectedIds + [newIds[k]];
      }
      return injectedIds;
    }

    /** inject_all over any list of constructors, repetitions included. */
    method InjectAll(gs: seq<Program>, archive: map<Id, Opponent>, compose: ComposeFn, newIds: seq<Id>)
      returns (injectedIds: seq<Id>)
      requires Valid() && |newIds| == |gs| && Distinct(newIds)
      requires forall id :: id in newIds ==> id !in storage.blobs
      modifies this`ledger, tracker`injected, storage
      ensures Valid()
      ensures Happens(old(State()), State(), Event.InjectAll(gs, archive, compose, newIds))
      ensures Lists(old(State()), State(), injectedIds)
      ensures AllJustified(ledger[|old(ledger)|..], gs, archive, compose, tracker.improvements, storage.blobs)
      ensures AllHandled(gs, archive, compose, tracker.improvements, tracker.injected)
    {
      injectedIds := [];
      for k := 0 to |gs|
        invariant Valid() && Progress(old(State()), State(), gs, archive, compose, newIds, k, injectedIds)
      {
        injectedIds := InjectNext(gs, archive, compose, newIds, k, old(State()), injectedIds);
      }
      assert gs[..|gs|] == gs && newIds[..|gs|] == newIds;
      InjectionsEffect(old(State()), State(), gs, archive, compose, newIds);
    }
  }

  lemma OneMore(w: World, m: World, w': World, gs: seq<Program>, archive: map<Id, Opponent>, compose: ComposeFn,
                newIds: seq<Id>, k: nat)
    requires k < |gs| == |newIds| && Injections(w, m, gs[..k], archive, compose, newIds[..k])
    requires OneStep(m, w', gs[k], archive, compose, newIds[k])
    ensures Injections(w, w', gs[..k + 1], archive, compose, newIds[..k + 1])
  {
    assert gs[..k + 1][..k] == gs[..k] && newIds[..k + 1][..k] == newIds[..k];
  }
}
