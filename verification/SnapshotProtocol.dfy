/** The epoch cache of PopulationSnapshot over whole runs
    (gigaevo/database/program_storage.py:15-137): what readers receive when writes and
    bumps fall anywhere between the reads of a fetch. A fetch waits for the server twice;
    an incremental one works in place on the id cache that bumps change too. */
module SnapshotProtocol {
  import opened Prelude
  import opened Programs
  import opened ProgramStore

  /** The fields a reader may leave out; they come back with their defaults. */
  datatype Field = StageResults | Metadata | Metrics | Name

  type Exclude = Option<set<Field>>

  predicate Drops(ex: Exclude, f: Field) {
    ex.Some? && f in ex.value
  }

  function Project(p: Program, ex: Exclude): Program {
    p.(stageResults := if Drops(ex, StageResults) then map[] else p.stageResults,
       metadata := if Drops(ex, Metadata) then map[] else p.metadata,
       metrics := if Drops(ex, Metrics) then map[] else p.metrics,
       name := if Drops(ex, Name) then None else p.name)
  }

  /** Excluded fields come back with their defaults, everything else as it is stored. */
  lemma ProjectDropsOnly(p: Program, ex: Exclude)
    ensures ex.None? ==> Project(p, ex) == p
    ensures ex.Some? ==>
      var q, fs := Project(p, ex), ex.value;
      && q.stageResults == (if StageResults in fs then map[] else p.stageResults)
      && q.metadata == (if Metadata in fs then map[] else p.metadata)
      && q.metrics == (if Metrics in fs then map[] else p.metrics)
      && q.name == (if Name in fs then None else p.name)
      && q.id == p.id && q.code == p.code && q.state == p.state && q.lineage == p.lineage
      && q.iteration == p.iteration && q.createdAt == p.createdAt && q.atomicCounter == p.atomicCounter
    ensures Project(Project(p, ex), ex) == Project(p, ex)
  {
  }

  /** DONE and DISCARDED programs are taken to be stable. */
  ghost predicate Finished(p: Program) {
    p.state == ProgramState.Done || p.state == Discarded
  }

  /** The programs that are read again are those in any other state. */
  lemma IncompleteIff(p: Program)
    ensures p.state in INCOMPLETE_STATES <==> p.state == Queued || p.state == Running
    ensures p.state in INCOMPLETE_STATES <==> !Finished(p)
  {
  }

  /** What a reader sees of the store: the ids in the status sets, and the blobs. */
  datatype View = View(ids: set<Id>, blobs: map<Id, Program>)

  ghost predicate Synced(v: View) {
    v.ids == v.blobs.Keys && Keyed(v.blobs)
  }

  /** MGET of these ids: those that are stored, projected. */
  function ReadOf(v: View, ids: set<Id>, ex: Exclude): map<Id, Program> {
    map id | id in ids && id in v.blobs :: Project(v.blobs[id], ex)
  }

  /** The plain full fetch. */
  function Full(v: View, ex: Exclude): map<Id, Program> {
    map id | id in v.blobs :: Project(v.blobs[id], ex)
  }

  // ---------------------------------------------------------------- the snapshot and its fetches

  datatype Snapshot = Snapshot(epoch: nat, cachedEpoch: int, cachedExclude: Exclude,
                               cached: map<Id, Program>, idCache: map<Id, Program>)

  /** How far a fetch has come. Ask* waits for the server to read, Got* for the fetch
      to resume; Scan* are the two reads of a full fetch. */
  datatype Stage =
    | AskIds
    | GotIds(ids: set<Id>)
    | AskPrograms(refresh: set<Id>, removed: set<Id>)
    | GotPrograms(read: map<Id, Program>, removed: set<Id>)
    | Scan
    | Scanned(ids: set<Id>)
    | GotAll(programs: map<Id, Program>)

  datatype Flight = Flight(exclude: Exclude, stage: Stage)

  /** The snapshot, the store, the fetch in flight, and the earlier stores of the current
      epoch, that is, since the last bump. */
  datatype System = System(snap: Snapshot, store: View, past: seq<View>, flight: Option<Flight>)

  /** `Resume` carries the entries deleted before one that is not there; only a fetch
      that raises makes use of it. */
  datatype Event =
    | Write(store: View)
    | Bump(incremental: bool)
    | Start(exclude: Exclude)
    | Read
    | Resume(deleted: set<Id>)

  function PreparedIdCache(s: Snapshot): map<Id, Program> {
    if s.idCache == map[] then s.cached else s.idCache
  }

  function BumpSnapshot(s: Snapshot, incremental: bool): Snapshot {
    s.(epoch := s.epoch + 1, idCache := if incremental then PreparedIdCache(s) else map[])
  }

  predicate Hit(s: Snapshot, ex: Exclude) {
    s.cachedEpoch == s.epoch && s.cachedExclude == ex
  }

  predicate Incremental(s: Snapshot, ex: Exclude) {
    s.idCache != map[] && s.cachedExclude == ex
  }

  /** New programs and unfinished cached ones are read again. */
  function RefreshIds(c: map<Id, Program>, ids: set<Id>): set<Id> {
    (ids - c.Keys) + (set id | id in c && c[id].state in INCOMPLETE_STATES && id in ids)
  }

  function RemovedIds(c: map<Id, Program>, ids: set<Id>): set<Id> {
    c.Keys - ids
  }

  function Publish(s: Snapshot, programs: map<Id, Program>, ex: Exclude): Snapshot {
    s.(cached := programs, cachedExclude := ex, cachedEpoch := s.epoch)
  }

  /** Enter what was read, delete what was removed, and publish the id cache; deleting an
      entry that is not there raises, and nothing is published. */
  function Install(s: Snapshot, read: map<Id, Program>, removed: set<Id>, deleted: set<Id>, ex: Exclude): Snapshot {
    var c := s.idCache + read;
    if removed <= c.Keys then Publish(s.(idCache := c - removed), c - removed, ex)
    else s.(idCache := c - deleted)
  }

  ghost predicate Enabled(s: System, e: Event) {
    match e
    case Write(store) => Synced(store)
    case Bump(_) => true
    case Start(ex) => s.flight.None? && !Hit(s.snap, ex)
    case Read => s.flight.Some? && Asking(s.flight.value.stage)
    case Resume(deleted) =>
      && s.flight.Some?
      && match s.flight.value.stage
         case GotIds(_) => true
         case GotAll(_) => true
         case GotPrograms(read, removed) => deleted <= removed * (s.snap.idCache + read).Keys
         case _ => false
  }

  predicate Asking(stage: Stage) {
    stage.AskIds? || stage.AskPrograms? || stage.Scan? || stage.Scanned?
  }

  function ReadStage(v: View, f: Flight): Stage {
    match f.stage
    case AskIds => GotIds(v.ids)
    case AskPrograms(refresh, removed) => GotPrograms(ReadOf(v, refresh, f.exclude), removed)
    case Scan => Scanned(v.blobs.Keys)
    case Scanned(ids) => GotAll(ReadOf(v, ids, f.exclude))
    case _ => f.stage
  }

  function ResumeFetch(s: System, f: Flight, deleted: set<Id>): System {
    match f.stage
    case GotIds(ids) =>
      var refresh, removed := RefreshIds(s.snap.idCache, ids), RemovedIds(s.snap.idCache, ids);
      if refresh == {} then s.(snap := Install(s.snap, map[], removed, deleted, f.exclude), flight := None)
      else s.(flight := Some(f.(stage := AskPrograms(refresh, removed))))
    case GotPrograms(read, removed) =>
      s.(snap := Install(s.snap, read, removed, deleted, f.exclude), flight := None)
    case GotAll(programs) =>
      s.(snap := Publish(s.snap.(idCache := map[]), programs, f.exclude), flight := None)
    case _ => s
  }

  ghost function Next(s: System, e: Event): System
    requires Enabled(s, e)
  {
    match e
    case Write(store) => s.(store := store, past := s.past + [s.store])
    case Bump(incremental) => s.(snap := BumpSnapshot(s.snap, incremental), past := [])
    case Start(ex) => s.(flight := Some(Flight(ex, if Incremental(s.snap, ex) then AskIds else Scan)))
    case Read => s.(flight := Some(s.flight.value.(stage := ReadStage(s.store, s.flight.value))))
    case Resume(deleted) => ResumeFetch(s, s.flight.value, deleted)
  }

  ghost predicate Initial(s: System) {
    s.snap == Snapshot(0, -1, None, map[], map[]) && Synced(s.store) && s.past == [] && s.flight == None
  }

  // ---------------------------------------------------------------- what readers should get

  function Entry(m: map<Id, Program>, id: Id): Option<Program> {
    if id in m then Some(m[id]) else None
  }

  function Seen(v: View, ex: Exclude, id: Id): Option<Program> {
    if id in v.blobs then Some(Project(v.blobs[id], ex)) else None
  }

  /** At some moment of this epoch the store showed this program so, or not at all. */
  ghost predicate Shown(past: seq<View>, store: View, ex: Exclude, id: Id, e: Option<Program>) {
    e == Seen(store, ex, id) || exists v :: v in past && e == Seen(v, ex, id)
  }

  /** Every program is reported as it was at some moment since the last bump. */
  ghost predicate Current(r: map<Id, Program>, ex: Exclude, past: seq<View>, store: View) {
    forall id :: Shown(past, store, ex, id, Entry(r, id))
  }

  /** While nothing has been written since the bump, current means: the full fetch. */
  lemma QuietEpochIsFullFetch(r: map<Id, Program>, ex: Exclude, store: View)
    ensures Current(r, ex, [], store) <==> r == Full(store, ex)
  {
    if Current(r, ex, [], store) {
      forall id ensures id in r <==> id in Full(store, ex)
                ensures id in r ==> r[id] == Full(store, ex)[id]
      {
        assert Shown([], store, ex, id, Entry(r, id));
      }
    }
  }

  /** What the fetch in flight delivers if nothing else happens; `None` when it raises. */
  function Settle(s: System): Option<map<Id, Program>>
    requires s.flight.Some?
  {
    var c, v, ex := s.snap.idCache, s.store, s.flight.value.exclude;
    match s.flight.value.stage
    case AskIds => SettleIds(c, v.ids, v, ex)
    case GotIds(ids) => SettleIds(c, ids, v, ex)
    case AskPrograms(refresh, removed) => SettleInstall(c, ReadOf(v, refresh, ex), removed)
    case GotPrograms(read, removed) => SettleInstall(c, read, removed)
    case Scan => Some(Full(v, ex))
    case Scanned(ids) => Some(ReadOf(v, ids, ex))
    case GotAll(programs) => Some(programs)
  }

  function SettleIds(c: map<Id, Program>, ids: set<Id>, v: View, ex: Exclude): Option<map<Id, Program>> {
    SettleInstall(c, ReadOf(v, RefreshIds(c, ids), ex), RemovedIds(c, ids))
  }

  function SettleInstall(c: map<Id, Program>, read: map<Id, Program>, removed: set<Id>): Option<map<Id, Program>> {
    if removed <= (c + read).Keys then Some((c + read) - removed) else None
  }

  /** The fetch delivers exactly that: its own steps do not change it, and the last one
      publishes it as the cached list of the current epoch, or raises and publishes
      nothing. */
  lemma FetchDeliversSettled(s: System, e: Event)
    requires Enabled(s, e) && (e.Read? || e.Resume?) && Synced(s.store)
    ensures var s' := Next(s, e);
      if s'.flight.Some? then Settle(s') == Settle(s)
      else if Settle(s).Some? then
        && Hit(s'.snap, s.flight.value.exclude) && s'.snap.cached == Settle(s).value
        && s'.snap.idCache == (if s.flight.value.stage.GotAll? then map[] else s'.snap.cached)
      else s'.snap.(idCache := map[]) == s.snap.(idCache := map[])
  {
    var c := s.snap.idCache;
    if s.flight.value.stage.GotIds? && RefreshIds(c, s.flight.value.stage.ids) == {} {
      assert ReadOf(s.store, {}, s.flight.value.exclude) == map[];
    }
    if s.flight.value.stage.Scan? {
      assert ReadOf(s.store, s.store.blobs.Keys, s.flight.value.exclude) == Full(s.store, s.flight.value.exclude);
    }
  }

  /** Readers are served: a hit now gets a current list, and so does the fetch in flight,
      without raising. */
  ghost predicate Coherent(s: System) {
    && (s.snap.cachedEpoch == s.snap.epoch ==> Current(s.snap.cached, s.snap.cachedExclude, s.past, s.store))
    && (s.flight.Some? ==> Settle(s).Some? && Current(Settle(s).value, s.flight.value.exclude, s.past, s.store))
  }

  /** What holds in every reachable state, served or not. */
  ghost predicate Shape(s: System) {
    && Synced(s.store) && s.snap.cachedEpoch <= s.snap.epoch
    && (s.flight.Some? && s.flight.value.stage.AskPrograms? ==>
         s.flight.value.stage.refresh !! s.flight.value.stage.removed)
    && (s.flight.Some? && s.flight.value.stage.GotPrograms? ==>
         s.flight.value.stage.read.Keys !! s.flight.value.stage.removed)
  }

  lemma ShapeStep(s: System, e: Event)
    requires Shape(s) && Enabled(s, e)
    ensures Shape(Next(s, e))
  {
  }

  // ---------------------------------------------------------------- the exact conditions

  /** The finished programs the id cache holds, among these ids, are as the store showed
      them at some moment of this epoch. */
  ghost predicate TrustRight(c: map<Id, Program>, ids: set<Id>, past: seq<View>, store: View, ex: Exclude) {
    forall id :: id in c && id in ids && Finished(c[id]) ==> Shown(past, store, ex, id, Some(c[id]))
  }

  /** The cached programs that are still to be read again, among these ids, are either
      stored or were so at some moment of this epoch: MGET does not report an id that is
      gone, and its old entry stays. */
  ghost predicate MissingRight(c: map<Id, Program>, again: set<Id>, past: seq<View>, store: View, ex: Exclude) {
    forall id :: id in c && id in again && id !in store.blobs ==> Shown(past, store, ex, id, Some(c[id]))
  }

  /** A write is harmless unless a fetch has yet to read: then a finished cached program
      must not come back different, and an unfinished one must not disappear between the
      two reads. */
  ghost predicate RespectsWrite(s: System, v: View) {
    s.flight.Some? ==>
      var c, past, ex := s.snap.idCache, s.past + [s.store], s.flight.value.exclude;
      match s.flight.value.stage
      case AskIds => TrustRight(c, v.ids, past, v, ex)
      case GotIds(ids) => MissingRight(c, RefreshIds(c, ids), past, v, ex)
      case AskPrograms(refresh, _) => MissingRight(c, refresh, past, v, ex)
      case _ => true
  }

  /** These entries, but for the given ids, are stored now, just so. */
  ghost predicate Unchanged(m: map<Id, Program>, except: set<Id>, v: View, ex: Exclude) {
    forall id :: id in m && id !in except ==> id in v.blobs && m[id] == Project(v.blobs[id], ex)
  }

  /** A full bump empties the id cache. It is harmless to a fetch that has read nothing
      yet; to one that has its ids, if no program was created since; to one that waits for
      its programs, if it has nothing to delete and reads every stored program; and after
      the last read, if it has nothing to delete, has read every stored program, and no
      program it has read was changed or deleted since. */
  ghost predicate FullBumpHarmless(stage: Stage, v: View, ex: Exclude) {
    match stage
    case AskIds => true
    case GotIds(ids) => v.ids <= ids
    case AskPrograms(refresh, removed) => removed == {} && v.ids <= refresh
    case GotPrograms(read, removed) => removed == {} && v.ids <= read.Keys && Unchanged(read, {}, v, ex)
    case Scan => true
    case Scanned(ids) => v.ids <= ids
    case GotAll(programs) => v.ids <= programs.Keys && Unchanged(programs, {}, v, ex)
  }

  /** An incremental bump leaves the id cache `c`. It is harmless if the finished programs
      the fetch trusts are stored so now, no unfinished one it has listed is gone, no
      program was created since the listing, none it deletes is stored, what it deletes is
      cached, and what it has read was not changed or deleted since. */
  ghost predicate IncrementalBumpHarmless(c: map<Id, Program>, stage: Stage, v: View, ex: Exclude) {
    match stage
    case AskIds => forall id :: id in c && id in v.blobs && Finished(c[id]) ==> c[id] == Project(v.blobs[id], ex)
    case GotIds(ids) =>
      && v.ids <= ids
      && forall id :: id in c && id in ids ==>
           id in v.blobs && (Finished(c[id]) ==> c[id] == Project(v.blobs[id], ex))
    case AskPrograms(refresh, removed) =>
      && removed <= c.Keys && removed !! v.ids && v.ids <= c.Keys + refresh
      && Unchanged(c, removed + refresh, v, ex)
      && forall id :: id in c && id in refresh ==> id in v.blobs
    case GotPrograms(read, removed) =>
      && removed <= c.Keys && removed !! v.ids && v.ids <= c.Keys + read.Keys
      && Unchanged(c, removed + read.Keys, v, ex)
      && Unchanged(read, {}, v, ex)
    case _ => FullBumpHarmless(stage, v, ex)
  }

  ghost predicate RespectsBump(s: System, incremental: bool) {
    s.flight.Some? ==>
      var stage, v, ex := s.flight.value.stage, s.store, s.flight.value.exclude;
      if incremental then IncrementalBumpHarmless(PreparedIdCache(s.snap), stage, v, ex)
      else FullBumpHarmless(stage, v, ex)
  }

  /** An incremental fetch may start when the finished programs it trusts are right. */
  ghost predicate RespectsStart(s: System, ex: Exclude) {
    Incremental(s.snap, ex) ==> TrustRight(s.snap.idCache, s.store.ids, s.past, s.store, ex)
  }

  ghost predicate Respectful(s: System, e: Event) {
    match e
    case Write(v) => RespectsWrite(s, v)
    case Bump(incremental) => RespectsBump(s, incremental)
    case Start(ex) => RespectsStart(s, ex)
    case Read => true
    case Resume(_) => true
  }

  // ---------------------------------------------------------------- pointwise

  lemma ShownLater(past: seq<View>, store: View, v: View, ex: Exclude, id: Id, e: Option<Program>)
    requires Shown(past, store, ex, id, e)
    ensures Shown(past + [store], v, ex, id, e)
  {
    if e == Seen(store, ex, id) {
      assert store in past + [store];
    } else {
      var u :| u in past && e == Seen(u, ex, id);
      assert u in past + [store];
    }
  }

  lemma CurrentLater(r: map<Id, Program>, past: seq<View>, store: View, v: View, ex: Exclude)
    requires Current(r, ex, past, store)
    ensures Current(r, ex, past + [store], v)
  {
    forall id ensures Shown(past + [store], v, ex, id, Entry(r, id)) {
      ShownLater(past, store, v, ex, id, Entry(r, id));
    }
  }

  /** Where each entry of an incremental fetch that has its ids comes from. */
  ghost function EntryByIds(c: map<Id, Program>, ids: set<Id>, v: View, ex: Exclude, id: Id): Option<Program> {
    if id !in ids then None
    else if id in c && Finished(c[id]) then Some(c[id])
    else if id in v.blobs then Seen(v, ex, id)
    else Entry(c, id)
  }

  lemma SettledByIds(c: map<Id, Program>, ids: set<Id>, v: View, ex: Exclude)
    ensures SettleIds(c, ids, v, ex).Some?
    ensures forall id :: Entry(SettleIds(c, ids, v, ex).value, id) == EntryByIds(c, ids, v, ex, id)
  {
    forall id | id in c { IncompleteIff(c[id]); }
  }

  lemma CurrentByIds(c: map<Id, Program>, ids: set<Id>, v: View, ex: Exclude, past: seq<View>, store: View)
    ensures Current(SettleIds(c, ids, v, ex).value, ex, past, store)
      <==> forall id :: Shown(past, store, ex, id, EntryByIds(c, ids, v, ex, id))
  {
    SettledByIds(c, ids, v, ex);
    var r := SettleIds(c, ids, v, ex).value;
    forall id
      ensures Shown(past, store, ex, id, Entry(r, id)) <==> Shown(past, store, ex, id, EntryByIds(c, ids, v, ex, id)) {
    }
  }

  /** A fetch that lists its ids now is right exactly when it trusts rightly. */
  lemma ListedNowIff(c: map<Id, Program>, past: seq<View>, store: View, ex: Exclude)
    requires Synced(store)
    ensures Current(SettleIds(c, store.ids, store, ex).value, ex, past, store)
            <==> TrustRight(c, store.ids, past, store, ex)
  {
    CurrentByIds(c, store.ids, store, ex, past, store);
    if TrustRight(c, store.ids, past, store, ex) {
      forall id ensures Shown(past, store, ex, id, EntryByIds(c, store.ids, store, ex, id)) {
      }
    } else {
      var id :| id in c && id in store.ids && Finished(c[id]) && !Shown(past, store, ex, id, Some(c[id]));
      assert EntryByIds(c, store.ids, store, ex, id) == Some(c[id]);
    }
  }

  // ---------------------------------------------------------------- writes

  lemma WriteAfterListing(c: map<Id, Program>, ids: set<Id>, past: seq<View>, store: View, v: View, ex: Exclude)
    requires Current(SettleIds(c, ids, store, ex).value, ex, past, store)
    ensures Current(SettleIds(c, ids, v, ex).value, ex, past + [store], v)
      <==> MissingRight(c, RefreshIds(c, ids), past + [store], v, ex)
  {
    CurrentByIds(c, ids, store, ex, past, store);
    CurrentByIds(c, ids, v, ex, past + [store], v);
    if MissingRight(c, RefreshIds(c, ids), past + [store], v, ex) {
      forall id ensures Shown(past + [store], v, ex, id, EntryByIds(c, ids, v, ex, id)) {
        assert Shown(past, store, ex, id, EntryByIds(c, ids, store, ex, id));
        if id !in ids || (id in c && Finished(c[id])) {
          ShownLater(past, store, v, ex, id, EntryByIds(c, ids, store, ex, id));
        }
      }
    } else {
      var id :| id in c && id in RefreshIds(c, ids) && id !in v.blobs && !Shown(past + [store], v, ex, id, Some(c[id]));
      assert EntryByIds(c, ids, v, ex, id) == Some(c[id]);
    }
  }

  function EntryInstalled(c: map<Id, Program>, read: map<Id, Program>, removed: set<Id>, id: Id): Option<Program> {
    if id in removed then None else if id in read then Some(read[id]) else Entry(c, id)
  }

  lemma SettledInstall(c: map<Id, Program>, read: map<Id, Program>, removed: set<Id>,
                       ex: Exclude, past: seq<View>, store: View)
    requires SettleInstall(c, read, removed).Some?
    ensures Current(SettleInstall(c, read, removed).value, ex, past, store)
      <==> forall id :: Shown(past, store, ex, id, EntryInstalled(c, read, removed, id))
  {
    var r := SettleInstall(c, read, removed).value;
    forall id
      ensures Shown(past, store, ex, id, Entry(r, id))
              <==> Shown(past, store, ex, id, EntryInstalled(c, read, removed, id)) {
      assert Entry(r, id) == EntryInstalled(c, read, removed, id);
    }
  }

  lemma WriteBeforeMget(c: map<Id, Program>, refresh: set<Id>, removed: set<Id>, past: seq<View>,
                        store: View, v: View, ex: Exclude)
    requires refresh !! removed && SettleInstall(c, ReadOf(store, refresh, ex), removed).Some?
    requires Current(SettleInstall(c, ReadOf(store, refresh, ex), removed).value, ex, past, store)
    ensures SettleInstall(c, ReadOf(v, refresh, ex), removed).Some?
    ensures Current(SettleInstall(c, ReadOf(v, refresh, ex), removed).value, ex, past + [store], v)
      <==> MissingRight(c, refresh, past + [store], v, ex)
  {
    var before, after := ReadOf(store, refresh, ex), ReadOf(v, refresh, ex);
    assert removed <= c.Keys;
    SettledInstall(c, before, removed, ex, past, store);
    SettledInstall(c, after, removed, ex, past + [store], v);
    if MissingRight(c, refresh, past + [store], v, ex) {
      forall id ensures Shown(past + [store], v, ex, id, EntryInstalled(c, after, removed, id)) {
        assert Shown(past, store, ex, id, EntryInstalled(c, before, removed, id));
        if id !in refresh {
          ShownLater(past, store, v, ex, id, EntryInstalled(c, before, removed, id));
        }
      }
    } else {
      var id :| id in c && id in refresh && id !in v.blobs && !Shown(past + [store], v, ex, id, Some(c[id]));
      assert EntryInstalled(c, after, removed, id) == Some(c[id]);
    }
  }

  lemma WriteIff(s: System, v: View)
    requires Shape(s) && Coherent(s) && Synced(v)
    ensures Coherent(Next(s, Write(v))) <==> RespectsWrite(s, v)
  {
    if s.snap.cachedEpoch == s.snap.epoch {
      CurrentLater(s.snap.cached, s.past, s.store, v, s.snap.cachedExclude);
    }
    if s.flight.Some? {
      var c, ex := s.snap.idCache, s.flight.value.exclude;
      match s.flight.value.stage
      case AskIds =>
        SettledByIds(c, v.ids, v, ex);
        ListedNowIff(c, s.past + [s.store], v, ex);
      case GotIds(ids) =>
        SettledByIds(c, ids, v, ex);
        WriteAfterListing(c, ids, s.past, s.store, v, ex);
      case AskPrograms(refresh, removed) =>
        WriteBeforeMget(c, refresh, removed, s.past, s.store, v, ex);
      case Scanned(ids) =>
        forall id ensures Shown(s.past + [s.store], v, ex, id, Entry(ReadOf(v, ids, ex), id)) {
          assert Shown(s.past, s.store, ex, id, Entry(ReadOf(s.store, ids, ex), id));
          if id !in ids { ShownLater(s.past, s.store, v, ex, id, None); }
        }
      case Scan =>
        assert forall id :: Entry(Full(v, ex), id) == Seen(v, ex, id);
      case _ =>
        CurrentLater(Settle(s).value, s.past, s.store, v, ex);
    }
  }

  // ---------------------------------------------------------------- bumps

  lemma AllReadIff(programs: map<Id, Program>, v: View, ex: Exclude)
    requires Synced(v)
    ensures Current(programs, ex, [], v) <==> v.ids <= programs.Keys && Unchanged(programs, {}, v, ex)
  {
    QuietEpochIsFullFetch(programs, ex, v);
    if v.ids <= programs.Keys && Unchanged(programs, {}, v, ex) {
      assert programs == Full(v, ex);
    }
  }

  lemma BumpAfterListing(c: map<Id, Program>, ids: set<Id>, v: View, ex: Exclude)
    requires Synced(v)
    ensures Current(SettleIds(c, ids, v, ex).value, ex, [], v)
      <==> v.ids <= ids && forall id :: id in c && id in ids ==>
             id in v.blobs && (Finished(c[id]) ==> c[id] == Project(v.blobs[id], ex))
  {
    CurrentByIds(c, ids, v, ex, [], v);
    forall id ensures Shown([], v, ex, id, EntryByIds(c, ids, v, ex, id)) <==>
      && (id in v.ids ==> id in ids)
      && (id in c && id in ids ==> id in v.blobs && (Finished(c[id]) ==> c[id] == Project(v.blobs[id], ex)))
    {
    }
  }

  /** What the install makes of one id is the store of now. */
  ghost predicate InstallsRight(c: map<Id, Program>, read: map<Id, Program>, removed: set<Id>,
                                v: View, ex: Exclude, id: Id) {
    && (id in v.ids ==> id !in removed && (id in c || id in read))
    && (id in c && id !in removed && id !in read ==> id in v.blobs && c[id] == Project(v.blobs[id], ex))
    && (id in read ==> id in v.blobs && read[id] == Project(v.blobs[id], ex))
  }

  lemma BumpBeforeInstall(c: map<Id, Program>, read: map<Id, Program>, removed: set<Id>, v: View, ex: Exclude)
    requires Synced(v) && read.Keys !! removed
    ensures SettleInstall(c, read, removed).Some? <==> removed <= c.Keys
    ensures removed <= c.Keys ==>
      (Current(SettleInstall(c, read, removed).value, ex, [], v) <==>
       (forall id :: InstallsRight(c, read, removed, v, ex, id)))
  {
    assert removed <= c.Keys <==> removed <= (c + read).Keys;
    if removed <= c.Keys {
      SettledInstall(c, read, removed, ex, [], v);
      forall id
        ensures Shown([], v, ex, id, EntryInstalled(c, read, removed, id))
          <==> InstallsRight(c, read, removed, v, ex, id)
      {
      }
    }
  }

  lemma BumpAfterMget(c: map<Id, Program>, read: map<Id, Program>, removed: set<Id>, v: View, ex: Exclude)
    requires Synced(v) && read.Keys !! removed && removed <= c.Keys
    ensures (forall id :: InstallsRight(c, read, removed, v, ex, id))
      <==> IncrementalBumpHarmless(c, GotPrograms(read, removed), v, ex)
  {
    if IncrementalBumpHarmless(c, GotPrograms(read, removed), v, ex) {
      forall id ensures InstallsRight(c, read, removed, v, ex, id) {
      }
    }
    if forall id :: InstallsRight(c, read, removed, v, ex, id) {
      forall id | id in v.ids ensures id !in removed && id in c.Keys + read.Keys {
        assert InstallsRight(c, read, removed, v, ex, id);
      }
      forall id ensures id in c && id !in removed + read.Keys ==> id in v.blobs && c[id] == Project(v.blobs[id], ex)
                ensures id in read ==> id in v.blobs && read[id] == Project(v.blobs[id], ex)
      {
        assert InstallsRight(c, read, removed, v, ex, id);
      }
    }
  }

  lemma BumpBeforeMget(c: map<Id, Program>, refresh: set<Id>, removed: set<Id>, v: View, ex: Exclude)
    requires Synced(v) && refresh !! removed && removed <= c.Keys
    ensures (forall id :: InstallsRight(c, ReadOf(v, refresh, ex), removed, v, ex, id))
      <==> IncrementalBumpHarmless(c, AskPrograms(refresh, removed), v, ex)
  {
    var read := ReadOf(v, refresh, ex);
    if IncrementalBumpHarmless(c, AskPrograms(refresh, removed), v, ex) {
      forall id ensures InstallsRight(c, read, removed, v, ex, id) {
      }
    }
    if forall id :: InstallsRight(c, read, removed, v, ex, id) {
      forall id | id in v.ids ensures id !in removed && id in c.Keys + refresh {
        assert InstallsRight(c, read, removed, v, ex, id);
      }
      forall id ensures id in c && id !in removed + refresh ==> id in v.blobs && c[id] == Project(v.blobs[id], ex)
                ensures id in c && id in refresh ==> id in v.blobs
      {
        assert InstallsRight(c, read, removed, v, ex, id);
      }
    }
  }

  lemma FullBumpIff(s: System)
    requires Shape(s) && s.flight.Some?
    ensures Coherent(Next(s, Bump(false))) <==> FullBumpHarmless(s.flight.value.stage, s.store, s.flight.value.exclude)
  {
    var v, ex := s.store, s.flight.value.exclude;
    FullBumpSettles(s);
    match s.flight.value.stage
    case GotIds(ids) => AllReadIff(ReadOf(v, ids, ex), v, ex);
    case AskPrograms(refresh, _) => AllReadIff(ReadOf(v, refresh, ex), v, ex);
    case GotPrograms(read, _) => AllReadIff(read, v, ex);
    case Scanned(ids) => AllReadIff(ReadOf(v, ids, ex), v, ex);
    case GotAll(programs) => AllReadIff(programs, v, ex);
    case _ => QuietEpochIsFullFetch(Full(v, ex), ex, v);
  }

  lemma IncrementalBumpIff(s: System)
    requires Shape(s) && s.flight.Some?
    ensures Coherent(Next(s, Bump(true)))
      <==> IncrementalBumpHarmless(PreparedIdCache(s.snap), s.flight.value.stage, s.store, s.flight.value.exclude)
  {
    var c, v, ex := PreparedIdCache(s.snap), s.store, s.flight.value.exclude;
    match s.flight.value.stage
    case AskIds =>
      SettledByIds(c, v.ids, v, ex);
      ListedNowIff(c, [], v, ex);
    case GotIds(ids) =>
      SettledByIds(c, ids, v, ex);
      BumpAfterListing(c, ids, v, ex);
    case AskPrograms(refresh, removed) =>
      BumpBeforeInstall(c, ReadOf(v, refresh, ex), removed, v, ex);
      if removed <= c.Keys { BumpBeforeMget(c, refresh, removed, v, ex); }
    case GotPrograms(read, removed) =>
      BumpBeforeInstall(c, read, removed, v, ex);
      if removed <= c.Keys { BumpAfterMget(c, read, removed, v, ex); }
    case Scan => QuietEpochIsFullFetch(Full(v, ex), ex, v);
    case Scanned(ids) => AllReadIff(ReadOf(v, ids, ex), v, ex);
    case GotAll(programs) => AllReadIff(programs, v, ex);
  }

  lemma BumpIff(s: System, incremental: bool)
    requires Shape(s)
    ensures Coherent(Next(s, Bump(incremental))) <==> RespectsBump(s, incremental)
  {
    if s.flight.Some? {
      if incremental { IncrementalBumpIff(s); } else { FullBumpIff(s); }
    }
  }

  lemma InstallFromEmpty(read: map<Id, Program>, removed: set<Id>)
    requires read.Keys !! removed
    ensures SettleInstall(map[], read, removed) == if removed == {} then Some(read) else None
  {
    assert map[] + read == read && read - {} == read;
    if removed != {} {
      var id := SomeElement(removed);
      assert id !in read;
    }
  }

  /** What each kind of bump makes of the fetch in flight. After a full one the fetch
      delivers only what it reads itself: everything, if it has no ids yet; the listed
      programs, if it has; and once it waits for MGET only the refreshed ones, or it
      raises if some id was to be deleted. */
  lemma FullBumpSettles(s: System)
    requires s.flight.Some? && Shape(s)
    ensures var v, ex := s.store, s.flight.value.exclude;
      Settle(Next(s, Bump(false))) == match s.flight.value.stage
        case AskIds => Some(Full(v, ex))
        case GotIds(ids) => Some(ReadOf(v, ids, ex))
        case AskPrograms(refresh, removed) => if removed == {} then Some(ReadOf(v, refresh, ex)) else None
        case GotPrograms(read, removed) => if removed == {} then Some(read) else None
        case Scan => Some(Full(v, ex))
        case Scanned(ids) => Some(ReadOf(v, ids, ex))
        case GotAll(programs) => Some(programs)
  {
    var v, ex := s.store, s.flight.value.exclude;
    match s.flight.value.stage
    case AskIds => RefreshExactIff(map[], v, ex);
    case GotIds(ids) =>
      assert RefreshIds(map[], ids) == ids;
      InstallFromEmpty(ReadOf(v, ids, ex), RemovedIds(map[], ids));
    case AskPrograms(refresh, removed) => InstallFromEmpty(ReadOf(v, refresh, ex), removed);
    case GotPrograms(read, removed) => InstallFromEmpty(read, removed);
    case _ =>
  }

  /** An incremental bump changes nothing in the fetch itself, unless a full one has
      emptied the id cache: then the fetch goes on with the programs of the old list. */
  lemma IncrementalBumpSettles(s: System)
    requires s.flight.Some?
    ensures Settle(Next(s, Bump(true))) == Settle(s.(snap := s.snap.(idCache := PreparedIdCache(s.snap))))
    ensures s.snap.idCache != map[] ==> Settle(Next(s, Bump(true))) == Settle(s)
  {
  }

  /** A program that the fetch trusts is lost by a full bump while MGET is awaited. */
  lemma FullBumpLosesTrusted(s: System, id: Id)
    requires Shape(s) && s.flight.Some? && s.flight.value.stage.AskPrograms?
    requires id in s.store.ids && id !in s.flight.value.stage.refresh
    ensures var after := Settle(Next(s, Bump(false)));
      after.None? || (id !in after.value && !Current(after.value, s.flight.value.exclude, [], s.store))
  {
    FullBumpSettles(s);
    var after := Settle(Next(s, Bump(false)));
    if after.Some? {
      assert !Shown([], s.store, s.flight.value.exclude, id, Entry(after.value, id));
    }
  }

  // ---------------------------------------------------------------- runs

  lemma StartIff(s: System, ex: Exclude)
    requires Shape(s) && Coherent(s) && Enabled(s, Start(ex))
    ensures Coherent(Next(s, Start(ex))) <==> RespectsStart(s, ex)
  {
    if Incremental(s.snap, ex) {
      SettledByIds(s.snap.idCache, s.store.ids, s.store, ex);
      ListedNowIff(s.snap.idCache, s.past, s.store, ex);
    } else {
      assert forall id :: Entry(Full(s.store, ex), id) == Seen(s.store, ex, id);
    }
  }

  /** One event keeps readers served exactly when it is respectful. */
  lemma CoherentStepIff(s: System, e: Event)
    requires Shape(s) && Coherent(s) && Enabled(s, e)
    ensures Coherent(Next(s, e)) <==> Respectful(s, e)
  {
    match e
    case Write(v) => WriteIff(s, v);
    case Bump(incremental) => BumpIff(s, incremental);
    case Start(ex) => StartIff(s, ex);
    case _ => FetchDeliversSettled(s, e);
  }

  ghost predicate IsRun(ss: seq<System>, es: seq<Event>) {
    && |ss| == |es| + 1
    && forall i :: 0 <= i < |es| ==> Enabled(ss[i], es[i]) && ss[i + 1] == Next(ss[i], es[i])
  }

  lemma {:induction false} RunHasShape(ss: seq<System>, es: seq<Event>, n: nat)
    requires IsRun(ss, es) && Initial(ss[0]) && n < |ss|
    ensures Shape(ss[n])
  {
    if n > 0 {
      RunHasShape(ss, es, n - 1);
      ShapeStep(ss[n - 1], es[n - 1]);
    }
  }

  /** Over all runs of writes, bumps and fetches: at every moment readers are served, by a
      hit or by the fetch in flight, if and only if every event was respectful. */
  lemma SnapshotCoherentIff(ss: seq<System>, es: seq<Event>)
    requires IsRun(ss, es) && Initial(ss[0])
    ensures (forall i :: 0 <= i < |ss| ==> Coherent(ss[i]))
            <==> (forall i :: 0 <= i < |es| ==> Respectful(ss[i], es[i]))
  {
    forall i | 0 <= i < |es| && Coherent(ss[i]) ensures Coherent(ss[i + 1]) <==> Respectful(ss[i], es[i]) {
      RunHasShape(ss, es, i);
      CoherentStepIff(ss[i], es[i]);
    }
    if forall i :: 0 <= i < |es| ==> Respectful(ss[i], es[i]) {
      var n := 0;
      while n < |es|
        invariant 0 <= n <= |es| && forall i :: 0 <= i <= n ==> Coherent(ss[i])
      {
        assert Respectful(ss[n], es[n]);
        n := n + 1;
      }
    } else if forall i :: 0 <= i < |ss| ==> Coherent(ss[i]) {
      forall i | 0 <= i < |es| ensures Respectful(ss[i], es[i]) {
        assert Coherent(ss[i]) && Coherent(ss[i + 1]);
      }
    }
  }

  /** The event ends a fetch. */
  ghost predicate Ends(s: System, e: Event)
    requires Enabled(s, e)
  {
    e.Resume? && Next(s, e).flight.None?
  }

  /** What readers receive in a respectful run: every hit, at any moment, and every
      fetch that ends, which never raises, reports each program as it was at some moment
      since the last bump. */
  lemma ReadersReceiveCurrent(ss: seq<System>, es: seq<Event>, i: nat)
    requires IsRun(ss, es) && Initial(ss[0]) && i < |es|
    requires forall j :: 0 <= j < |es| ==> Respectful(ss[j], es[j])
    ensures forall ex :: Hit(ss[i].snap, ex) ==> Current(ss[i].snap.cached, ex, ss[i].past, ss[i].store)
    ensures Ends(ss[i], es[i]) ==>
      && Hit(ss[i + 1].snap, ss[i].flight.value.exclude)
      && Current(ss[i + 1].snap.cached, ss[i].flight.value.exclude, ss[i].past, ss[i].store)
  {
    SnapshotCoherentIff(ss, es);
    RunHasShape(ss, es, i);
    assert Coherent(ss[i]);
    if Ends(ss[i], es[i]) {
      FetchDeliversSettled(ss[i], es[i]);
    }
  }

  // ---------------------------------------------------------------- single fetches

  /** No program that was finished when the cache was filled has changed since, as far
      as the reader can see. */
  ghost predicate FinishedUnchanged(c: map<Id, Program>, now: View, ex: Exclude) {
    forall id :: id in c && id in now.blobs && Finished(c[id]) ==> c[id] == Project(now.blobs[id], ex)
  }

  /** An undisturbed incremental fetch is the full fetch exactly when the finished
      programs of its cache have not changed. */
  lemma RefreshExactIff(c: map<Id, Program>, now: View, ex: Exclude)
    requires Synced(now)
    ensures SettleIds(c, now.ids, now, ex) == Some(Full(now, ex)) <==> FinishedUnchanged(c, now, ex)
  {
    SettledByIds(c, now.ids, now, ex);
    ListedNowIff(c, [], now, ex);
    QuietEpochIsFullFetch(SettleIds(c, now.ids, now, ex).value, ex, now);
  }

  /** An undisturbed incremental fetch delivers each stored program that is new to its cache,
      or was QUEUED or RUNNING there, as it is stored now; so it is the full fetch as soon
      as no program cached as DONE or DISCARDED has changed. */
  lemma UnfinishedAreReadAgain(c: map<Id, Program>, now: View, ex: Exclude)
    requires Synced(now)
    ensures SettleIds(c, now.ids, now, ex).Some?
    ensures var r := SettleIds(c, now.ids, now, ex).value;
      && r.Keys == now.blobs.Keys
      && forall id :: id in now.blobs ==>
           r[id] == if id in c && c[id].state in {ProgramState.Done, Discarded} then c[id]
                    else Project(now.blobs[id], ex)
  {
    SettledByIds(c, now.ids, now, ex);
    var r := SettleIds(c, now.ids, now, ex).value;
    forall id ensures id in r <==> id in now.blobs {
      assert Entry(r, id) == EntryByIds(c, now.ids, now, ex, id);
    }
    forall id | id in now.blobs
      ensures r[id] == if id in c && Finished(c[id]) then c[id] else Project(now.blobs[id], ex)
    {
      assert Entry(r, id) == EntryByIds(c, now.ids, now, ex, id);
    }
  }

  /** While nothing has been written since the bump, a served snapshot answers from its
      cache exactly the full fetch. */
  lemma HitIsFullFetch(s: System, ex: Exclude)
    requires Coherent(s) && Hit(s.snap, ex)
    ensures s.past == [] ==> s.snap.cached == Full(s.store, ex)
  {
    QuietEpochIsFullFetch(s.snap.cached, ex, s.store);
  }

  /** A miss that nothing disturbs delivers the full fetch of the store at that moment,
      an incremental one exactly when the finished programs have not changed. */
  lemma MissIsFullFetch(s: System, ex: Exclude)
    requires Synced(s.store) && Enabled(s, Start(ex))
    ensures Settle(Next(s, Start(ex))) == Some(Full(s.store, ex))
      <==> (Incremental(s.snap, ex) ==> FinishedUnchanged(s.snap.idCache, s.store, ex))
  {
    var c, v := s.snap.idCache, s.store;
    if Incremental(s.snap, ex) {
      RefreshExactIff(c, v, ex);
      assert Settle(Next(s, Start(ex))) == SettleIds(c, v.ids, v, ex);
    } else {
      assert Settle(Next(s, Start(ex))) == Some(Full(v, ex));
    }
  }

  /** A full bump followed by an incremental one before any fetch brings the old cache
      back: the next fetch trusts finished programs the full bump meant to drop. After
      the full bump alone the next fetch is always right. */
  lemma FullThenIncrementalRevivesCache(s: System, ex: Exclude)
    requires Synced(s.store) && s.snap.cachedEpoch <= s.snap.epoch
    requires s.flight.None? && s.snap.cached != map[] && s.snap.cachedExclude == ex
    ensures var t := Next(Next(s, Bump(false)), Bump(true));
      && Enabled(t, Start(ex))
      && (Settle(Next(t, Start(ex))) == Some(Full(t.store, ex)) <==> FinishedUnchanged(s.snap.cached, s.store, ex))
    ensures var t := Next(s, Bump(false));
      Enabled(t, Start(ex)) && Settle(Next(t, Start(ex))) == Some(Full(t.store, ex))
  {
    FullBumpThenFetch(s, ex);
    var t := s.(snap := s.snap.(epoch := s.snap.epoch + 2, idCache := s.snap.cached), past := []);
    assert Next(Next(s, Bump(false)), Bump(true)) == t;
    assert Enabled(t, Start(ex)) && Incremental(t.snap, ex);
    MissIsFullFetch(t, ex);
  }

  lemma FullBumpThenFetch(s: System, ex: Exclude)
    requires Synced(s.store) && s.snap.cachedEpoch <= s.snap.epoch && s.flight.None?
    ensures var t := Next(s, Bump(false));
      Enabled(t, Start(ex)) && Settle(Next(t, Start(ex))) == Some(Full(t.store, ex))
  {
    var t := s.(snap := s.snap.(epoch := s.snap.epoch + 1, idCache := map[]), past := []);
    assert Next(s, Bump(false)) == t;
    assert Enabled(t, Start(ex)) && !Incremental(t.snap, ex);
  }

  // ---------------------------------------------------------------- one fetch an epoch

  function Starts(es: seq<Event>): nat {
    if es == [] then 0 else Starts(es[..|es| - 1]) + if es[|es| - 1].Start? then 1 else 0
  }

  /** A fetch that no bump disturbs finds in the id cache what it wants to delete. */
  ghost predicate CanDelete(s: System) {
    s.flight.Some? ==>
      && (s.flight.value.stage.AskPrograms? ==> s.flight.value.stage.removed <= s.snap.idCache.Keys)
      && (s.flight.value.stage.GotPrograms? ==> s.flight.value.stage.removed <= s.snap.idCache.Keys)
  }

  lemma OneFetchStep(s: System, e: Event, ex: Exclude)
    requires Enabled(s, e) && !e.Bump? && (e.Start? ==> e.exclude == ex) && CanDelete(s)
    requires s.flight.Some? ==> s.flight.value.exclude == ex
    ensures CanDelete(Next(s, e))
    ensures Next(s, e).flight.Some? ==> Next(s, e).flight.value.exclude == ex && (e.Start? || s.flight.Some?)
    ensures Next(s, e).flight.None? ==> (s.flight.Some? || Hit(s.snap, ex)) ==> Hit(Next(s, e).snap, ex)
    ensures Hit(s.snap, ex) && s.flight.None? ==> !e.Start?
  {
  }

  /** Within one epoch, readers that use one exclude value cause at most one fetch. */
  lemma {:induction false} OneFetchPerEpoch(ss: seq<System>, es: seq<Event>, ex: Exclude)
    requires IsRun(ss, es)
    requires forall i :: 0 <= i < |es| ==> !es[i].Bump? && (es[i].Start? ==> es[i].exclude == ex)
    requires ss[0].flight.None?
    ensures Starts(es) <= 1 && CanDelete(ss[|es|])
    ensures ss[|es|].flight.Some? ==> ss[|es|].flight.value.exclude == ex && Starts(es) == 1
    ensures ss[|es|].flight.None? && Starts(es) == 1 ==> Hit(ss[|es|].snap, ex)
    decreases |es|
  {
    var n := |es|;
    if n > 0 {
      OneFetchPerEpoch(ss[..n], es[..n - 1], ex);
      assert ss[n] == Next(ss[n - 1], es[n - 1]) && Enabled(ss[n - 1], es[n - 1]);
      OneFetchStep(ss[n - 1], es[n - 1], ex);
    }
  }
}
