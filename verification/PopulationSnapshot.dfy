/** PopulationSnapshot as the object the collectors share
    (gigaevo/database/program_storage.py:15-137), proved against the protocol of
    SnapshotProtocol. The lock keeps other fetches out, but not bumps: at each await the
    bumps of other tasks run. */
module PopulationSnapshot {
  import opened Prelude
  import opened Programs
  import opened ProgramStore
  import opened SnapshotProtocol

  /** Programs by id; a later entry of the list wins. */
  function ById(ps: seq<Program>): map<Id, Program> {
    if ps == [] then map[] else ById(ps[..|ps| - 1])[ps[|ps| - 1].id := ps[|ps| - 1]]
  }

  /** The list holds exactly the programs of the map, each once. */
  ghost predicate Lists(ps: seq<Program>, m: map<Id, Program>) {
    Keyed(m) && Distinct(ps) && forall p :: p in ps <==> p.id in m && m[p.id] == p
  }

  lemma {:induction false} ByIdKeys(ps: seq<Program>)
    ensures forall id :: id in ById(ps) ==> ById(ps)[id] in ps && ById(ps)[id].id == id
    ensures forall p :: p in ps ==> p.id in ById(ps)
  {
    if ps != [] {
      ByIdKeys(ps[..|ps| - 1]);
      assert ps == ps[..|ps| - 1] + [ps[|ps| - 1]];
    }
  }

  lemma ListsById(ps: seq<Program>, m: map<Id, Program>)
    requires Lists(ps, m)
    ensures ById(ps) == m
  {
    ByIdKeys(ps);
    forall id ensures id in ById(ps) <==> id in m {
      if id in m { assert m[id] in ps; }
    }
    forall id | id in m ensures ById(ps)[id] == m[id] {
      assert ById(ps)[id] in ps;
    }
  }

  /** The values of a map as a list. */
  method Values(m: map<Id, Program>) returns (ps: seq<Program>)
    requires Keyed(m)
    ensures Lists(ps, m)
  {
    ps := [];
    var todo := m.Keys;
    while todo != {}
      invariant todo <= m.Keys && Distinct(ps)
      invariant forall p :: p in ps <==> p.id in m && p.id !in todo && m[p.id] == p
      decreases todo
    {
      var id :| id in todo;
      ps, todo := ps + [m[id]], todo - {id};
    }
  }

  /** storage.mget: the stored programs among these ids, projected, each once. */
  method Mget(v: View, ids: set<Id>, ex: Exclude) returns (ps: seq<Program>)
    requires Synced(v)
    ensures Lists(ps, ReadOf(v, ids, ex)) && ById(ps) == ReadOf(v, ids, ex)
  {
    ps := Values(ReadOf(v, ids, ex));
    ListsById(ps, ReadOf(v, ids, ex));
  }

  lemma UpdateLast(a: map<Id, Program>, b: map<Id, Program>, p: Program)
    ensures (a + b)[p.id := p] == a + b[p.id := p]
  {
  }

  /** One call seen from outside: what the server answers at its two awaits, and which
      bumps (incremental or not) other tasks make meanwhile. */
  datatype Awaits = Awaits(listed: View, whileListing: seq<bool>, read: View, whileReading: seq<bool>)

  function BumpAll(s: Snapshot, bumps: seq<bool>): Snapshot {
    if bumps == [] then s else BumpSnapshot(BumpAll(s, bumps[..|bumps| - 1]), bumps[|bumps| - 1])
  }

  /** What an incremental fetch has when it comes to enter and delete: the snapshot as
      the bumps left it, the programs read and the ids to delete. */
  function ToInstall(s: Snapshot, w: Awaits, ex: Exclude): (Snapshot, map<Id, Program>, set<Id>) {
    var s1 := BumpAll(s, w.whileListing);
    var refresh, removed := RefreshIds(s1.idCache, w.listed.ids), RemovedIds(s1.idCache, w.listed.ids);
    if refresh == {} then (s1, map[], removed)
    else (BumpAll(s1, w.whileReading), ReadOf(w.read, refresh, ex), removed)
  }

  /** A full fetch reads the programs its scan found. */
  function ToPublish(s: Snapshot, w: Awaits, ex: Exclude): (Snapshot, map<Id, Program>) {
    (BumpAll(s, w.whileListing).(idCache := map[]), ReadOf(w.read, w.listed.blobs.Keys, ex))
  }

  /** Nothing happens between the two answers of the server. */
  ghost predicate Quiet(w: Awaits) {
    w.listed == w.read && w.whileListing == [] && w.whileReading == []
  }

  lemma QuietFetch(s: Snapshot, w: Awaits, ex: Exclude)
    requires Synced(w.read) && Quiet(w)
    ensures var (t, read, removed) := ToInstall(s, w, ex);
      && removed <= (t.idCache + read).Keys
      && (t.idCache + read) - removed == SettleIds(s.idCache, w.read.ids, w.read, ex).value
    ensures ToPublish(s, w, ex).1 == Full(w.read, ex)
  {
    var refresh := RefreshIds(s.idCache, w.read.ids);
    assert refresh == {} ==> ReadOf(w.read, refresh, ex) == map[];
  }

  class Population {
    var epoch: nat
    var cachedEpoch: int
    var cachedExclude: Exclude
    var cached: seq<Program>
    var idCache: map<Id, Program>

    ghost predicate Valid()
      reads this
    {
      Lists(cached, ById(cached)) && Keyed(idCache)
    }

    /** The protocol state this object stands for. */
    ghost function State(): Snapshot
      reads this
    {
      Snapshot(epoch, cachedEpoch, cachedExclude, ById(cached), idCache)
    }

    constructor ()
      ensures Valid() && State() == Snapshot(0, -1, None, map[], map[])
    {
      epoch, cachedEpoch, cachedExclude, cached, idCache := 0, -1, None, [], map[];
    }

    method Bump(incremental: bool)
      requires Valid()
      modifies this`epoch, this`idCache
      ensures Valid() && State() == BumpSnapshot(old(State()), incremental)
    {
      epoch := epoch + 1;
      if incremental {
        PrepareIdCache();
      } else {
        idCache := map[];
      }
    }

    /** Rebuild the id cache from the cached list if it is empty. */
    method PrepareIdCache()
      requires Valid()
      modifies this`idCache
      ensures Valid()
      ensures idCache == if old(idCache) == map[] then ById(cached) else old(idCache)
    {
      if idCache == map[] && cached != [] {
        for i := 0 to |cached|
          invariant idCache == ById(cached[..i])
        {
          assert cached[..i + 1][..i] == cached[..i];
          idCache := idCache[cached[i].id := cached[i]];
        }
        assert cached[..|cached|] == cached;
        ByIdKeys(cached);
      }
    }

    /** Put each of these programs into the id cache. */
    method CacheAll(ps: seq<Program>)
      requires Keyed(idCache)
      modifies this`idCache
      ensures Keyed(idCache) && idCache == old(idCache) + ById(ps)
    {
      for i := 0 to |ps|
        invariant idCache == old(idCache) + ById(ps[..i])
      {
        assert ps[..i + 1][..i] == ps[..i];
        UpdateLast(old(idCache), ById(ps[..i]), ps[i]);
        idCache := idCache[ps[i].id := ps[i]];
      }
      assert ps[..|ps|] == ps;
      ByIdKeys(ps);
    }

    /** Bumps of other tasks, one after another. */
    method OthersBump(bumps: seq<bool>)
      requires Valid()
      modifies this`epoch, this`idCache
      ensures Valid() && State() == BumpAll(old(State()), bumps)
    {
      for i := 0 to |bumps|
        invariant Valid() && State() == BumpAll(old(State()), bumps[..i])
      {
        assert bumps[..i + 1][..i] == bumps[..i];
        Bump(bumps[i]);
      }
      assert bumps[..|bumps|] == bumps;
    }

    /** Which listed ids are to be read, and which cached ones to be deleted. */
    method Compare(currentIds: set<Id>) returns (refresh: set<Id>, removed: set<Id>)
      ensures refresh == RefreshIds(idCache, currentIds) && removed == RemovedIds(idCache, currentIds)
    {
      var cachedIds := idCache.Keys;
      var newIds := currentIds - cachedIds;
      removed := cachedIds - currentIds;
      var staleIds := set id | id in idCache && idCache[id].state in INCOMPLETE_STATES && id in currentIds;
      refresh := newIds + staleIds;
    }

    /** The loop of deletions; it stops at an entry that is not there. */
    method DeleteRemoved(removed: set<Id>) returns (ok: bool, ghost deleted: set<Id>)
      requires Valid()
      modifies this`idCache
      ensures Valid() && ok == (removed <= old(idCache).Keys)
      ensures deleted <= removed * old(idCache).Keys && (ok ==> deleted == removed)
      ensures idCache == old(idCache) - deleted
    {
      deleted := {};
      var todo := removed;
      while todo != {}
        invariant todo <= removed && deleted == removed - todo && deleted <= old(idCache).Keys
        invariant Valid() && idCache == old(idCache) - deleted
        decreases todo
      {
        ghost var some := SomeElement(todo);
        assert some in todo;
        var rid :| rid in todo;
        if rid !in idCache {
          return false, deleted;
        }
        idCache := idCache - {rid};
        todo, deleted := todo - {rid}, deleted + {rid};
      }
      ok := true;
    }

    /** The second half of an incremental update: enter what was read, then delete. */
    method EnterAndDelete(refreshed: seq<Program>, removed: set<Id>)
      returns (programs: Result<seq<Program>>, ghost deleted: set<Id>)
      requires Valid()
      modifies this`idCache
      ensures Valid()
      ensures var c := old(idCache) + ById(refreshed);
        && deleted <= removed * c.Keys && (programs.Ok? <==> removed <= c.Keys)
        && idCache == c - if programs.Ok? then removed else deleted
      ensures programs.Ok? ==> Lists(programs.value, idCache)
    {
      CacheAll(refreshed);
      var ok;
      ok, deleted := DeleteRemoved(removed);
      if !ok {
        return Err("KeyError"), deleted;
      }
      var ps := Values(idCache);
      programs := Ok(ps);
    }

    /** It works on the id cache as the bumps of other tasks leave it, and raises when a
        removed id is no longer there. */
    method IncrementalUpdate(w: Awaits, ex: Exclude) returns (programs: Result<seq<Program>>, ghost deleted: set<Id>)
      requires Valid() && Synced(w.read)
      modifies this`epoch, this`idCache
      ensures Valid()
      ensures var (s, read, removed) := ToInstall(old(State()), w, ex);
        && deleted <= removed * (s.idCache + read).Keys
        && (programs.Ok? <==> removed <= (s.idCache + read).Keys)
        && State() == s.(idCache := (s.idCache + read) - if programs.Ok? then removed else deleted)
        && (programs.Ok? ==> Lists(programs.value, idCache))
    {
      OthersBump(w.whileListing);
      var refreshIds, removedIds := Compare(w.listed.ids);
      var refreshed: seq<Program> := [];
      if refreshIds != {} {
        refreshed := Mget(w.read, refreshIds, ex);
        OthersBump(w.whileReading);
      }
      programs, deleted := EnterAndDelete(refreshed, removedIds);
    }

    /** A hit changes nothing. A miss does what the protocol's fetch does with these
        answers and bumps, and publishes under the epoch it ends in; one that raises
        publishes nothing. */
    method GetAll(w: Awaits, ex: Exclude) returns (programs: Result<seq<Program>>, ghost deleted: set<Id>)
      requires Valid() && Synced(w.read)
      modifies this
      ensures Valid() && (programs.Ok? ==> programs.value == cached && Hit(State(), ex))
      ensures Hit(old(State()), ex) ==> programs.Ok? && State() == old(State())
      ensures !Hit(old(State()), ex) && Incremental(old(State()), ex) ==>
        var (s, read, removed) := ToInstall(old(State()), w, ex);
        && (programs.Ok? <==> removed <= (s.idCache + read).Keys)
        && deleted <= removed * (s.idCache + read).Keys
        && State() == Install(s, read, removed, deleted, ex)
      ensures !Hit(old(State()), ex) && !Incremental(old(State()), ex) ==>
        var (s, all) := ToPublish(old(State()), w, ex);
        programs.Ok? && State() == Publish(s, all, ex)
      ensures Quiet(w) && !Hit(old(State()), ex) ==>
        var trusted := if Incremental(old(State()), ex) then old(idCache) else map[];
        && programs.Ok? && ById(cached).Keys == w.read.blobs.Keys
        && forall id :: id in w.read.blobs ==>
             ById(cached)[id] ==
             if id in trusted && trusted[id].state in {ProgramState.Done, Discarded} then trusted[id]
             else Project(w.read.blobs[id], ex)
    {
      if Quiet(w) {
        QuietFetch(State(), w, ex);
        UnfinishedAreReadAgain(idCache, w.read, ex);
      }
      deleted := {};
      if cachedEpoch == epoch && cachedExclude == ex {
        return Ok(cached), {};
      }
      var fetched: seq<Program>;
      if idCache != map[] && cachedExclude == ex {
        programs, deleted := IncrementalUpdate(w, ex);
        if programs.Err? { return; }
        fetched := programs.value;
        ListsById(fetched, idCache);
      } else {
        fetched := Mget(w.read, w.listed.blobs.Keys, ex);
        OthersBump(w.whileListing);
        idCache := map[];
      }
      cached := fetched;
      cachedExclude := ex;
      cachedEpoch := epoch;
      programs := Ok(cached);
    }
  }
}
