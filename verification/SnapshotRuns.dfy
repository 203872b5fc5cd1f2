/** What the users of the snapshot have to do, in terms of their own writes and bumps
    (gigaevo/database/program_storage.py:15-137): runs that keep these rules serve every
    reader. */
module SnapshotRuns {
  import opened Prelude
  import opened Programs
  import opened SnapshotProtocol

  ghost predicate InIncremental(s: System) {
    && s.flight.Some?
    && var stage := s.flight.value.stage;
       stage.AskIds? || stage.GotIds? || stage.AskPrograms? || stage.GotPrograms?
  }

  /** When the last full fetch before moment `i` started. */
  ghost function LastScan(ss: seq<System>, es: seq<Event>, i: nat): nat
    requires |ss| == |es| + 1 && i <= |es|
    ensures LastScan(ss, es, i) <= i
  {
    if i == 0 then 0
    else if es[i - 1].Start? && !Incremental(ss[i - 1].snap, es[i - 1].exclude) then i - 1
    else LastScan(ss, es, i - 1)
  }

  /** No program that was finished in `v` is stored differently in `w`. */
  ghost predicate FinishedKept(v: View, w: View) {
    forall id :: id in v.blobs && id in w.blobs && Finished(v.blobs[id]) ==> w.blobs[id] == v.blobs[id]
  }

  /** Ids are never used again: what `v` adds was not stored before. */
  ghost predicate OnlyNewIds(ss: seq<System>, i: nat, v: View)
    requires i < |ss|
  {
    forall a, id :: 0 <= a <= i && id in v.ids && id !in ss[i].store.ids ==> id !in ss[a].store.ids
  }

  /** The rules: no bump while a fetch is in flight; while an incremental fetch is, no
      program is deleted and no id used again; and an incremental fetch starts only if no
      finished program has changed since the last full fetch started. */
  ghost predicate KeepsRules(ss: seq<System>, es: seq<Event>, i: nat)
    requires |ss| == |es| + 1 && i < |es|
  {
    match es[i]
    case Bump(_) => ss[i].flight.None?
    case Write(v) => InIncremental(ss[i]) ==> ss[i].store.ids <= v.ids && OnlyNewIds(ss, i, v)
    case Start(ex) =>
      Incremental(ss[i].snap, ex) ==>
        forall a :: LastScan(ss, es, i) <= a <= i ==> FinishedKept(ss[a].store, ss[i].store)
    case _ => true
  }

  // ---------------------------------------------------------------- where entries come from

  ghost predicate StoredBetween(ss: seq<System>, from: nat, to: nat, ex: Exclude, id: Id, p: Program)
    requires to < |ss|
  {
    exists a :: from <= a <= to && Seen(ss[a].store, ex, id) == Some(p)
  }

  /** Every entry is what the store showed at some moment in between. */
  ghost predicate From(m: map<Id, Program>, ss: seq<System>, from: nat, to: nat, ex: Exclude)
    requires to < |ss|
  {
    forall id :: id in m ==> StoredBetween(ss, from, to, ex, id, m[id])
  }

  lemma FromLater(m: map<Id, Program>, ss: seq<System>, from: nat, to: nat, ex: Exclude)
    requires to + 1 < |ss| && From(m, ss, from, to, ex)
    ensures From(m, ss, from, to + 1, ex)
  {
    forall id | id in m ensures StoredBetween(ss, from, to + 1, ex, id, m[id]) {
      assert StoredBetween(ss, from, to, ex, id, m[id]);
      var a :| from <= a <= to && Seen(ss[a].store, ex, id) == Some(m[id]);
    }
  }

  lemma ReadIsFrom(ss: seq<System>, from: nat, to: nat, ids: set<Id>, ex: Exclude)
    requires from <= to < |ss|
    ensures From(ReadOf(ss[to].store, ids, ex), ss, from, to, ex)
  {
    var m := ReadOf(ss[to].store, ids, ex);
    forall id | id in m ensures StoredBetween(ss, from, to, ex, id, m[id]) {
      assert Seen(ss[to].store, ex, id) == Some(m[id]);
    }
  }

  lemma FromParts(a: map<Id, Program>, b: map<Id, Program>, gone: set<Id>, ss: seq<System>,
                  from: nat, to: nat, ex: Exclude)
    requires to < |ss| && From(a, ss, from, to, ex) && From(b, ss, from, to, ex)
    ensures From((a + b) - gone, ss, from, to, ex) && From(a - gone, ss, from, to, ex)
  {
  }

  /** What the cached list, the id cache and the programs read hold was stored since the
      last full fetch started; what is listed or to be read is still stored. */
  ghost predicate Origins(ss: seq<System>, es: seq<Event>, i: nat)
    requires |ss| == |es| + 1 && i <= |es|
  {
    var s, j := ss[i], LastScan(ss, es, i);
    && (s.flight.None? || InIncremental(s) ==>
          From(s.snap.cached, ss, j, i, s.snap.cachedExclude) && From(s.snap.idCache, ss, j, i, s.snap.cachedExclude))
    && (InIncremental(s) ==> s.flight.value.exclude == s.snap.cachedExclude)
    && (s.flight.Some? ==>
          match s.flight.value.stage
          case GotIds(ids) => ids <= s.store.ids
          case AskPrograms(refresh, _) => refresh <= s.store.ids
          case GotPrograms(read, _) => From(read, ss, j, i, s.snap.cachedExclude)
          case GotAll(programs) => From(programs, ss, j, i, s.flight.value.exclude)
          case _ => true)
  }

  lemma OriginsLater(ss: seq<System>, es: seq<Event>, i: nat)
    requires IsRun(ss, es) && i < |es| && Origins(ss, es, i)
    ensures var s, j := ss[i], LastScan(ss, es, i);
      && (s.flight.None? || InIncremental(s) ==>
            From(s.snap.cached, ss, j, i + 1, s.snap.cachedExclude)
             && From(s.snap.idCache, ss, j, i + 1, s.snap.cachedExclude))
      && (s.flight.Some? && s.flight.value.stage.GotPrograms? ==>
            From(s.flight.value.stage.read, ss, j, i + 1, s.snap.cachedExclude))
      && (s.flight.Some? && s.flight.value.stage.GotAll? ==>
            From(s.flight.value.stage.programs, ss, j, i + 1, s.flight.value.exclude))
  {
    var s, j := ss[i], LastScan(ss, es, i);
    if s.flight.None? || InIncremental(s) {
      FromLater(s.snap.cached, ss, j, i, s.snap.cachedExclude);
      FromLater(s.snap.idCache, ss, j, i, s.snap.cachedExclude);
    }
    if s.flight.Some? && s.flight.value.stage.GotPrograms? {
      FromLater(s.flight.value.stage.read, ss, j, i, s.snap.cachedExclude);
    }
    if s.flight.Some? && s.flight.value.stage.GotAll? {
      FromLater(s.flight.value.stage.programs, ss, j, i, s.flight.value.exclude);
    }
  }

  lemma ReadKeepsOrigins(ss: seq<System>, es: seq<Event>, i: nat)
    requires IsRun(ss, es) && i < |es| && Origins(ss, es, i) && es[i].Read? && Synced(ss[i].store)
    ensures Origins(ss, es, i + 1)
  {
    var s, t, j := ss[i], ss[i + 1], LastScan(ss, es, i);
    assert Enabled(s, es[i]) && t == Next(s, es[i]);
    assert LastScan(ss, es, i + 1) == j;
    OriginsLater(ss, es, i);
    match s.flight.value.stage
    case AskPrograms(refresh, _) => ReadIsFrom(ss, j, i + 1, refresh, s.flight.value.exclude);
    case Scanned(ids) => ReadIsFrom(ss, j, i + 1, ids, s.flight.value.exclude);
    case _ =>
  }

  lemma ResumeKeepsOrigins(ss: seq<System>, es: seq<Event>, i: nat)
    requires IsRun(ss, es) && i < |es| && Origins(ss, es, i) && es[i].Resume?
    ensures Origins(ss, es, i + 1)
  {
    var s, t, j := ss[i], ss[i + 1], LastScan(ss, es, i);
    assert Enabled(s, es[i]) && t == Next(s, es[i]);
    assert LastScan(ss, es, i + 1) == j;
    OriginsLater(ss, es, i);
    var c, ex := s.snap.idCache, s.snap.cachedExclude;
    match s.flight.value.stage
    case GotIds(ids) => FromParts(c, map[], RemovedIds(c, ids), ss, j, i + 1, ex);
    case GotPrograms(read, removed) =>
      FromParts(c, read, removed, ss, j, i + 1, ex);
      FromParts(c, read, es[i].deleted, ss, j, i + 1, ex);
    case _ =>
  }

  lemma EventKeepsOrigins(ss: seq<System>, es: seq<Event>, i: nat)
    requires IsRun(ss, es) && i < |es| && Origins(ss, es, i) && KeepsRules(ss, es, i) && Synced(ss[i].store)
    ensures Origins(ss, es, i + 1)
  {
    assert Enabled(ss[i], es[i]) && ss[i + 1] == Next(ss[i], es[i]);
    OriginsLater(ss, es, i);
    match es[i]
    case Read => ReadKeepsOrigins(ss, es, i);
    case Resume(_) => ResumeKeepsOrigins(ss, es, i);
    case _ =>
  }

  // ---------------------------------------------------------------- the rules suffice

  /** A finished program the id cache holds is stored now as the cache shows it. */
  lemma TrustedIsKept(ss: seq<System>, es: seq<Event>, i: nat, ex: Exclude, id: Id)
    requires |ss| == |es| + 1 && i < |es| && Synced(ss[i].store)
    requires forall a :: LastScan(ss, es, i) <= a <= i ==> FinishedKept(ss[a].store, ss[i].store)
    requires From(ss[i].snap.idCache, ss, LastScan(ss, es, i), i, ex)
    requires id in ss[i].snap.idCache && id in ss[i].store.ids && Finished(ss[i].snap.idCache[id])
    ensures Seen(ss[i].store, ex, id) == Some(ss[i].snap.idCache[id])
  {
    var c, j := ss[i].snap.idCache, LastScan(ss, es, i);
    assert StoredBetween(ss, j, i, ex, id, c[id]);
    var a :| j <= a <= i && Seen(ss[a].store, ex, id) == Some(c[id]);
    assert FinishedKept(ss[a].store, ss[i].store);
  }

  lemma RuledStart(ss: seq<System>, es: seq<Event>, i: nat)
    requires IsRun(ss, es) && i < |es| && Origins(ss, es, i) && es[i].Start? && KeepsRules(ss, es, i)
    requires Synced(ss[i].store)
    ensures Respectful(ss[i], es[i])
  {
    var s, ex, j := ss[i], es[i].exclude, LastScan(ss, es, i);
    assert Enabled(s, es[i]);
    if Incremental(s.snap, ex) {
      var c := s.snap.idCache;
      forall id | id in c && id in s.store.ids && Finished(c[id]) ensures Shown(s.past, s.store, ex, id, Some(c[id])) {
        TrustedIsKept(ss, es, i, ex, id);
      }
    }
  }

  lemma RuledWrite(ss: seq<System>, es: seq<Event>, i: nat)
    requires IsRun(ss, es) && Initial(ss[0]) && i < |es|
    requires Origins(ss, es, i) && es[i].Write? && KeepsRules(ss, es, i)
    requires Shape(ss[i]) && Coherent(ss[i])
    ensures Respectful(ss[i], es[i])
  {
    var s, v, j := ss[i], es[i].store, LastScan(ss, es, i);
    assert Enabled(s, es[i]);
    if InIncremental(s) && s.flight.value.stage.AskIds? {
      var c, ex := s.snap.idCache, s.flight.value.exclude;
      SettledByIds(c, s.store.ids, s.store, ex);
      ListedNowIff(c, s.past, s.store, ex);
      forall id | id in c && id in v.ids && Finished(c[id]) ensures Shown(s.past + [s.store], v, ex, id, Some(c[id])) {
        assert StoredBetween(ss, j, i, ex, id, c[id]);
        var a :| j <= a <= i && Seen(ss[a].store, ex, id) == Some(c[id]);
        RunHasShape(ss, es, a);
        assert id in s.store.ids;
        ShownLater(s.past, s.store, v, ex, id, Some(c[id]));
      }
    }
  }

  lemma {:induction false} RuledRun(ss: seq<System>, es: seq<Event>, n: nat)
    requires IsRun(ss, es) && Initial(ss[0]) && n <= |es|
    requires forall i :: 0 <= i < |es| ==> KeepsRules(ss, es, i)
    ensures Origins(ss, es, n) && Coherent(ss[n])
    ensures forall i :: 0 <= i < n ==> Respectful(ss[i], es[i])
  {
    if n > 0 {
      RuledRun(ss, es, n - 1);
      RuledStep(ss, es, n - 1);
    }
  }

  lemma RuledStep(ss: seq<System>, es: seq<Event>, i: nat)
    requires IsRun(ss, es) && Initial(ss[0]) && i < |es| && KeepsRules(ss, es, i)
    requires Origins(ss, es, i) && Coherent(ss[i])
    ensures Origins(ss, es, i + 1) && Coherent(ss[i + 1]) && Respectful(ss[i], es[i])
  {
    RunHasShape(ss, es, i);
    EventKeepsOrigins(ss, es, i);
    RuledEvent(ss, es, i);
    CoherentStepIff(ss[i], es[i]);
    assert ss[i + 1] == Next(ss[i], es[i]);
  }

  lemma RuledEvent(ss: seq<System>, es: seq<Event>, i: nat)
    requires IsRun(ss, es) && Initial(ss[0]) && i < |es| && Origins(ss, es, i) && KeepsRules(ss, es, i)
    requires Shape(ss[i]) && Coherent(ss[i])
    ensures Respectful(ss[i], es[i])
  {
    match es[i]
    case Write(_) => RuledWrite(ss, es, i);
    case Start(_) => RuledStart(ss, es, i);
    case _ =>
  }

  /** From the first snapshot on, if all events keep the rules, every hit and every fetch
      that ends, which never raises, reports each program as it was at some moment since
      the last bump. */
  lemma RulesServeReaders(ss: seq<System>, es: seq<Event>, i: nat)
    requires IsRun(ss, es) && Initial(ss[0]) && i < |es|
    requires forall k :: 0 <= k < |es| ==> KeepsRules(ss, es, k)
    ensures forall ex :: Hit(ss[i].snap, ex) ==> Current(ss[i].snap.cached, ex, ss[i].past, ss[i].store)
    ensures Ends(ss[i], es[i]) ==>
      && Hit(ss[i + 1].snap, ss[i].flight.value.exclude)
      && Current(ss[i + 1].snap.cached, ss[i].flight.value.exclude, ss[i].past, ss[i].store)
  {
    RuledRun(ss, es, |es|);
    ReadersReceiveCurrent(ss, es, i);
  }
}
