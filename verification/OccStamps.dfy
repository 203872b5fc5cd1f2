/** The stamps of the protocol: although INCR runs outside the transaction, every
    EXEC raises the stamps of its key, and no stamp is ever written twice. */
module OccStamps {
  import opened Prelude
  import opened Programs
  import opened OccProtocol
  import opened OccSafety

  // ---------------------------------------------------------------- growth per key

  /** Every stamp written to `key` so far, and the one stored there, is below `t`. */
  ghost predicate Above(s: System, key: Id, t: nat) {
    && (key in s.blobs ==> s.blobs[key].atomicCounter < t)
    && (forall j :: 0 <= j < |s.log| && s.log[j].Key() == key ==> s.log[j].stamp < t)
  }

  ghost predicate ClientStamp(s: System, c: Client) {
    && (c.Stamped? ==> c.stamp <= s.counter && (Clean(s, c) ==> Above(s, c.op.program.id, c.stamp)))
    && (c.Writing? ==> c.start + |c.programs| <= s.counter + 1)
  }

  /** The counter is an upper bound of every stamp, and a client whose watch is still
      clean holds a stamp above everything written to its key. */
  ghost predicate Bounded(s: System) {
    && (forall k :: k in s.blobs ==> s.blobs[k].atomicCounter <= s.counter)
    && (forall j :: 0 <= j < |s.log| ==> s.log[j].stamp <= s.counter)
    && (forall i :: 0 <= i < |s.clients| ==> ClientStamp(s, s.clients[i]))
  }

  /** An EXEC commit is stamped above every earlier commit to its key. */
  ghost predicate Growing(log: seq<Commit>) {
    forall i, j :: 0 <= i < j < |log| && log[i].Key() == log[j].Key() && log[j].Merged? ==> log[i].stamp < log[j].stamp
  }

  lemma BoundedOther(s: System, s': System, i: nat, c: Client)
    requires Frame(s, s', i) && ClientStamp(s, c) && ClientFresh(s, c)
    ensures ClientStamp(s', c)
  {
    if c.Stamped? && Clean(s', c) && s'.log != s.log {
      forall j | 0 <= j < |s'.log| && s'.log[j].Key() == c.op.program.id ensures s'.log[j].stamp < c.stamp {
        assert j < |s.log| && s'.log[j] == s.log[j];
      }
    }
  }

  /** The step of one client, seen from its own stamp. */
  lemma BoundedOwn(merge: MergeFn, s: System, a: Action)
    requires Enabled(s, a) && Bounded(s)
    ensures ClientStamp(Next(merge, s, a), Next(merge, s, a).clients[a.client])
    ensures var s' := Next(merge, s, a); |s'.log| > |s.log| ==> s'.log[|s.log|].stamp <= s'.counter
  {
    assert ClientStamp(s, s.clients[a.client]);
  }

  lemma BoundedStep(s: System, s': System, i: nat)
    requires Frame(s, s', i) && Fresh(s) && Bounded(s)
    requires ClientStamp(s', s'.clients[i]) && (|s'.log| > |s.log| ==> s'.log[|s.log|].stamp <= s'.counter)
    ensures Bounded(s')
  {
    forall k | 0 <= k < |s'.clients| ensures ClientStamp(s', s'.clients[k]) {
      assert ClientStamp(s, s.clients[k]) && ClientFresh(s, s.clients[k]);
      if k != i { BoundedOther(s, s', i, s.clients[k]); }
    }
  }

  /** A successful EXEC stores a stamp above the stored one and above every stamp
      ever written to the key. */
  lemma ExecRaisesStamp(merge: MergeFn, s: System, a: Action)
    requires Enabled(s, a) && Fresh(s) && Bounded(s)
    ensures RaisesStamp(s, Next(merge, s, a))
  {
    assert ClientStamp(s, s.clients[a.client]) && ClientFresh(s, s.clients[a.client]);
  }

  ghost predicate RaisesStamp(s: System, s': System) {
    |s'.log| > |s.log| && s'.log[|s.log|].Merged? ==> Above(s, s'.log[|s.log|].Key(), s'.log[|s.log|].stamp)
  }

  lemma GrowingStep(s: System, s': System, i: nat)
    requires Frame(s, s', i) && RaisesStamp(s, s') && Growing(s.log)
    ensures Growing(s'.log)
  {
  }

  /** In every run, bulk writers included, the stamps of the EXEC commits of a key
      grow past every earlier commit of that key. */
  lemma {:induction false} StampsGrow(merge: MergeFn, s: System, acts: seq<Action>)
    requires Initial(s) && Runs(merge, s, acts)
    ensures Bounded(After(merge, s, acts))
    ensures Growing(After(merge, s, acts).log)
    decreases |acts|
  {
    if acts != [] {
      var front := acts[..|acts| - 1];
      StampsGrow(merge, s, front);
      NoLostUpdate(merge, s, front);
      var mid, last := After(merge, s, front), acts[|acts| - 1];
      NextFrame(merge, mid, last);
      BoundedOwn(merge, mid, last);
      ExecRaisesStamp(merge, mid, last);
      BoundedStep(mid, After(merge, s, acts), last.client);
      GrowingStep(mid, After(merge, s, acts), last.client);
    }
  }

  // ---------------------------------------------------------------- unique stamps

  /** Stamp `t` is reserved by this client and not written yet. */
  ghost predicate Holds(c: Client, t: nat) {
    (c.Stamped? && t == c.stamp) || (c.Writing? && c.start + c.written <= t < c.start + |c.programs|)
  }

  /** Reserved and written stamps all come from this run, and no two coincide. */
  ghost predicate Unique(s: System, first: nat) {
    && first <= s.counter
    && (forall i, t: nat :: 0 <= i < |s.clients| && Holds(s.clients[i], t) ==> first < t <= s.counter)
    && (forall j :: 0 <= j < |s.log| ==> first < s.log[j].stamp <= s.counter)
    && (forall i, k, t: nat :: 0 <= i < k < |s.clients| && Holds(s.clients[i], t) ==> !Holds(s.clients[k], t))
    && (forall i, j :: 0 <= i < |s.clients| && 0 <= j < |s.log| ==> !Holds(s.clients[i], s.log[j].stamp))
    && (forall i, j :: 0 <= i < j < |s.log| ==> s.log[i].stamp != s.log[j].stamp)
  }

  /** A client's reservations after its own step are its old ones or above the old
      counter; a stamp it writes was its own and is given up. */
  ghost predicate HoldsFrame(s: System, s': System, i: nat)
    requires i < |s.clients| && |s'.clients| == |s.clients|
  {
    var c, c' := s.clients[i], s'.clients[i];
    && (forall t: nat :: Holds(c', t) ==> Holds(c, t) || s.counter < t <= s'.counter)
    && (|s'.log| > |s.log| ==> Holds(c, s'.log[|s.log|].stamp) && !Holds(c', s'.log[|s.log|].stamp))
  }

  lemma HoldsExec(merge: MergeFn, s: System, i: nat)
    requires i < |s.clients| && s.clients[i].Stamped?
    ensures HoldsFrame(s, Exec(merge, s, i), i)
  {
  }

  lemma HoldsBulk(s: System, i: nat)
    requires i < |s.clients| && s.clients[i].Writing?
    ensures HoldsFrame(s, BulkWrite(s, i), i)
  {
  }

  lemma HoldsOwn(merge: MergeFn, s: System, a: Action)
    requires Enabled(s, a)
    ensures HoldsFrame(s, Next(merge, s, a), a.client)
  {
    if a.Step? && s.clients[a.client].Stamped? {
      HoldsExec(merge, s, a.client);
    } else if a.Step? && s.clients[a.client].Writing? {
      HoldsBulk(s, a.client);
    }
  }

  lemma UniqueStep(s: System, s': System, i: nat, first: nat)
    requires Frame(s, s', i) && HoldsFrame(s, s', i) && Unique(s, first)
    ensures Unique(s', first)
  {
    if |s'.log| > |s.log| {
      assert Holds(s.clients[i], s'.log[|s.log|].stamp);
    }
  }

  /** All stamps ever written in a run are pairwise different, INCRBY ranges
      included, and above every stamp stored before the run. */
  lemma {:induction false} StampsUnique(merge: MergeFn, s: System, acts: seq<Action>)
    requires Initial(s) && Runs(merge, s, acts)
    ensures Unique(After(merge, s, acts), s.counter)
    decreases |acts|
  {
    if acts != [] {
      var front := acts[..|acts| - 1];
      StampsUnique(merge, s, front);
      var mid, last := After(merge, s, front), acts[|acts| - 1];
      NextFrame(merge, mid, last);
      HoldsOwn(merge, mid, last);
      UniqueStep(mid, After(merge, s, acts), last.client, s.counter);
    }
  }

  // ---------------------------------------------------------------- unwatched writers

  lemma Extend(merge: MergeFn, s: System, acts: seq<Action>, a: Action)
    requires Runs(merge, s, acts) && Enabled(After(merge, s, acts), a)
    ensures Runs(merge, s, acts + [a])
    ensures After(merge, s, acts + [a]) == Next(merge, After(merge, s, acts), a)
  {
    assert (acts + [a])[..|acts|] == acts;
  }

  /** Client 0 reserves a stamp for an exclusive write of `p`. */
  lemma ReserveFirst(merge: MergeFn, s: System, p: Program) returns (acts: seq<Action>)
    requires Initial(s) && |s.clients| >= 2
    ensures Runs(merge, s, acts)
    ensures var e := After(merge, s, acts);
      e.blobs == s.blobs && e.counter == s.counter + 1 && e.clients == s.clients[0 := Writing([p], s.counter + 1, 0)]
  {
    acts := [];
    Extend(merge, s, acts, BeginBulk(0, [p])); acts := acts + [BeginBulk(0, [p])];
    Extend(merge, s, acts, Step(0)); acts := acts + [Step(0)];
  }

  /** Client 1 begins an update and watches its key. */
  lemma StartUpdate(merge: MergeFn, s: System, start: seq<Action>, p: Program) returns (acts: seq<Action>)
    requires Runs(merge, s, start)
    requires var m := After(merge, s, start); |m.clients| >= 2 && m.clients[1].Idle?
    ensures Runs(merge, s, acts)
    ensures var m, e := After(merge, s, start), After(merge, s, acts);
      && e.blobs == m.blobs && e.counter == m.counter && |e.clients| >= 2 && e.clients[0] == m.clients[0]
      && e.clients[1] == Watched(Update(p), e.Version(p.id))
  {
    acts := start;
    Extend(merge, s, acts, Begin(1, Update(p))); acts := acts + [Begin(1, Update(p))];
    Extend(merge, s, acts, Step(1)); acts := acts + [Step(1)];
  }

  /** It reads its key and reserves a stamp. */
  lemma ReadAndReserve(merge: MergeFn, s: System, start: seq<Action>, p: Program) returns (acts: seq<Action>)
    requires Runs(merge, s, start)
    requires var m := After(merge, s, start);
      |m.clients| >= 2 && p.id !in m.blobs && m.clients[1] == Watched(Update(p), m.Version(p.id))
    ensures Runs(merge, s, acts)
    ensures var m, e := After(merge, s, start), After(merge, s, acts);
      && e.blobs == m.blobs && |e.clients| >= 2 && e.clients[0] == m.clients[0]
      && e.clients[1] == Stamped(Update(p), e.Version(p.id), None, m.counter + 1)
  {
    acts := start;
    Extend(merge, s, acts, Step(1)); acts := acts + [Step(1)];
    Extend(merge, s, acts, Step(1)); acts := acts + [Step(1)];
  }

  /** Only EXEC commits raise the stored stamp: an exclusive write that reserved its
      stamp before another client's commit lowers it when it lands afterwards. */
  lemma ExclusiveWriteCanLowerStamp(merge: MergeFn, s: System, p: Program) returns (acts: seq<Action>)
    requires Initial(s) && |s.clients| >= 2 && p.id !in s.blobs
    ensures Runs(merge, s, acts) && Enabled(After(merge, s, acts), Step(0))
    ensures var before, after := After(merge, s, acts).blobs, Next(merge, After(merge, s, acts), Step(0)).blobs;
      p.id in before && p.id in after && after[p.id].atomicCounter < before[p.id].atomicCounter
  {
    acts := ReserveFirst(merge, s, p);
    acts := StartUpdate(merge, s, acts, p);
    acts := ReadAndReserve(merge, s, acts, p);
    Extend(merge, s, acts, Step(1)); acts := acts + [Step(1)];
  }

  /** This exclusive writer has reserved stamp `t` for `key` and not written it yet. */
  ghost predicate Reserves(c: Client, key: Id, t: nat) {
    c.Writing? && c.start + c.written <= t < c.start + |c.programs| && c.programs[t - c.start].id == key
  }

  /** Every stamp an exclusive writer still holds is above what its key has seen. */
  ghost predicate OwnerStamp(s: System, c: Client) {
    c.Writing? ==> forall k :: c.written <= k < |c.programs| ==> Above(s, c.programs[k].id, c.start + k)
  }

  ghost predicate Owned(s: System) {
    forall i :: 0 <= i < |s.clients| ==> OwnerStamp(s, s.clients[i])
  }

  /** No commit overtakes a reservation: when client `i` commits to a key, no other client
      holds a smaller stamp for that key that it has not written yet. */
  ghost predicate OvertakesNobody(s: System, s': System, i: nat) {
    |s'.log| > |s.log| ==>
      forall k, t: nat :: 0 <= k < |s.clients| && k != i && Reserves(s.clients[k], s'.log[|s.log|].Key(), t) ==>
        s'.log[|s.log|].stamp <= t
  }

  ghost predicate NoOvertaking(merge: MergeFn, s: System, acts: seq<Action>)
    requires Runs(merge, s, acts)
    decreases |acts|
  {
    acts != [] ==>
      && NoOvertaking(merge, s, acts[..|acts| - 1])
      && OvertakesNobody(After(merge, s, acts[..|acts| - 1]), After(merge, s, acts), acts[|acts| - 1].client)
  }

  ghost predicate AllGrowing(log: seq<Commit>) {
    forall i, j :: 0 <= i < j < |log| && log[i].Key() == log[j].Key() ==> log[i].stamp < log[j].stamp
  }

  lemma OwnedOther(s: System, s': System, i: nat, k: nat, first: nat)
    requires Frame(s, s', i) && HoldsFrame(s, s', i) && Unique(s, first) && OvertakesNobody(s, s', i)
    requires k < |s.clients| && k != i && OwnerStamp(s, s.clients[k])
    ensures OwnerStamp(s', s'.clients[k])
  {
    var c := s.clients[k];
    if c.Writing? {
      forall n | c.written <= n < |c.programs| ensures Above(s', c.programs[n].id, c.start + n) {
        assert Above(s, c.programs[n].id, c.start + n);
        if |s'.log| > |s.log| && s'.log[|s.log|].Key() == c.programs[n].id {
          assert Reserves(c, c.programs[n].id, c.start + n);
          assert Holds(c, c.start + n) && Holds(s.clients[i], s'.log[|s.log|].stamp);
        }
      }
    }
  }

  lemma OwnedBulkWrite(s: System, i: nat)
    requires i < |s.clients| && s.clients[i].Writing? && OwnerStamp(s, s.clients[i])
    ensures OwnerStamp(BulkWrite(s, i), BulkWrite(s, i).clients[i])
    ensures var s' := BulkWrite(s, i);
      |s'.log| > |s.log| ==> Above(s, s'.log[|s.log|].Key(), s'.log[|s.log|].stamp)
  {
    var c, s' := s.clients[i], BulkWrite(s, i);
    forall n | c.written < n < |c.programs| ensures Above(s', c.programs[n].id, c.start + n) {
      assert Above(s, c.programs[n].id, c.start + n);
    }
  }

  lemma OwnedOwn(merge: MergeFn, s: System, a: Action)
    requires Enabled(s, a) && Fresh(s) && Bounded(s) && OwnerStamp(s, s.clients[a.client])
    ensures var s' := Next(merge, s, a);
      && OwnerStamp(s', s'.clients[a.client])
      && (|s'.log| > |s.log| ==> Above(s, s'.log[|s.log|].Key(), s'.log[|s.log|].stamp))
  {
    ExecRaisesStamp(merge, s, a);
    if a.Step? && s.clients[a.client].Writing? {
      OwnedBulkWrite(s, a.client);
    }
  }

  lemma AllGrowingStep(s: System, s': System, i: nat)
    requires Frame(s, s', i) && AllGrowing(s.log)
    requires |s'.log| > |s.log| ==> Above(s, s'.log[|s.log|].Key(), s'.log[|s.log|].stamp)
    ensures AllGrowing(s'.log)
  {
  }

  /** As long as no commit overtakes a reservation, every commit of every kind raises the
      stamp of its key. */
  lemma {:induction false} UnovertakenStampsGrow(merge: MergeFn, s: System, acts: seq<Action>)
    requires Initial(s) && Runs(merge, s, acts) && NoOvertaking(merge, s, acts)
    ensures Owned(After(merge, s, acts))
    ensures AllGrowing(After(merge, s, acts).log)
    decreases |acts|
  {
    if acts != [] {
      var front, last := acts[..|acts| - 1], acts[|acts| - 1];
      UnovertakenStampsGrow(merge, s, front);
      StampsGrow(merge, s, front);
      StampsUnique(merge, s, front);
      NoLostUpdate(merge, s, front);
      var mid, e := After(merge, s, front), After(merge, s, acts);
      NextFrame(merge, mid, last);
      HoldsOwn(merge, mid, last);
      assert OwnerStamp(mid, mid.clients[last.client]);
      OwnedOwn(merge, mid, last);
      AllGrowingStep(mid, e, last.client);
      forall k | 0 <= k < |e.clients| ensures OwnerStamp(e, e.clients[k]) {
        assert OwnerStamp(mid, mid.clients[k]);
        if k != last.client { OwnedOther(mid, e, last.client, k, s.counter); }
      }
    }
  }

  /** This stamp was written to this key, at or after position `from` of the log. */
  ghost predicate WrittenFrom(log: seq<Commit>, from: nat, key: Id, t: nat) {
    exists j :: from <= j < |log| && log[j].Key() == key && log[j].stamp == t
  }

  /** A reservation stays until it is written. */
  lemma ReservationStep(merge: MergeFn, s: System, a: Action, k: nat, key: Id, t: nat)
    requires Enabled(s, a) && k < |s.clients| && Reserves(s.clients[k], key, t)
    ensures var s' := Next(merge, s, a);
      && k < |s'.clients|
      && (Reserves(s'.clients[k], key, t) || WrittenFrom(s'.log, |s.log|, key, t))
  {
    NextFrame(merge, s, a);
    var s' := Next(merge, s, a);
    if a.client == k && t == s.clients[k].start + s.clients[k].written {
      assert s'.log[|s.log|].Key() == key && s'.log[|s.log|].stamp == t;
    }
  }

  lemma {:induction false} PrefixRuns(merge: MergeFn, s: System, acts: seq<Action>, n: nat)
    requires Runs(merge, s, acts) && n <= |acts|
    ensures Runs(merge, s, acts[..n])
    decreases |acts|
  {
    if n < |acts| {
      PrefixRuns(merge, s, acts[..|acts| - 1], n);
      assert acts[..|acts| - 1][..n] == acts[..n];
    } else {
      assert acts[..n] == acts;
    }
  }

  /** From any moment of a run on, the log only gets longer, and what is reserved is still
      reserved or has been written since. */
  lemma {:induction false} ReservedUntilWritten(merge: MergeFn, s: System, acts: seq<Action>,
                                                n: nat, k: nat, key: Id, t: nat)
    requires Runs(merge, s, acts) && n <= |acts| && Runs(merge, s, acts[..n])
    requires var mid := After(merge, s, acts[..n]); k < |mid.clients| && Reserves(mid.clients[k], key, t)
    ensures var mid, e := After(merge, s, acts[..n]), After(merge, s, acts);
      && |mid.log| <= |e.log| && e.log[..|mid.log|] == mid.log && k < |e.clients|
      && (Reserves(e.clients[k], key, t) || WrittenFrom(e.log, |mid.log|, key, t))
    decreases |acts|
  {
    if n == |acts| {
      assert acts[..n] == acts;
    } else {
      var front, last := acts[..|acts| - 1], acts[|acts| - 1];
      assert front[..n] == acts[..n];
      ReservedUntilWritten(merge, s, front, n, k, key, t);
      var mid, before := After(merge, s, acts[..n]), After(merge, s, front);
      NextFrame(merge, before, last);
      if Reserves(before.clients[k], key, t) {
        ReservationStep(merge, before, last, k, key, t);
      } else {
        var j :| |mid.log| <= j < |before.log| && before.log[j].Key() == key && before.log[j].stamp == t;
        assert After(merge, s, acts).log[j] == before.log[j];
      }
    }
  }

  /** A reservation still held when commit `m` of its key is done is written later. */
  lemma LaterStampIsGreater(merge: MergeFn, s: System, acts: seq<Action>, n: nat, k: nat, m: nat, t: nat)
    requires Runs(merge, s, acts) && n <= |acts| && Runs(merge, s, acts[..n])
    requires var after := After(merge, s, acts[..n]);
      m < |after.log| && k < |after.clients| && Reserves(after.clients[k], after.log[m].Key(), t)
    requires forall c :: c in After(merge, s, acts).clients ==> c.Idle?
    requires AllGrowing(After(merge, s, acts).log)
    ensures After(merge, s, acts[..n]).log[m].stamp < t
  {
    var after, e := After(merge, s, acts[..n]), After(merge, s, acts);
    ReservedUntilWritten(merge, s, acts, n, k, after.log[m].Key(), t);
    assert e.clients[k] in e.clients;
    var j :| |after.log| <= j < |e.log| && e.log[j].Key() == after.log[m].Key() && e.log[j].stamp == t;
    assert e.log[m] == e.log[..|after.log|][m];
  }

  /** If all reservations get written and the stamps of every key grow, then no commit of
      any prefix overtook a reservation. */
  lemma {:induction false} GrowingWasNotOvertaken(merge: MergeFn, s: System, acts: seq<Action>, n: nat)
    requires Runs(merge, s, acts) && n <= |acts| && Runs(merge, s, acts[..n])
    requires forall c :: c in After(merge, s, acts).clients ==> c.Idle?
    requires AllGrowing(After(merge, s, acts).log)
    ensures NoOvertaking(merge, s, acts[..n])
  {
    if n > 0 {
      var now := acts[..n];
      assert now[..n - 1] == acts[..n - 1];
      GrowingWasNotOvertaken(merge, s, acts, n - 1);
      var mid, after := After(merge, s, acts[..n - 1]), After(merge, s, now);
      var last := now[n - 1];
      NextFrame(merge, mid, last);
      if |after.log| > |mid.log| {
        var m := |mid.log|;
        forall k, t: nat | 0 <= k < |mid.clients| && k != last.client && Reserves(mid.clients[k], after.log[m].Key(), t)
          ensures after.log[m].stamp <= t
        {
          assert after.clients[k] == mid.clients[k];
          LaterStampIsGreater(merge, s, acts, n, k, m, t);
        }
      }
    }
  }

  /** For every run that ends with all clients idle: the stamps of every key grow with
      every commit if and only if no commit ever overtook a smaller reservation of its
      key that another client had not written yet. */
  lemma StampsGrowIff(merge: MergeFn, s: System, acts: seq<Action>)
    requires Initial(s) && Runs(merge, s, acts)
    requires forall c :: c in After(merge, s, acts).clients ==> c.Idle?
    ensures AllGrowing(After(merge, s, acts).log) <==> NoOvertaking(merge, s, acts)
  {
    if NoOvertaking(merge, s, acts) {
      UnovertakenStampsGrow(merge, s, acts);
    }
    if AllGrowing(After(merge, s, acts).log) {
      assert acts[..|acts|] == acts;
      GrowingWasNotOvertaken(merge, s, acts, |acts|);
    }
  }

  // ---------------------------------------------------------------- exclusive ownership

  /** This client has reserved a stamp for `key` and not written it yet. */
  ghost predicate Owns(c: Client, key: Id) {
    exists t: nat :: Reserves(c, key, t)
  }

  /** The ownership the exclusive writers demand: nobody else commits to a program
      between the reservation and the write of its owner. */
  ghost predicate RespectsOwners(s: System, s': System, i: nat) {
    |s'.log| > |s.log| ==> forall k :: 0 <= k < |s.clients| && k != i ==> !Owns(s.clients[k], s'.log[|s.log|].Key())
  }

  ghost predicate OwnersRespected(merge: MergeFn, s: System, acts: seq<Action>)
    requires Runs(merge, s, acts)
    decreases |acts|
  {
    acts != [] ==>
      && OwnersRespected(merge, s, acts[..|acts| - 1])
      && RespectsOwners(After(merge, s, acts[..|acts| - 1]), After(merge, s, acts), acts[|acts| - 1].client)
  }

  lemma {:induction false} OwnersAreNotOvertaken(merge: MergeFn, s: System, acts: seq<Action>)
    requires Runs(merge, s, acts) && OwnersRespected(merge, s, acts)
    ensures NoOvertaking(merge, s, acts)
    decreases |acts|
  {
    if acts != [] {
      OwnersAreNotOvertaken(merge, s, acts[..|acts| - 1]);
    }
  }

  /** Under exclusive ownership the unwatched writers are safe too: every commit of
      every kind raises the stamp of its key. */
  lemma OwnedStampsGrow(merge: MergeFn, s: System, acts: seq<Action>)
    requires Initial(s) && Runs(merge, s, acts) && OwnersRespected(merge, s, acts)
    ensures AllGrowing(After(merge, s, acts).log)
  {
    OwnersAreNotOvertaken(merge, s, acts);
    UnovertakenStampsGrow(merge, s, acts);
  }
}
