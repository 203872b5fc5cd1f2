/** Status sets and blobs of the sequential store: which operations keep every
    stored program in exactly one status set, and that chunking a batch changes
    nothing. */
module ProgramStoreSync {
  import opened Prelude
  import opened Programs
  import opened OccPartition
  import opened ProgramStore

  // ---------------------------------------------------------------- batches, pointwise

  lemma {:induction false} WriteAllStates(blobs: map<Id, Program>, ps: seq<Program>, start: nat, to: ProgramState)
    requires forall p :: p in ps ==> p.state == to
    ensures var after := WriteAll(blobs, ps, start);
      && after.Keys == blobs.Keys + Ids(ps)
      && (forall id :: id in Ids(ps) ==> after[id].state == to)
      && (forall id :: id in blobs && id !in Ids(ps) ==> after[id] == blobs[id])
  {
    if ps != [] {
      var front, last := ps[..|ps| - 1], ps[|ps| - 1];
      WriteAllStates(blobs, front, start, to);
      assert ps == front + [last];
      assert Ids(ps) == Ids(front) + {last.id};
    }
  }

  /** A batch by ids changes exactly the matching programs: state and stamp, nothing
      else, and no program appears or disappears. */
  lemma {:induction false} PatchAllStates(blobs: map<Id, Program>, ids: seq<Id>, to: ProgramState, start: nat)
    requires forall id :: id in ids ==> id in blobs
    ensures var after := PatchAll(blobs, ids, to, start);
      && after.Keys == blobs.Keys
      && (forall id :: id in ids ==> after[id] == blobs[id].(state := to, atomicCounter := after[id].atomicCounter))
      && (forall id :: id in blobs && id !in ids ==> after[id] == blobs[id])
  {
    if ids != [] {
      PatchAllStates(blobs, ids[..|ids| - 1], to, start);
      assert ids == ids[..|ids| - 1] + [ids[|ids| - 1]];
    }
  }

  /** The i-th program patched gets the i-th reserved stamp. */
  lemma {:induction false} PatchAllStamps(blobs: map<Id, Program>, ids: seq<Id>, to: ProgramState, start: nat, i: nat)
    requires i < |ids| && Distinct(ids) && forall id :: id in ids ==> id in blobs
    ensures ids[i] in PatchAll(blobs, ids, to, start)
    ensures PatchAll(blobs, ids, to, start)[ids[i]] == blobs[ids[i]].(state := to, atomicCounter := start + i)
  {
    PatchAllStates(blobs, ids, to, start);
    if i < |ids| - 1 {
      PatchAllStamps(blobs, ids[..|ids| - 1], to, start, i);
      assert ids[i] != ids[|ids| - 1];
    }
  }

  lemma PatchPointwise(db: Db, ms: seq<Id>, from: ProgramState, to: ProgramState)
    requires Distinct(ms) && forall id :: id in ms ==> id in db.blobs
    ensures var db' := Patch(db, ms, from, to);
      && db'.counter - db.counter == |ms| && |ms| == |Elements(ms)|
      && db'.blobs.Keys == db.blobs.Keys
      && (forall id :: id in db.blobs && id !in ms ==> db'.blobs[id] == db.blobs[id])
      && (forall i :: 0 <= i < |ms| ==>
            db'.blobs[ms[i]] == db.blobs[ms[i]].(state := to, atomicCounter := db.counter + 1 + i))
  {
    DistinctSize(ms);
    PatchAllStates(db.blobs, ms, to, db.counter + 1);
    forall i | 0 <= i < |ms|
      ensures PatchAll(db.blobs, ms, to, db.counter + 1)[ms[i]]
        == db.blobs[ms[i]].(state := to, atomicCounter := db.counter + 1 + i)
    {
      PatchAllStamps(db.blobs, ms, to, db.counter + 1, i);
    }
  }

  /** If no matching id is listed twice, the batch changes exactly the programs that are
      stored in `from`, counts them, and stamps the i-th of them counter + 1 + i. */
  lemma BatchIdsPointwise(db: Db, ids: seq<Id>, from: ProgramState, to: ProgramState)
    requires Distinct(Matching(db.blobs, ids, from))
    ensures var db', ms := BatchIds(db, ids, from, to), Matching(db.blobs, ids, from);
      && db'.counter - db.counter == |ms| && |ms| == |Elements(ms)|
      && db'.blobs.Keys == db.blobs.Keys
      && (forall id :: id in db.blobs && !(id in ids && db.blobs[id].state == from) ==> db'.blobs[id] == db.blobs[id])
      && (forall i :: 0 <= i < |ms| ==>
            db'.blobs[ms[i]] == db.blobs[ms[i]].(state := to, atomicCounter := db.counter + 1 + i))
  {
    PatchPointwise(db, Matching(db.blobs, ids, from), from, to);
  }

  // ---------------------------------------------------------------- chunks

  lemma {:induction false} MatchingSplit(blobs: map<Id, Program>, a: seq<Id>, b: seq<Id>, from: ProgramState)
    ensures Matching(blobs, a + b, from) == Matching(blobs, a, from) + Matching(blobs, b, from)
  {
    if b == [] {
      assert a + b == a;
    } else {
      var ab, front, id := a + b, b[..|b| - 1], b[|b| - 1];
      MatchingSplit(blobs, a, front, from);
      assert ab[..|ab| - 1] == a + front && ab[|ab| - 1] == id;
      var ma, mf := Matching(blobs, a, from), Matching(blobs, front, from);
      assert ma + (mf + [id]) == (ma + mf) + [id];
    }
  }

  /** Patching makes the same of both programs. */
  ghost predicate SamePatch(p: Program, q: Program, to: ProgramState) {
    Stamp(p.(state := to), 0) == Stamp(q.(state := to), 0)
  }

  lemma SameStamped(p: Program, q: Program, to: ProgramState, t: nat)
    requires SamePatch(p, q, to)
    ensures Stamp(p.(state := to), t) == Stamp(q.(state := to), t)
  {
    assert Stamp(Stamp(p.(state := to), 0), t) == Stamp(p.(state := to), t);
  }

  lemma PatchLast(blobs: map<Id, Program>, ids: seq<Id>, id: Id, to: ProgramState, start: nat)
    requires forall k :: k in ids + [id] ==> k in blobs
    ensures id in blobs && forall k :: k in ids ==> k in blobs
    ensures PatchAll(blobs, ids + [id], to, start)
         == PatchAll(blobs, ids, to, start)[id := Stamp(blobs[id].(state := to), start + |ids|)]
  {
    assert (ids + [id])[..|ids|] == ids && id in ids + [id];
    forall k | k in ids ensures k in blobs {
      assert k in ids + [id];
    }
  }

  lemma PatchBoth(blobs: map<Id, Program>, mid: map<Id, Program>, ids: seq<Id>, front: seq<Id>, id: Id,
                  to: ProgramState, start: nat, start': nat)
    requires forall k :: k in ids + [id] ==> k in blobs
    requires forall k :: k in front + [id] ==> k in mid
    requires (forall k :: k in ids ==> k in blobs) && (forall k :: k in front ==> k in mid)
    requires PatchAll(blobs, ids, to, start) == PatchAll(mid, front, to, start')
    requires start + |ids| == start' + |front|
    requires id in blobs && id in mid && SamePatch(mid[id], blobs[id], to)
    ensures PatchAll(blobs, ids + [id], to, start) == PatchAll(mid, front + [id], to, start')
  {
    PatchLast(blobs, ids, id, to, start);
    PatchLast(mid, front, id, to, start');
    SameStamped(mid[id], blobs[id], to, start + |ids|);
  }

  lemma {:induction false} PatchAllSplit(blobs: map<Id, Program>, mid: map<Id, Program>, a: seq<Id>, b: seq<Id>,
                                         to: ProgramState, start: nat)
    requires forall id :: id in a + b ==> id in blobs
    requires mid == PatchAll(blobs, a, to, start)
    requires forall id :: id in b ==> id in mid && SamePatch(mid[id], blobs[id], to)
    ensures PatchAll(blobs, a + b, to, start) == PatchAll(mid, b, to, start + |a|)
  {
    if b == [] {
      assert a + b == a;
    } else {
      var front, id := b[..|b| - 1], b[|b| - 1];
      assert b == front + [id] && a + b == (a + front) + [id];
      PatchAllSplit(blobs, mid, a, front, to, start);
      PatchBoth(blobs, mid, a + front, front, id, to, start, start + |a|);
    }
  }

  /** Two stores in which the same ones of these ids are in `from` match the same ones. */
  lemma {:induction false} MatchingLocal(blobs: map<Id, Program>, other: map<Id, Program>, ids: seq<Id>,
                                         from: ProgramState)
    requires forall id :: id in ids ==>
      (id in blobs && blobs[id].state == from <==> id in other && other[id].state == from)
    ensures Matching(blobs, ids, from) == Matching(other, ids, from)
  {
    if ids != [] {
      assert ids[|ids| - 1] in ids;
      MatchingLocal(blobs, other, ids[..|ids| - 1], from);
    }
  }

  /** Moving a set of ids twice in overlapping parts is moving the union: the target
      set wins whichever part comes last. */
  lemma MoveUnion(members: set<(ProgramState, Id)>, a: set<Id>, b: set<Id>, from: ProgramState, to: ProgramState)
    ensures Move(members, a + b, from, to) == Move(Move(members, a, from, to), b, from, to)
  {
    var one, two := Move(members, a + b, from, to), Move(Move(members, a, from, to), b, from, to);
    forall s, id ensures (s, id) in one <==> (s, id) in two {
      assert (s, id) in Move(members, a, from, to) <==>
        ((s, id) in members && !(s == from && id in a)) || (s == to && id in a);
    }
  }

  lemma ElementsConcat<T>(a: seq<T>, b: seq<T>)
    ensures Elements(a + b) == Elements(a) + Elements(b)
  {
  }

  lemma DistinctParts(a: seq<Id>, b: seq<Id>)
    requires Distinct(a + b)
    ensures forall id :: id in b ==> id !in a
  {
    forall i, j | 0 <= i < |a| && 0 <= j < |b| ensures a[i] != b[j] {
      assert (a + b)[i] != (a + b)[|a| + j];
    }
  }

  /** A batch over these ids does not patch a program twice, or patching twice is
      patching once. */
  ghost predicate NoneMovedTwice(blobs: map<Id, Program>, ids: seq<Id>, from: ProgramState, to: ProgramState) {
    from == to || Distinct(Matching(blobs, ids, from))
  }

  /** The second part of a batch finds the same programs after the first. */
  lemma SecondPartUnchanged(blobs: map<Id, Program>, a: seq<Id>, b: seq<Id>,
                            from: ProgramState, to: ProgramState, start: nat)
    requires NoneMovedTwice(blobs, a + b, from, to)
    ensures var mid := PatchAll(blobs, Matching(blobs, a, from), to, start);
      && Matching(mid, b, from) == Matching(blobs, b, from)
      && (forall id :: id in Matching(blobs, b, from) ==> id in mid && SamePatch(mid[id], blobs[id], to))
  {
    var ma, mb := Matching(blobs, a, from), Matching(blobs, b, from);
    PatchAllStates(blobs, ma, to, start);
    MatchingSplit(blobs, a, b, from);
    if from != to {
      DistinctParts(ma, mb);
    }
    MatchingLocal(PatchAll(blobs, ma, to, start), blobs, b, from);
  }

  lemma PatchSplit(db: Db, ma: seq<Id>, mb: seq<Id>, from: ProgramState, to: ProgramState)
    requires forall id :: id in ma + mb ==> id in db.blobs
    requires var mid := PatchAll(db.blobs, ma, to, db.counter + 1);
      forall id :: id in mb ==> id in mid && SamePatch(mid[id], db.blobs[id], to)
    ensures Patch(db, ma + mb, from, to) == Patch(Patch(db, ma, from, to), mb, from, to)
  {
    PatchAllSplit(db.blobs, PatchAll(db.blobs, ma, to, db.counter + 1), ma, mb, to, db.counter + 1);
    MoveUnion(db.members, Elements(ma), Elements(mb), from, to);
    ElementsConcat(ma, mb);
  }

  /** The batch over a concatenation is the two batches one after the other, with
      the stamps running on. */
  lemma BatchIdsSplit(db: Db, a: seq<Id>, b: seq<Id>, from: ProgramState, to: ProgramState)
    requires NoneMovedTwice(db.blobs, a + b, from, to)
    ensures BatchIds(db, a + b, from, to) == BatchIds(BatchIds(db, a, from, to), b, from, to)
    ensures NoneMovedTwice(BatchIds(db, a, from, to).blobs, b, from, to)
  {
    var ma, mb := Matching(db.blobs, a, from), Matching(db.blobs, b, from);
    var first := BatchIds(db, a, from, to);
    SecondPartUnchanged(db.blobs, a, b, from, to, db.counter + 1);
    assert Matching(first.blobs, b, from) == mb;
    assert BatchIds(first, b, from, to) == Patch(first, mb, from, to);
    MatchingSplit(db.blobs, a, b, from);
    assert BatchIds(db, a + b, from, to) == Patch(db, ma + mb, from, to);
    PatchSplit(db, ma, mb, from, to);
    if from != to {
      SecondDistinct(ma, mb);
    }
  }

  lemma SecondDistinct(a: seq<Id>, b: seq<Id>)
    requires Distinct(a + b)
    ensures Distinct(b)
  {
    forall i, j | 0 <= i < j < |b| ensures b[i] != b[j] {
      assert (a + b)[|a| + i] != (a + b)[|a| + j];
    }
  }

  lemma {:induction false} ChunksAddUp(db: Db, ids: seq<Id>, n: nat, from: ProgramState, to: ProgramState)
    requires n > 0 && NoneMovedTwice(db.blobs, ids, from, to)
    ensures ChunkedBatchIds(db, ids, n, from, to) == BatchIds(db, ids, from, to)
    decreases |ids|
  {
    if |ids| > n {
      assert ids == ids[..n] + ids[n..];
      BatchIdsSplit(db, ids[..n], ids[n..], from, to);
      ChunksAddUp(BatchIds(db, ids[..n], from, to), ids[n..], n, from, to);
    }
  }

  lemma MatchingOne(blobs: map<Id, Program>, id: Id, from: ProgramState)
    ensures Matching(blobs, [id], from) == if id in blobs && blobs[id].state == from then [id] else []
  {
    assert [id][..0] == [] && Matching(blobs, [], from) == [];
    assert [] + [id] == [id];
  }

  /** A batch of one id. */
  lemma BatchOne(db: Db, id: Id, from: ProgramState, to: ProgramState)
    ensures var matches, after := id in db.blobs && db.blobs[id].state == from, BatchIds(db, [id], from, to);
      && after.counter == db.counter + (if matches then 1 else 0)
      && after.blobs.Keys == db.blobs.Keys
      && (matches ==> after.blobs[id].state == to)
      && (forall k :: k in db.blobs && (k != id || !matches) ==> after.blobs[k] == db.blobs[k])
  {
    MatchingOne(db.blobs, id, from);
    PatchAllStates(db.blobs, Matching(db.blobs, [id], from), to, db.counter + 1);
  }

  /** After a program was moved away, the rest of the list matches without it. */
  lemma MatchingAfterOne(db: Db, id: Id, rest: seq<Id>, from: ProgramState, to: ProgramState)
    requires from != to
    ensures Elements(Matching(BatchIds(db, [id], from, to).blobs, rest, from))
            == Elements(Matching(db.blobs, rest, from)) - {id}
  {
    BatchOne(db, id, from, to);
  }

  lemma MatchingCons(blobs: map<Id, Program>, id: Id, rest: seq<Id>, from: ProgramState)
    ensures Elements(Matching(blobs, [id] + rest, from))
         == Elements(Matching(blobs, rest, from)) + (if id in blobs && blobs[id].state == from then {id} else {})
    ensures !(id in blobs && blobs[id].state == from) ==> id !in Matching(blobs, rest, from)
  {
  }

  /** One at a time the batch uses one stamp for each matching program, in one pass one for
      each time a matching program is listed. */
  lemma {:induction false} RepeatedIdShowsChunks(db: Db, ids: seq<Id>, from: ProgramState, to: ProgramState)
    requires from != to
    ensures ChunkedBatchIds(db, ids, 1, from, to).counter == db.counter + |Elements(Matching(db.blobs, ids, from))|
    ensures BatchIds(db, ids, from, to).counter == db.counter + |Matching(db.blobs, ids, from)|
    decreases |ids|
  {
    if ids == [] {
      assert Elements(Matching(db.blobs, ids, from)) == {};
    } else {
      var id, rest := ids[0], ids[1..];
      assert ids == [id] + rest;
      var after := BatchIds(db, [id], from, to);
      BatchOne(db, id, from, to);
      MatchingAfterOne(db, id, rest, from, to);
      MatchingCons(db.blobs, id, rest, from);
      RepeatedIdShowsChunks(after, rest, from, to);
      if rest == [] {
        assert ids == [id] && Elements(Matching(db.blobs, rest, from)) == {};
      } else {
        assert ids[..1] == [id];
      }
      UnionSize(Elements(Matching(db.blobs, rest, from)), id);
    }
  }

  lemma UnionSize<T>(s: set<T>, x: T)
    ensures |s + {x}| == 1 + |s - {x}|
    ensures x !in s ==> s - {x} == s
  {
    assert s + {x} == (s - {x}) + {x};
  }

  /** Every chunk size gives the store that one pass gives if and only if no program in
      `from` is listed twice, or the transition does not change the state. */
  lemma ChunksAreOnePassIff(db: Db, ids: seq<Id>, from: ProgramState, to: ProgramState)
    ensures (forall n: nat :: n > 0 ==> ChunkedBatchIds(db, ids, n, from, to) == BatchIds(db, ids, from, to))
      <==> from == to || Distinct(Matching(db.blobs, ids, from))
  {
    if NoneMovedTwice(db.blobs, ids, from, to) {
      forall n: nat | n > 0 ensures ChunkedBatchIds(db, ids, n, from, to) == BatchIds(db, ids, from, to) {
        ChunksAddUp(db, ids, n, from, to);
      }
    } else {
      RepeatedIdShowsChunks(db, ids, from, to);
      var ms := Matching(db.blobs, ids, from);
      if |Elements(ms)| == |ms| {
        SizeDistinct(ms);
      }
      assert ChunkedBatchIds(db, ids, 1, from, to) != BatchIds(db, ids, from, to);
    }
  }

  lemma {:induction false} WriteAllSplit(blobs: map<Id, Program>, a: seq<Program>, b: seq<Program>, start: nat)
    ensures WriteAll(blobs, a + b, start) == WriteAll(WriteAll(blobs, a, start), b, start + |a|)
  {
    if b == [] {
      assert a + b == a;
    } else {
      WriteAllSplit(blobs, a, b[..|b| - 1], start);
      assert (a + b)[..|a + b| - 1] == a + b[..|b| - 1];
    }
  }

  /** The batch of whole programs splits at any chunk border too, repeated programs
      included. */
  lemma BatchStateSplit(db: Db, a: seq<Program>, b: seq<Program>, from: ProgramState, to: ProgramState)
    ensures BatchState(db, a + b, from, to) == BatchState(BatchState(db, a, from, to), b, from, to)
  {
    assert InState(a + b, to) == InState(a, to) + InState(b, to);
    WriteAllSplit(db.blobs, InState(a, to), InState(b, to), db.counter + 1);
    assert Ids(a + b) == Ids(a) + Ids(b);
    MoveUnion(db.members, Ids(a), Ids(b), from, to);
  }

  lemma EmptyBatch(db: Db, from: ProgramState, to: ProgramState)
    ensures BatchState(db, [], from, to) == db
  {
    assert Move(db.members, {}, from, to) == db.members;
  }

  lemma NextChunk(db: Db, ps: seq<Program>, done: nat, next: nat, from: ProgramState, to: ProgramState)
    requires done <= next <= |ps|
    ensures BatchState(BatchState(db, ps[..done], from, to), ps[done..next], from, to)
            == BatchState(db, ps[..next], from, to)
  {
    BatchStateSplit(db, ps[..done], ps[done..next], from, to);
    assert ps[..next] == ps[..done] + ps[done..next];
  }

  // ---------------------------------------------------------------- what the batches leave

  lemma {:induction false} WriteAllLast(blobs: map<Id, Program>, ps: seq<Program>, start: nat, i: nat)
    requires i < |ps| && forall j :: i < j < |ps| ==> ps[j].id != ps[i].id
    ensures ps[i].id in WriteAll(blobs, ps, start)
    ensures WriteAll(blobs, ps, start)[ps[i].id] == ps[i].(atomicCounter := start + i)
  {
    if i < |ps| - 1 {
      WriteAllLast(blobs, ps[..|ps| - 1], start, i);
    }
  }

  /** The last program of the list with this id. */
  ghost function LastIndex(ps: seq<Program>, id: Id): (i: nat)
    requires id in Ids(ps)
    ensures i < |ps| && ps[i].id == id && forall j :: i < j < |ps| ==> ps[j].id != id
  {
    if ps[|ps| - 1].id == id then |ps| - 1
    else
      assert ps == ps[..|ps| - 1] + [ps[|ps| - 1]];
      LastIndex(ps[..|ps| - 1], id)
  }

  /** Each program of the list is stored as the caller has it, in the new state, the i-th
      under stamp start + i; if an id is repeated, its last program counts. No other blob
      changes. */
  ghost predicate BlobsWritten(blobs: map<Id, Program>, after: map<Id, Program>, ps: seq<Program>, to: ProgramState,
                               start: nat) {
    && after.Keys == blobs.Keys + Ids(ps)
    && (forall id :: id in blobs && id !in Ids(ps) ==> after[id] == blobs[id])
    && (forall id :: id in Ids(ps) ==>
          after[id] == ps[LastIndex(ps, id)].(state := to, atomicCounter := start + LastIndex(ps, id)))
  }

  lemma WrittenLast(blobs: map<Id, Program>, ps: seq<Program>, to: ProgramState, start: nat, i: nat)
    requires i < |ps| && forall j :: i < j < |ps| ==> ps[j].id != ps[i].id
    ensures ps[i].id in WriteAll(blobs, InState(ps, to), start)
    ensures WriteAll(blobs, InState(ps, to), start)[ps[i].id] == ps[i].(state := to, atomicCounter := start + i)
  {
    WriteAllLast(blobs, InState(ps, to), start, i);
  }

  lemma WriteAllWrites(blobs: map<Id, Program>, ps: seq<Program>, to: ProgramState, start: nat)
    ensures BlobsWritten(blobs, WriteAll(blobs, InState(ps, to), start), ps, to, start)
  {
    var qs := InState(ps, to);
    InStateIds(ps, to);
    WriteAllStates(blobs, qs, start, to);
    forall id | id in Ids(ps)
      ensures WriteAll(blobs, qs, start)[id] ==
              ps[LastIndex(ps, id)].(state := to, atomicCounter := start + LastIndex(ps, id))
    {
      WrittenLast(blobs, ps, to, start, LastIndex(ps, id));
    }
  }

  lemma MoveMoves(members: set<(ProgramState, Id)>, ids: set<Id>, from: ProgramState, to: ProgramState)
    ensures MovedSets(members, Move(members, ids, from, to), ids, from, to)
  {
  }

  /** Exactly these programs are in the new state under new stamps; no other changes. */
  ghost predicate BlobsMoved(blobs: map<Id, Program>, after: map<Id, Program>, ids: set<Id>, to: ProgramState,
                             first: nat, last: nat) {
    && after.Keys == blobs.Keys
    && (forall id :: id in blobs && id !in ids ==> after[id] == blobs[id])
    && (forall id :: id in blobs && id in ids ==>
          && after[id] == blobs[id].(state := to, atomicCounter := after[id].atomicCounter)
          && first < after[id].atomicCounter <= last)
  }

  /** And they have moved between the two status sets. */
  ghost predicate BatchMoved(db: Db, db': Db, ids: set<Id>, from: ProgramState, to: ProgramState) {
    && db'.counter >= db.counter
    && BlobsMoved(db.blobs, db'.blobs, ids, to, db.counter, db'.counter)
    && MovedSets(db.members, db'.members, ids, from, to)
  }

  /** The programs of the list that are stored in this state. */
  ghost function ListedIn(db: Db, ids: seq<Id>, from: ProgramState): set<Id> {
    set id | id in ids && id in db.blobs && db.blobs[id].state == from
  }

  lemma {:induction false} PatchAllRange(blobs: map<Id, Program>, ids: seq<Id>, to: ProgramState, start: nat, id: Id)
    requires id in ids && forall k :: k in ids ==> k in blobs
    ensures id in PatchAll(blobs, ids, to, start)
    ensures start <= PatchAll(blobs, ids, to, start)[id].atomicCounter < start + |ids|
  {
    if id != ids[|ids| - 1] {
      assert ids == ids[..|ids| - 1] + [ids[|ids| - 1]];
      PatchAllRange(blobs, ids[..|ids| - 1], to, start, id);
    }
  }

  lemma PatchAllMoves(blobs: map<Id, Program>, ids: seq<Id>, to: ProgramState, last: nat)
    requires forall id :: id in ids ==> id in blobs
    ensures BlobsMoved(blobs, PatchAll(blobs, ids, to, last + 1), Elements(ids), to, last, last + |ids|)
  {
    PatchAllStates(blobs, ids, to, last + 1);
    forall id | id in ids
      ensures id in PatchAll(blobs, ids, to, last + 1)
      ensures last < PatchAll(blobs, ids, to, last + 1)[id].atomicCounter <= last + |ids|
    {
      PatchAllRange(blobs, ids, to, last + 1, id);
    }
  }

  lemma BatchIdsMoves(db: Db, ids: seq<Id>, from: ProgramState, to: ProgramState)
    ensures BatchMoved(db, BatchIds(db, ids, from, to), ListedIn(db, ids, from), from, to)
  {
    var ms := Matching(db.blobs, ids, from);
    assert Elements(ms) == ListedIn(db, ids, from);
    PatchAllMoves(db.blobs, ms, to, db.counter);
    MoveMoves(db.members, Elements(ms), from, to);
  }

  lemma MovedTwice(db: Db, mid: Db, db': Db, a: set<Id>, b: set<Id>, from: ProgramState, to: ProgramState)
    requires BatchMoved(db, mid, a, from, to) && BatchMoved(mid, db', b, from, to)
    ensures BatchMoved(db, db', a + b, from, to)
  {
  }

  lemma ListedParts(db: Db, mid: Db, a: seq<Id>, b: seq<Id>, from: ProgramState, to: ProgramState)
    requires BatchMoved(db, mid, ListedIn(db, a, from), from, to)
    ensures ListedIn(db, a, from) + ListedIn(mid, b, from) == ListedIn(db, a + b, from)
  {
    var first := ListedIn(db, a, from);
    forall id ensures id in first + ListedIn(mid, b, from) <==> id in ListedIn(db, a + b, from) {
      if id in db.blobs && id !in first { assert mid.blobs[id] == db.blobs[id]; }
    }
  }

  /** Whatever the list and the chunk size: the batch moves exactly the listed programs
      that are stored in the old state. */
  lemma {:induction false} ChunksMove(db: Db, ids: seq<Id>, n: nat, from: ProgramState, to: ProgramState)
    requires n > 0
    ensures BatchMoved(db, ChunkedBatchIds(db, ids, n, from, to), ListedIn(db, ids, from), from, to)
    decreases |ids|
  {
    if |ids| <= n {
      BatchIdsMoves(db, ids, from, to);
    } else {
      var mid := BatchIds(db, ids[..n], from, to);
      var a, b := ListedIn(db, ids[..n], from), ListedIn(mid, ids[n..], from);
      BatchIdsMoves(db, ids[..n], from, to);
      ChunksMove(mid, ids[n..], n, from, to);
      MovedTwice(db, mid, ChunkedBatchIds(db, ids, n, from, to), a, b, from, to);
      ListedParts(db, mid, ids[..n], ids[n..], from, to);
      assert ids == ids[..n] + ids[n..];
    }
  }

  lemma {:induction false} MatchingDistinct(blobs: map<Id, Program>, ids: seq<Id>, from: ProgramState)
    requires Distinct(ids)
    ensures Distinct(Matching(blobs, ids, from))
  {
    if ids != [] {
      MatchingDistinct(blobs, ids[..|ids| - 1], from);
    }
  }

  /** Without repeated ids, a batch uses one stamp for each program it moves. */
  lemma ChunksCount(db: Db, ids: seq<Id>, n: nat, from: ProgramState, to: ProgramState)
    requires n > 0 && Distinct(ids)
    ensures ChunkedBatchIds(db, ids, n, from, to).counter == db.counter + |ListedIn(db, ids, from)|
  {
    MatchingDistinct(db.blobs, ids, from);
    ChunksAddUp(db, ids, n, from, to);
    BatchIdsPointwise(db, ids, from, to);
    assert Elements(Matching(db.blobs, ids, from)) == ListedIn(db, ids, from);
  }

  // ---------------------------------------------------------------- status sets in sync

  lemma IndexMember(blobs: map<Id, Program>, s: ProgramState, id: Id)
    ensures (s, id) in Index(blobs) <==> id in blobs && blobs[id].state == s
  {
  }

  /** Moving ids to `to` matches blobs whose moved programs are in `to` and whose
      others are untouched, exactly when the stored ones were in `from` or `to`. */
  lemma MoveSyncIff(blobs: map<Id, Program>, after: map<Id, Program>, ids: set<Id>,
                    from: ProgramState, to: ProgramState)
    requires after.Keys == blobs.Keys + ids
    requires forall id :: id in ids ==> after[id].state == to
    requires forall id :: id in blobs && id !in ids ==> after[id] == blobs[id]
    ensures Move(Index(blobs), ids, from, to) == Index(after)
      <==> forall id :: id in ids && id in blobs ==> blobs[id].state in {from, to}
  {
    var moved := Move(Index(blobs), ids, from, to);
    if forall id :: id in ids && id in blobs ==> blobs[id].state in {from, to} {
      forall s, id ensures (s, id) in moved <==> (s, id) in Index(after) {
        IndexMember(blobs, s, id);
        IndexMember(after, s, id);
      }
    } else {
      var id :| id in ids && id in blobs && blobs[id].state !in {from, to};
      IndexMember(blobs, blobs[id].state, id);
      IndexMember(after, blobs[id].state, id);
      assert (blobs[id].state, id) in moved;
    }
  }

  lemma AddSync(db: Db, p: Program)
    requires InSync(db)
    ensures InSync(Add(db, p))
  {
    var db' := Add(db, p);
    forall s, id ensures (s, id) in db'.members <==> (s, id) in Index(db'.blobs) {
      IndexMember(db.blobs, s, id);
      IndexMember(db'.blobs, s, id);
    }
  }

  lemma RemoveSync(db: Db, id: Id)
    requires InSync(db)
    ensures InSync(Remove(db, id))
  {
    var db' := Remove(db, id);
    forall s, k ensures (s, k) in db'.members <==> (s, k) in Index(db'.blobs) {
      IndexMember(db.blobs, s, k);
      IndexMember(db'.blobs, s, k);
    }
  }

  lemma AtomicSync(db: Db, p: Program, previous: Option<ProgramState>)
    requires InSync(db)
    ensures InSync(AtomicTransition(db, p, previous))
  {
    if Merge(db, p).Ok? {
      MoveMemberKeepsIndex(db.blobs, p.id, previous, Stamp(Merge(db, p).value, db.counter + 1));
    }
  }

  lemma FastSyncIff(db: Db, p: Program, from: ProgramState, to: ProgramState)
    requires InSync(db)
    ensures InSync(FastTransition(db, p, from, to)) <==> p.state == to && StoredIn(db, p.id, {from, to})
  {
    var after := FastTransition(db, p, from, to);
    if p.state == to {
      MoveSyncIff(db.blobs, after.blobs, {p.id}, from, to);
    } else {
      IndexMember(after.blobs, to, p.id);
      assert (to, p.id) in after.members;
    }
  }

  lemma InStateIds(ps: seq<Program>, to: ProgramState)
    ensures Ids(InState(ps, to)) == Ids(ps)
  {
    var qs := InState(ps, to);
    forall id ensures id in Ids(qs) <==> id in Ids(ps) {
      if id in Ids(ps) {
        var i :| 0 <= i < |ps| && ps[i].id == id;
        assert qs[i] in qs && qs[i].id == id;
      }
      if id in Ids(qs) {
        var i :| 0 <= i < |qs| && qs[i].id == id;
        assert ps[i] in ps && ps[i].id == id;
      }
    }
  }

  lemma StoredInIds(db: Db, ps: seq<Program>, states: set<ProgramState>)
    ensures (forall p :: p in ps ==> StoredIn(db, p.id, states))
      <==> forall id :: id in Ids(ps) && id in db.blobs ==> db.blobs[id].state in states
  {
    forall p | p in ps ensures p.id in Ids(ps) {
    }
  }

  lemma WrittenSync(db: Db, qs: seq<Program>, from: ProgramState, to: ProgramState)
    requires InSync(db) && forall p :: p in qs ==> p.state == to
    ensures Move(db.members, Ids(qs), from, to) == Index(WriteAll(db.blobs, qs, db.counter + 1))
      <==> forall id :: id in Ids(qs) && id in db.blobs ==> db.blobs[id].state in {from, to}
  {
    WriteAllStates(db.blobs, qs, db.counter + 1, to);
    MoveSyncIff(db.blobs, WriteAll(db.blobs, qs, db.counter + 1), Ids(qs), from, to);
  }

  lemma BatchStateSyncIff(db: Db, ps: seq<Program>, from: ProgramState, to: ProgramState)
    requires InSync(db)
    ensures InSync(BatchState(db, ps, from, to)) <==> forall p :: p in ps ==> StoredIn(db, p.id, {from, to})
  {
    InStateIds(ps, to);
    WrittenSync(db, InState(ps, to), from, to);
    StoredInIds(db, ps, {from, to});
    var after := BatchState(db, ps, from, to);
    assert after.members == Move(db.members, Ids(ps), from, to);
    assert after.blobs == WriteAll(db.blobs, InState(ps, to), db.counter + 1);
  }

  lemma PatchSync(db: Db, ms: seq<Id>, from: ProgramState, to: ProgramState)
    requires InSync(db) && forall id :: id in ms ==> id in db.blobs && db.blobs[id].state == from
    ensures InSync(Patch(db, ms, from, to))
  {
    PatchAllStates(db.blobs, ms, to, db.counter + 1);
    MoveSyncIff(db.blobs, PatchAll(db.blobs, ms, to, db.counter + 1), Elements(ms), from, to);
  }

  lemma BatchIdsSync(db: Db, ids: seq<Id>, from: ProgramState, to: ProgramState)
    requires InSync(db)
    ensures InSync(BatchIds(db, ids, from, to))
  {
    PatchSync(db, Matching(db.blobs, ids, from), from, to);
  }

  lemma {:induction false} ChunkedSync(db: Db, ids: seq<Id>, n: nat, from: ProgramState, to: ProgramState)
    requires InSync(db) && n > 0
    ensures InSync(ChunkedBatchIds(db, ids, n, from, to))
    decreases |ids|
  {
    if |ids| <= n {
      BatchIdsSync(db, ids, from, to);
    } else {
      BatchIdsSync(db, ids[..n], from, to);
      ChunkedSync(BatchIds(db, ids[..n], from, to), ids[n..], n, from, to);
    }
  }

  lemma SameMembers(a: set<(ProgramState, Id)>, b: set<(ProgramState, Id)>)
    requires forall s, id :: (s, id) in a <==> (s, id) in b
    ensures a == b
  {
    forall m ensures m in a <==> m in b {
      assert m == (m.0, m.1);
    }
  }

  lemma RecoverSync(db: Db, db': Db)
    requires InSync(db) && Recovered(db, db')
    ensures InSync(db')
    ensures Stranded(db) == set id | id in db.blobs && db.blobs[id].state == Running
  {
    var running := StatusSet(db, Running);
    forall id ensures id in running <==> id in db.blobs && db.blobs[id].state == Running {
      IndexMember(db.blobs, Running, id);
      assert id in running <==> (Running, id) in db.members;
    }
    forall s, id ensures (s, id) in db'.members <==> (s, id) in Index(db'.blobs) {
      IndexMember(db.blobs, s, id);
      IndexMember(db'.blobs, s, id);
    }
    SameMembers(db'.members, Index(db'.blobs));
  }

  /** One round of the recovery loop: a dangling member is dropped, a stored one is
      rewritten as QUEUED and moved. */
  function RecoverOne(db: Db, id: Id): Db {
    if id !in db.blobs then db.(members := db.members - {(Running, id)})
    else Db(db.blobs[id := Stamp(db.blobs[id].(state := Queued), db.counter + 1)],
            db.members - {(Running, id)} + {(Queued, id)}, db.counter + 1)
  }

  lemma RequeuedOne(blobs: map<Id, Program>, after: map<Id, Program>, done: set<Id>, first: nat, last: nat, id: Id)
    requires Requeued(blobs, after, done, first, last) && id !in done && id in blobs && first <= last
    ensures Requeued(blobs, after[id := Stamp(after[id].(state := Queued), last + 1)], done + {id}, first, last + 1)
  {
  }

  lemma LeftRunningOne(members: set<(ProgramState, Id)>, after: set<(ProgramState, Id)>, done: set<Id>,
                       stored: set<Id>, id: Id)
    requires LeftRunning(members, after, done, stored)
    ensures LeftRunning(members, after - {(Running, id)}, done + {id}, stored)
    ensures LeftRunning(members, after - {(Running, id)} + {(Queued, id)}, done + {id}, stored + {id})
  {
  }

  lemma RecoverDangling(db: Db, db': Db, done: set<Id>, stored: set<Id>, id: Id)
    requires RecoveredPart(db, db', done, stored) && id !in db.blobs
    ensures RecoveredPart(db, RecoverOne(db', id), done + {id}, stored)
  {
    LeftRunningOne(db.members, db'.members, done, stored, id);
  }

  lemma RecoverStored(db: Db, db': Db, done: set<Id>, stored: set<Id>, id: Id)
    requires RecoveredPart(db, db', done, stored) && id !in stored && id in db.blobs
    ensures RecoveredPart(db, RecoverOne(db', id), done + {id}, stored + {id})
  {
    LeftRunningOne(db.members, db'.members, done, stored, id);
    RequeuedOne(db.blobs, db'.blobs, stored, db.counter, db'.counter, id);
  }

  lemma RecoverStep(db: Db, db': Db, done: set<Id>, stored: set<Id>, id: Id)
    requires RecoveredPart(db, db', done, stored) && id !in stored
    ensures RecoveredPart(db, RecoverOne(db', id), done + {id}, if id in db.blobs then stored + {id} else stored)
  {
    if id in db.blobs {
      RecoverStored(db, db', done, stored, id);
    } else {
      RecoverDangling(db, db', done, stored, id);
    }
  }

  /** For every operation: status sets that matched the blobs still match them
      afterwards exactly when the caller owned the state it claimed. */
  lemma SyncStepIff(db: Db, op: Op, db': Db)
    requires InSync(db) && Effect(db, op, db')
    ensures InSync(db') <==> Owned(db, op)
  {
    match op
    case AddOp(p) => AddSync(db, p);
    case RemoveOp(id) => RemoveSync(db, id);
    case WriteOp(p) => BlindWriteKeepsIndexIff(db.blobs, p.id, Stamp(p, db.counter + 1));
    case UpdateOp(p) =>
      if Merge(db, p).Ok? {
        BlindWriteKeepsIndexIff(db.blobs, p.id, Stamp(Merge(db, p).value, db.counter + 1));
      }
    case AtomicOp(p, previous) => AtomicSync(db, p, previous);
    case FastOp(p, from, to) => FastSyncIff(db, p, from, to);
    case BatchStateOp(ps, from, to) =>
      if IsValidTransition(from, to) { BatchStateSyncIff(db, ps, from, to); }
    case BatchIdsOp(ids, n, from, to) =>
      if IsValidTransition(from, to) { ChunkedSync(db, ids, n, from, to); }
    case RecoverOp => RecoverSync(db, db');
    case RequeueOp(p) =>
      if p.state == Running { FastSyncIff(db, p.(state := Queued), Running, Queued); }
  }

  /** A run of the store: dbs[i + 1] is what ops[i] made of dbs[i]. */
  ghost predicate IsRun(dbs: seq<Db>, ops: seq<Op>) {
    |dbs| == |ops| + 1 && forall i :: 0 <= i < |ops| ==> Effect(dbs[i], ops[i], dbs[i + 1])
  }

  /** In a sequential run every stored program is at all times in exactly the status
      set of its state, if and only if every call owned the state it claimed. */
  lemma SyncRunIff(dbs: seq<Db>, ops: seq<Op>)
    requires IsRun(dbs, ops) && InSync(dbs[0])
    ensures (forall i :: 0 <= i < |dbs| ==> InSync(dbs[i])) <==> (forall i :: 0 <= i < |ops| ==> Owned(dbs[i], ops[i]))
  {
    forall i | 0 <= i < |ops| && InSync(dbs[i]) ensures InSync(dbs[i + 1]) <==> Owned(dbs[i], ops[i]) {
      SyncStepIff(dbs[i], ops[i], dbs[i + 1]);
    }
    if forall i :: 0 <= i < |ops| ==> Owned(dbs[i], ops[i]) {
      var k := 0;
      while k < |ops|
        invariant 0 <= k <= |ops|
        invariant forall i :: 0 <= i <= k ==> InSync(dbs[i])
      {
        assert Owned(dbs[k], ops[k]);
        k := k + 1;
      }
    } else if forall i :: 0 <= i < |dbs| ==> InSync(dbs[i]) {
      forall i | 0 <= i < |ops| ensures Owned(dbs[i], ops[i]) {
        assert InSync(dbs[i]) && InSync(dbs[i + 1]);
      }
    }
  }
}
