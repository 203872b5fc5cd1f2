/** RedisProgramStorage as the object its callers use, one operation at a time
    (gigaevo/database/redis_program_storage.py). Each pipeline is one step here; the
    loops and chunks are the source's. */
module RedisProgramStorage {
  import opened Prelude
  import opened Programs
  import opened MergeStrategies
  import opened OccProtocol
  import opened OccPartition
  import opened ProgramStore
  import opened ProgramStoreSync

  const STATES: seq<ProgramState> := [Queued, Running, ProgramState.Done, Discarded]

  class Storage {
    var blobs: map<Id, Program>
    var members: set<(ProgramState, Id)>
    var counter: nat
    /** MGET_CHUNK_SIZE; any positive size gives the same results. */
    const chunkSize: nat

    ghost predicate Valid()
      reads this
    {
      chunkSize > 0 && Keyed(blobs)
    }

    function Contents(): Db
      reads this
    {
      Db(blobs, members, counter)
    }

    constructor (chunkSize: nat)
      requires chunkSize > 0
      ensures Valid() && Contents() == Db(map[], {}, 0) && this.chunkSize == chunkSize
    {
      blobs, members, counter := map[], {}, 0;
      this.chunkSize := chunkSize;
    }

    method Incr() returns (t: nat)
      modifies this`counter
      ensures t == counter == old(counter) + 1
    {
      counter := counter + 1;
      t := counter;
    }

    /** What storing a program with merge leaves: on an unknown id the program itself, on a
        stored one the merge field by field, under a new stamp; two different names raise,
        and then only the stamp is used up. */
    ghost predicate Stored(before: Db, p: Program, ok: bool)
      reads this
    {
      && counter == before.counter + 1
      && (ok <==> !(p.id in before.blobs && p.name.Some? && before.blobs[p.id].name.Some?
                    && p.name != before.blobs[p.id].name))
      && (!ok ==> blobs == before.blobs)
      && (ok && p.id !in before.blobs ==> blobs == before.blobs[p.id := p.(atomicCounter := counter)])
      && (ok && p.id in before.blobs ==>
            && p.id in blobs && blobs == before.blobs[p.id := blobs[p.id]]
            && blobs[p.id].atomicCounter == counter && MergedFrom(before.blobs[p.id], p, blobs[p.id]))
    }

    method Add(p: Program)
      requires Valid()
      modifies this
      ensures Valid()
      ensures Contents() == ProgramStore.Add(old(Contents()), p)
      ensures counter == old(counter) + 1 && blobs == old(blobs)[p.id := p.(atomicCounter := counter)]
      ensures forall s, id :: (s, id) in members <==>
        (s == p.state && id == p.id)
        || ((s, id) in old(members) && !(id == p.id && id in old(blobs) && s == old(blobs)[id].state))
    {
      var existing := Lookup(blobs, p.id);
      var t := Incr();
      blobs := blobs[p.id := Stamp(p, t)];
      if existing.Some? && existing.value.state != p.state {
        members := members - {(existing.value.state, p.id)};
      }
      members := members + {(p.state, p.id)};
    }

    method Remove(id: Id)
      requires Valid()
      modifies this
      ensures Valid()
      ensures Contents() == ProgramStore.Remove(old(Contents()), id)
      ensures counter == old(counter) && blobs == old(blobs) - {id}
      ensures forall s, k :: (s, k) in members <==>
        (s, k) in old(members) && !(k == id && id in old(blobs) && s == old(blobs)[id].state)
    {
      var existing := Lookup(blobs, id);
      blobs := blobs - {id};
      if existing.Some? {
        members := members - {(existing.value.state, id)};
      }
    }

    method WriteExclusive(p: Program)
      requires Valid()
      modifies this
      ensures Valid()
      ensures Contents() == ProgramStore.WriteExclusive(old(Contents()), p)
      ensures counter == old(counter) + 1 && blobs == old(blobs)[p.id := p.(atomicCounter := counter)]
      ensures members == old(members)
    {
      var t := Incr();
      blobs := blobs[p.id := Stamp(p, t)];
    }

    /** The retry loop ends in its first round when nobody else writes the key. */
    method Update(p: Program) returns (ok: bool)
      requires Valid()
      modifies this
      ensures Valid()
      ensures ok == Merge(old(Contents()), p).Ok?
      ensures Contents() == ProgramStore.Update(old(Contents()), p)
      ensures Stored(old(Contents()), p, ok) && members == old(members)
    {
      var existing := Lookup(blobs, p.id);
      var t := Incr();
      var merged := if existing.Some? then MergePrograms(existing.value, p) else Ok(p);
      ok := merged.Ok?;
      if ok {
        blobs := blobs[p.id := Stamp(merged.value, t)];
      }
      if existing.Some? {
        MergeFailsIff(existing.value, p);
        if ok { MergedFromPrograms(existing.value, p); }
      }
    }

    method AtomicStateTransition(p: Program, previous: Option<ProgramState>) returns (ok: bool)
      requires Valid()
      modifies this
      ensures Valid()
      ensures ok == Merge(old(Contents()), p).Ok?
      ensures Contents() == AtomicTransition(old(Contents()), p, previous)
      ensures Stored(old(Contents()), p, ok) && (!ok ==> members == old(members))
      ensures ok ==>
        && p.id in blobs
        && Moved(old(members), members, p.id, previous, Lookup(old(blobs), p.id), blobs[p.id].state)
    {
      var existing := Lookup(blobs, p.id);
      ok := Update(p);
      if ok {
        MoveMemberMoves(members, p.id, previous, existing, blobs[p.id].state);
        members := MoveMember(members, p.id, previous, existing, blobs[p.id].state);
      }
    }

    method MoveSets(ids: set<Id>, from: ProgramState, to: ProgramState)
      modifies this`members
      ensures members == Move(old(members), ids, from, to)
    {
      members := members - (set id | id in ids :: (from, id));
      members := members + (set id | id in ids :: (to, id));
    }

    method FastStateTransition(p: Program, from: ProgramState, to: ProgramState)
      requires Valid()
      modifies this
      ensures Valid()
      ensures Contents() == FastTransition(old(Contents()), p, from, to)
      ensures counter == old(counter) + 1 && blobs == old(blobs)[p.id := p.(atomicCounter := counter)]
      ensures MovedSets(old(members), members, {p.id}, from, to)
    {
      WriteExclusive(p);
      if from != to {
        members := members - {(from, p.id)};
      }
      members := members + {(to, p.id)};
    }

    /** The SETs of one chunk, with consecutive stamps from `start`. */
    method WriteBlobs(ps: seq<Program>, to: ProgramState, start: nat)
      requires Keyed(blobs)
      modifies this`blobs
      ensures Keyed(blobs) && blobs == WriteAll(old(blobs), InState(ps, to), start)
    {
      ghost var written := InState(ps, to);
      for i := 0 to |ps|
        invariant Keyed(blobs) && blobs == WriteAll(old(blobs), written[..i], start)
      {
        blobs := blobs[ps[i].id := Stamp(ps[i].(state := to), start + i)];
        assert written[..i + 1][..i] == written[..i];
      }
      assert written[..|ps|] == written;
    }

    /** One chunk of batch_transition_state: INCRBY, then the SETs, then the sets. */
    method WriteChunk(ps: seq<Program>, from: ProgramState, to: ProgramState)
      requires Valid()
      modifies this
      ensures Valid()
      ensures Contents() == BatchState(old(Contents()), ps, from, to)
    {
      var start := counter + 1;
      counter := counter + |ps|;
      WriteBlobs(ps, to, start);
      MoveSets(Ids(ps), from, to);
    }

    /** The chunk loop; any chunk size does what one pass would do. */
    method WriteChunks(ps: seq<Program>, from: ProgramState, to: ProgramState)
      requires Valid()
      modifies this
      ensures Valid() && Contents() == BatchState(old(Contents()), ps, from, to)
    {
      EmptyBatch(Contents(), from, to);
      var done := 0;
      while done < |ps|
        invariant 0 <= done <= |ps|
        invariant Valid() && Contents() == BatchState(old(Contents()), ps[..done], from, to)
      {
        var next := if done + chunkSize < |ps| then done + chunkSize else |ps|;
        NextChunk(old(Contents()), ps, done, next, from, to);
        WriteChunk(ps[done..next], from, to);
        done := next;
      }
      assert ps[..|ps|] == ps;
    }

    /** An invalid transition raises before anything is written. */
    method BatchTransitionState(ps: seq<Program>, from: ProgramState, to: ProgramState) returns (count: Result<nat>)
      requires Valid()
      modifies this
      ensures Valid()
      ensures count.Err? <==> ps != [] && !IsValidTransition(from, to)
      ensures count.Err? ==> Contents() == old(Contents())
      ensures count.Ok? ==> count.value == |ps| && Contents() == BatchState(old(Contents()), ps, from, to)
      ensures count.Ok? ==>
        && counter == old(counter) + |ps|
        && BlobsWritten(old(blobs), blobs, ps, to, old(counter) + 1)
        && MovedSets(old(members), members, ProgramStore.Ids(ps), from, to)
    {
      WriteAllWrites(blobs, ps, to, counter + 1);
      MoveMoves(members, ProgramStore.Ids(ps), from, to);
      if ps == [] {
        EmptyBatch(Contents(), from, to);
        return Ok(0);
      }
      if !IsValidTransition(from, to) {
        return Err("Invalid state transition");
      }
      WriteChunks(ps, from, to);
      return Ok(|ps|);
    }

    /** The filter of one chunk: only stored programs whose blob is in `from`. */
    method SelectMatching(ids: seq<Id>, from: ProgramState) returns (toPatch: seq<Id>)
      ensures toPatch == Matching(blobs, ids, from)
    {
      toPatch := [];
      for i := 0 to |ids|
        invariant toPatch == Matching(blobs, ids[..i], from)
      {
        assert ids[..i + 1][..i] == ids[..i];
        if ids[i] in blobs && blobs[ids[i]].state == from {
          toPatch := toPatch + [ids[i]];
        }
      }
      assert ids[..|ids|] == ids;
    }

    /** The SETs of one chunk: each program as it was read, with the new state. */
    method PatchBlobs(toPatch: seq<Id>, to: ProgramState, start: nat)
      requires Keyed(blobs) && forall id :: id in toPatch ==> id in blobs
      modifies this`blobs
      ensures Keyed(blobs) && blobs == PatchAll(old(blobs), toPatch, to, start)
    {
      var parsed := blobs;
      for i := 0 to |toPatch|
        invariant Keyed(blobs) && blobs == PatchAll(parsed, toPatch[..i], to, start)
      {
        assert toPatch[..i + 1][..i] == toPatch[..i];
        blobs := blobs[toPatch[i] := Stamp(parsed[toPatch[i]].(state := to), start + i)];
      }
      assert toPatch[..|toPatch|] == toPatch;
    }

    /** Reserve stamps for the selected programs, patch their blobs, move them. */
    method PatchSelected(toPatch: seq<Id>, from: ProgramState, to: ProgramState)
      requires forall id :: id in toPatch ==> id in blobs
      requires Valid()
      modifies this
      ensures Valid()
      ensures Contents() == Patch(old(Contents()), toPatch, from, to)
    {
      var start := counter + 1;
      counter := counter + |toPatch|;
      PatchBlobs(toPatch, to, start);
      MoveSets(Elements(toPatch), from, to);
    }

    /** One chunk of batch_transition_by_ids. */
    method PatchChunk(ids: seq<Id>, from: ProgramState, to: ProgramState) returns (n: nat)
      requires Valid()
      modifies this
      ensures Valid()
      ensures n == |Matching(old(blobs), ids, from)|
      ensures Contents() == BatchIds(old(Contents()), ids, from, to)
    {
      var toPatch := SelectMatching(ids, from);
      n := |toPatch|;
      if n == 0 {
        assert Move(members, Elements(toPatch), from, to) == members;
      } else {
        PatchSelected(toPatch, from, to);
      }
    }

    /** The chunked loop, one SREM/SADD pair for each chunk; it returns how many
        programs it moved, which is how many stamps it used. */
    method BatchTransitionByIds(ids: seq<Id>, from: ProgramState, to: ProgramState) returns (count: Result<nat>)
      requires Valid()
      modifies this
      ensures Valid()
      ensures count.Err? <==> ids != [] && !IsValidTransition(from, to)
      ensures count.Err? ==> Contents() == old(Contents())
      ensures count.Ok? ==>
        && Contents() == ChunkedBatchIds(old(Contents()), ids, chunkSize, from, to)
        && count.value == counter - old(counter)
      ensures count.Ok? ==> BatchMoved(old(Contents()), Contents(), ListedIn(old(Contents()), ids, from), from, to)
      ensures count.Ok? && Distinct(ids) ==> count.value == |ListedIn(old(Contents()), ids, from)|
    {
      ghost var db := Contents();
      ChunksMove(db, ids, chunkSize, from, to);
      if Distinct(ids) { ChunksCount(db, ids, chunkSize, from, to); }
      if ids == [] {
        assert Move(members, Elements([]), from, to) == members;
        return Ok(0);
      }
      if !IsValidTransition(from, to) {
        return Err("Invalid state transition");
      }
      var rest, moved := ids, 0;
      while |rest| > chunkSize
        invariant Valid()
        invariant ChunkedBatchIds(Contents(), rest, chunkSize, from, to)
                  == ChunkedBatchIds(db, ids, chunkSize, from, to)
        invariant counter == db.counter + moved
        decreases |rest|
      {
        var n := PatchChunk(rest[..chunkSize], from, to);
        rest, moved := rest[chunkSize..], moved + n;
      }
      var n := PatchChunk(rest, from, to);
      return Ok(moved + n);
    }

    /** One round of the recovery: a dangling entry is only dropped. */
    method RecoverProgram(id: Id) returns (stored: bool)
      requires Valid()
      modifies this
      ensures Valid()
      ensures stored == (id in old(blobs))
      ensures Contents() == RecoverOne(old(Contents()), id)
    {
      var program := Lookup(blobs, id);
      stored := program.Some?;
      if stored {
        WriteExclusive(program.value.(state := Queued));
      }
      members := members - {(Running, id)};
      if stored {
        members := members + {(Queued, id)};
      }
    }

    /** The loop over SMEMBERS of the RUNNING set, in whatever order it comes. */
    method RecoverStrandedPrograms() returns (recovered: nat)
      requires Valid()
      modifies this
      ensures Valid()
      ensures Recovered(old(Contents()), Contents())
      ensures recovered == |Stranded(old(Contents()))|
      ensures StatusSet(Contents(), Running) == {}
    {
      ghost var db := Contents();
      ghost var done: set<Id>, moved: set<Id> := {}, {};
      var todo := StatusSet(Contents(), Running);
      recovered := 0;
      while todo != {}
        invariant Visiting(db, todo, done, moved)
        invariant Valid() && RecoveredPart(db, Contents(), done, moved)
        invariant recovered == |moved|
        decreases todo
      {
        ghost var some := SomeElement(todo);
        assert some in todo;
        var id :| id in todo;
        VisitOne(db, todo, done, moved, id);
        RecoverStep(db, Contents(), done, moved, id);
        moved := if id in db.blobs then moved + {id} else moved;
        var stored := RecoverProgram(id);
        if stored {
          recovered := recovered + 1;
        }
        todo, done := todo - {id}, done + {id};
      }
      VisitedAll(db, done, moved);
      RunningEmptied(db, Contents());
    }

    /** The targeted recovery of one program; the caller's copy is reset too. */
    method RequeueRunningProgram(p: Program) returns (moved: bool, program: Program)
      requires Valid()
      modifies this
      ensures Valid()
      ensures moved == (p.state == Running)
      ensures program == if moved then p.(state := Queued) else p
      ensures Contents() == Requeue(old(Contents()), p)
      ensures !moved ==> Contents() == old(Contents())
      ensures moved ==>
        && counter == old(counter) + 1
        && blobs == old(blobs)[p.id := p.(state := Queued, atomicCounter := counter)]
        && MovedSets(old(members), members, {p.id}, Running, Queued)
    {
      if p.state != Running {
        return false, p;
      }
      program := p.(state := Queued);
      WriteExclusive(program);
      MoveSets({p.id}, Running, Queued);
      moved := true;
    }

    // -------------------------------------------------------------- readers

    method Size() returns (n: nat)
      ensures n == |members|
      ensures InSync(Contents()) ==> n == |blobs|
    {
      n := 0;
      ghost var counted: set<(ProgramState, Id)> := {};
      for i := 0 to |STATES|
        invariant counted == (set m | m in members && m.0 in STATES[..i])
        invariant n == |counted|
      {
        ghost var these := set m | m in members && m.0 == STATES[i];
        ScardIsSize(members, STATES[i]);
        assert STATES[..i + 1] == STATES[..i] + [STATES[i]];
        assert counted !! these;
        counted := counted + these;
        n := n + |StatusSet(Contents(), STATES[i])|;
      }
      assert counted == members by {
        forall m | m in members ensures m in counted { StatesComplete(m.0); }
      }
      IndexSize(blobs);
    }

    method HasData() returns (some: bool)
      ensures some <==> members != {}
      ensures InSync(Contents()) ==> (some <==> blobs != map[])
    {
      some := false;
      for i := 0 to |STATES|
        invariant !some && forall m :: m in members ==> m.0 !in STATES[..i]
      {
        if |StatusSet(Contents(), STATES[i])| > 0 {
          var id :| id in StatusSet(Contents(), STATES[i]);
          IndexSize(blobs);
          return true;
        }
        assert StatusSet(Contents(), STATES[i]) == {};
        NoMemberOf(members, STATES[i], StatusSet(Contents(), STATES[i]));
        assert STATES[..i + 1] == STATES[..i] + [STATES[i]];
      }
      assert forall m :: m in members ==> m.0 in STATES by {
        forall m | m in members ensures m.0 in STATES { StatesComplete(m.0); }
      }
      assert STATES[..|STATES|] == STATES;
      IndexSize(blobs);
    }

    method GetAllProgramIds() returns (ids: set<Id>)
      ensures forall id :: id in ids <==> exists s :: (s, id) in members
      ensures InSync(Contents()) ==> ids == blobs.Keys
    {
      ids := {};
      for i := 0 to |STATES|
        invariant forall id :: id in ids <==> exists s :: s in STATES[..i] && (s, id) in members
      {
        assert STATES[..i + 1] == STATES[..i] + [STATES[i]];
        ids := ids + StatusSet(Contents(), STATES[i]);
      }
      forall s, id | (s, id) in members ensures id in ids { StatesComplete(s); }
      if InSync(Contents()) {
        forall id ensures id in ids <==> id in blobs {
          if id in blobs { assert (blobs[id].state, id) in members; }
        }
      }
    }

    /** SCAN then MGET: every stored program, each once. */
    method GetAll() returns (ps: seq<Program>)
      requires Valid()
      ensures Distinct(ps) && forall p :: p in ps <==> p in blobs.Values
    {
      ps := [];
      var todo := blobs.Keys;
      while todo != {}
        invariant todo <= blobs.Keys && Distinct(ps)
        invariant forall p :: p in ps <==> p.id in blobs && p.id !in todo && blobs[p.id] == p
        decreases todo
      {
        var id :| id in todo;
        ps, todo := ps + [blobs[id]], todo - {id};
      }
    }

    /** Programs listed under `status` whose blob says so too, each once. */
    method GetAllByStatus(status: ProgramState) returns (ps: seq<Program>)
      requires Valid()
      ensures Distinct(ps)
      ensures forall p :: p in ps <==>
        p.id in blobs && blobs[p.id] == p && p.state == status && (status, p.id) in members
      ensures InSync(Contents()) ==> forall p :: p in ps <==> p in blobs.Values && p.state == status
    {
      ps := [];
      var todo := StatusSet(Contents(), status);
      while todo != {}
        invariant todo <= StatusSet(Contents(), status)
        invariant Distinct(ps)
        invariant forall p :: p in ps <==>
          p.id in StatusSet(Contents(), status) - todo && p.id in blobs && blobs[p.id] == p && p.state == status
        decreases todo
      {
        var id :| id in todo;
        todo := todo - {id};
        if id in blobs && blobs[id].state == status {
          ps := ps + [blobs[id]];
        }
      }
    }
  }

  lemma StatesComplete(s: ProgramState)
    ensures s in STATES
  {
    assert STATES[0] == Queued && STATES[1] == Running && STATES[2] == ProgramState.Done && STATES[3] == Discarded;
  }

  lemma RunningEmptied(db: Db, db': Db)
    requires Recovered(db, db')
    ensures StatusSet(db', Running) == {}
  {
    forall id ensures id !in StatusSet(db', Running) {
      if (Running, id) in db.members { assert id in StatusSet(db, Running); }
    }
  }

  /** SMEMBERS of the RUNNING set, split into what is still to do and what is done, of
      which `moved` is stored. */
  ghost predicate Visiting(db: Db, todo: set<Id>, done: set<Id>, moved: set<Id>) {
    && (forall id :: id in StatusSet(db, Running) <==> id in todo || id in done)
    && (forall id :: id in todo ==> id !in done)
    && (forall id :: id in moved <==> id in done && id in db.blobs)
  }

  lemma VisitOne(db: Db, todo: set<Id>, done: set<Id>, moved: set<Id>, id: Id)
    requires Visiting(db, todo, done, moved) && id in todo
    ensures id !in moved
    ensures Visiting(db, todo - {id}, done + {id}, if id in db.blobs then moved + {id} else moved)
  {
  }

  lemma VisitedAll(db: Db, done: set<Id>, moved: set<Id>)
    requires Visiting(db, {}, done, moved)
    ensures done == StatusSet(db, Running) && moved == Stranded(db)
  {
  }

  lemma NoMemberOf(members: set<(ProgramState, Id)>, s: ProgramState, ids: set<Id>)
    requires ids == set m | m in members && m.0 == s :: m.1
    ensures ids == {} <==> forall m :: m in members ==> m.0 != s
  {
    if m :| m in members && m.0 == s {
      assert m.1 in ids;
    }
  }

  lemma {:induction false} SecondsSize(pairs: set<(ProgramState, Id)>, s: ProgramState)
    requires forall m :: m in pairs ==> m.0 == s
    ensures |set m | m in pairs :: m.1| == |pairs|
    decreases pairs
  {
    var ids := set m | m in pairs :: m.1;
    if pairs != {} {
      var m := SomeElement(pairs);
      SecondsSize(pairs - {m}, s);
      assert ids - {m.1} == set x | x in pairs - {m} :: x.1;
      assert m.1 in ids;
    }
  }

  /** SCARD of a status set counts the members of that state. */
  lemma ScardIsSize(members: set<(ProgramState, Id)>, s: ProgramState)
    ensures |set m | m in members && m.0 == s :: m.1| == |set m | m in members && m.0 == s|
  {
    var pairs := set m | m in members && m.0 == s;
    SecondsSize(pairs, s);
    assert (set m | m in members && m.0 == s :: m.1) == set m | m in pairs :: m.1;
  }

  lemma {:induction false} IndexSizeOn(blobs: map<Id, Program>, ids: set<Id>)
    requires ids <= blobs.Keys
    ensures |set id | id in ids :: (blobs[id].state, id)| == |ids|
  {
    if ids != {} {
      var id :| id in ids;
      IndexSizeOn(blobs, ids - {id});
      assert (set k | k in ids :: (blobs[k].state, k))
        == (set k | k in ids - {id} :: (blobs[k].state, k)) + {(blobs[id].state, id)};
    }
  }

  lemma IndexSize(blobs: map<Id, Program>)
    ensures |Index(blobs)| == |blobs|
  {
    IndexSizeOn(blobs, blobs.Keys);
    assert Index(blobs) == set id | id in blobs.Keys :: (blobs[id].state, id);
  }
}
