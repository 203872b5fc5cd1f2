/** Status sets when watched operations and unwatched transitions run together: the
    SREM and SADD of fast and batch transitions are commands of their own here, after the
    SETs, so a moving program is for a while in the set of a state it has left
    (gigaevo/database/redis_program_storage.py:486-651). */
module OccMixed {
  import opened Prelude
  import opened Programs
  import opened OccProtocol
  import opened OccSafety
  import opened OccPartition

  /** An unwatched transition in progress; `removed` once its SREM is done. */
  datatype Move = Move(programs: seq<Program>, from: ProgramState, to: ProgramState, removed: bool)

  /** The store and its clients, and the transition each moving client is in. */
  datatype Mixed = Mixed(core: System, moves: map<nat, Move>)

  datatype Command =
    | Core(action: Action)
    | BeginMove(client: nat, programs: seq<Program>, from: ProgramState, to: ProgramState)
    | Srem(client: nat)
    | Sadd(client: nat)

  function Ids(m: Move): set<Id> {
    set p | p in m.programs :: p.id
  }

  /** A moving client first does its INCRBY and its SETs, then SREM, then SADD; a fast
      transition to the same state has no SREM. */
  predicate Enabled(x: Mixed, c: Command) {
    match c
    case Core(a) => OccProtocol.Enabled(x.core, a) && (a.client in x.moves ==> a.Step?)
    case BeginMove(i, programs, _, _) => OccProtocol.Enabled(x.core, BeginBulk(i, programs)) && i !in x.moves
    case Srem(i) => i in x.moves && i < |x.core.clients| && x.core.clients[i].Idle? && !x.moves[i].removed
    case Sadd(i) =>
      i in x.moves && i < |x.core.clients| && x.core.clients[i].Idle?
      && (x.moves[i].removed || x.moves[i].from == x.moves[i].to)
  }

  function Next(merge: MergeFn, x: Mixed, c: Command): Mixed
    requires Enabled(x, c)
  {
    match c
    case Core(a) => x.(core := OccProtocol.Next(merge, x.core, a))
    case BeginMove(i, programs, from, to) =>
      Mixed(OccProtocol.Next(merge, x.core, BeginBulk(i, programs)), x.moves[i := Move(programs, from, to, false)])
    case Srem(i) =>
      var m := x.moves[i];
      Mixed(x.core.(members := x.core.members - set id | id in Ids(m) :: (m.from, id)),
            x.moves[i := m.(removed := true)])
    case Sadd(i) =>
      var m := x.moves[i];
      Mixed(x.core.(members := x.core.members + set id | id in Ids(m) :: (m.to, id)), x.moves - {i})
  }

  // ---------------------------------------------------------------- ownership

  ghost predicate Moving(x: Mixed, id: Id) {
    exists i :: i in x.moves && id in Ids(x.moves[i])
  }

  /** What the callers of the unwatched transitions owe: they alone write the programs they
      move, these are in the old or the new state, and come with the new one. Everybody
      else writes outside a transition only what keeps its state. */
  ghost predicate RespectsMoves(merge: MergeFn, x: Mixed, c: Command)
    requires Enabled(x, c)
  {
    match c
    case Core(a) =>
      a.client !in x.moves ==>
        && KeepsState(merge, x.core, a)
        && (forall key :: Commits(merge, x.core, a, key) ==> !Moving(x, key))
    case BeginMove(i, programs, from, to) =>
      forall p :: p in programs ==>
        && p.state == to && !Moving(x, p.id)
        && (p.id in x.core.blobs ==> x.core.blobs[p.id].state in {from, to})
    case _ => true
  }

  /** This action writes the blob of this key. */
  ghost predicate Commits(merge: MergeFn, s: System, a: Action, key: Id)
    requires OccProtocol.Enabled(s, a)
  {
    var s' := OccProtocol.Next(merge, s, a);
    |s'.log| > |s.log| && s'.log[|s.log|].Key() == key
  }

  // ---------------------------------------------------------------- the invariant

  /** This id is in exactly the set of its blob's state, or in none if it is not stored. */
  ghost predicate Settled(s: System, id: Id) {
    forall st :: (st, id) in s.members <==> id in s.blobs && s.blobs[id].state == st
  }

  /** How many of its programs a moving client has written. */
  function Done(c: Client, m: Move): nat {
    match c
    case Reserving(_) => 0
    case Writing(_, _, written) => written
    case _ => |m.programs|
  }

  /** The client is where its transition says. */
  ghost predicate InMove(c: Client, m: Move) {
    && (c.Idle? || ((c.Reserving? || c.Writing?) && c.programs == m.programs && !m.removed))
    && (c.Writing? ==> c.written <= |c.programs|)
    && forall p :: p in m.programs ==> p.state == m.to
  }

  /** While it moves, an id is in no set but the old and the new one, and after SREM at
      most in the new one; its blob is in the old or the new state, and in the new one
      once written. */
  ghost predicate MovingRight(s: System, c: Client, m: Move) {
    && InMove(c, m)
    && (forall id, st :: id in Ids(m) && (st, id) in s.members ==> st == m.to || (st == m.from && !m.removed))
    && (forall id :: id in Ids(m) && id in s.blobs ==> s.blobs[id].state == m.from || s.blobs[id].state == m.to)
    && (forall k :: 0 <= k < Done(c, m) && k < |m.programs| ==>
          m.programs[k].id in s.blobs && s.blobs[m.programs[k].id].state == m.to)
  }

  ghost predicate Disjoint(x: Mixed) {
    forall i, j, id :: i in x.moves && j in x.moves && i != j && id in Ids(x.moves[i]) ==> id !in Ids(x.moves[j])
  }

  ghost predicate Right(x: Mixed) {
    && Fresh(x.core) && Disjoint(x)
    && (forall i :: i in x.moves ==> i < |x.core.clients| && MovingRight(x.core, x.core.clients[i], x.moves[i]))
    && (forall id :: !Moving(x, id) ==> Settled(x.core, id))
  }

  // ---------------------------------------------------------------- steps

  /** A commit of a client that is not moving leaves the other ids alone and settles its
      own. */
  lemma PlainCommit(merge: MergeFn, s: System, a: Action, id: Id)
    requires OccProtocol.Enabled(s, a) && Fresh(s) && KeepsState(merge, s, a) && Settled(s, id)
    ensures Settled(OccProtocol.Next(merge, s, a), id)
  {
    var s' := OccProtocol.Next(merge, s, a);
    NextFrame(merge, s, a);
    assert ClientFresh(s, s.clients[a.client]);
  }

  /** What an action of one client does to an id it does not write: nothing. */
  lemma Untouched(merge: MergeFn, s: System, a: Action, id: Id)
    requires OccProtocol.Enabled(s, a) && Fresh(s) && !Commits(merge, s, a, id)
    ensures var s' := OccProtocol.Next(merge, s, a);
      && (id in s.blobs <==> id in s'.blobs) && (id in s.blobs ==> s'.blobs[id] == s.blobs[id])
      && forall st :: (st, id) in s.members <==> (st, id) in s'.members
  {
    NextFrame(merge, s, a);
  }

  lemma MoveStaysRight(s: System, s': System, c: Client, m: Move)
    requires MovingRight(s, c, m)
    requires forall id :: id in Ids(m) ==>
      && (id in s.blobs <==> id in s'.blobs) && (id in s.blobs ==> s'.blobs[id] == s.blobs[id])
      && forall st :: (st, id) in s.members <==> (st, id) in s'.members
    ensures MovingRight(s', c, m)
  {
    forall k | 0 <= k < |m.programs| ensures m.programs[k].id in Ids(m) {
      assert m.programs[k] in m.programs;
    }
  }

  /** An INCRBY or SET of the moving client itself. */
  lemma OwnCommand(merge: MergeFn, s: System, a: Action, m: Move)
    requires OccProtocol.Enabled(s, a) && a.Step? && MovingRight(s, s.clients[a.client], m)
    ensures var s' := OccProtocol.Next(merge, s, a); MovingRight(s', s'.clients[a.client], m)
    ensures OccProtocol.Next(merge, s, a).members == s.members
    ensures forall id :: Commits(merge, s, a, id) ==> id in Ids(m)
  {
    var c, s' := s.clients[a.client], OccProtocol.Next(merge, s, a);
    if c.Writing? && c.written < |c.programs| {
      assert c.programs[c.written] in m.programs;
    }
  }

  lemma CoreOfOthers(merge: MergeFn, x: Mixed, a: Action)
    requires Right(x) && Enabled(x, Core(a)) && RespectsMoves(merge, x, Core(a)) && a.client !in x.moves
    ensures Right(Next(merge, x, Core(a)))
  {
    var s, s' := x.core, OccProtocol.Next(merge, x.core, a);
    FreshStep(merge, s, a);
    NextFrame(merge, s, a);
    forall i | i in x.moves ensures i < |s'.clients| && MovingRight(s', s'.clients[i], x.moves[i]) {
      forall id | id in Ids(x.moves[i]) ensures !Commits(merge, s, a, id) {
        assert Moving(x, id);
      }
      forall id | id in Ids(x.moves[i])
        ensures (id in s.blobs <==> id in s'.blobs) && (id in s.blobs ==> s'.blobs[id] == s.blobs[id])
        ensures forall st :: (st, id) in s.members <==> (st, id) in s'.members
      {
        Untouched(merge, s, a, id);
      }
      MoveStaysRight(s, s', s.clients[i], x.moves[i]);
    }
    forall id | !Moving(x.(core := s'), id) ensures Settled(s', id) {
      assert !Moving(x, id);
      PlainCommit(merge, s, a, id);
    }
  }

  lemma CoreOfMover(merge: MergeFn, x: Mixed, a: Action)
    requires Right(x) && Enabled(x, Core(a)) && a.client in x.moves
    ensures Right(Next(merge, x, Core(a)))
  {
    var s, s' := x.core, OccProtocol.Next(merge, x.core, a);
    FreshStep(merge, s, a);
    NextFrame(merge, s, a);
    OwnCommand(merge, s, a, x.moves[a.client]);
    forall i | i in x.moves && i != a.client ensures i < |s'.clients| && MovingRight(s', s'.clients[i], x.moves[i]) {
      forall id | id in Ids(x.moves[i])
        ensures (id in s.blobs <==> id in s'.blobs) && (id in s.blobs ==> s'.blobs[id] == s.blobs[id])
        ensures forall st :: (st, id) in s.members <==> (st, id) in s'.members
      {
        Untouched(merge, s, a, id);
      }
      MoveStaysRight(s, s', s.clients[i], x.moves[i]);
    }
    forall id | !Moving(x.(core := s'), id) ensures Settled(s', id) {
      assert !Moving(x, id) && Settled(s, id);
      Untouched(merge, s, a, id);
    }
  }

  lemma MoveBegins(merge: MergeFn, x: Mixed, i: nat, programs: seq<Program>, from: ProgramState, to: ProgramState)
    requires Right(x) && Enabled(x, BeginMove(i, programs, from, to))
    requires RespectsMoves(merge, x, BeginMove(i, programs, from, to))
    ensures Right(Next(merge, x, BeginMove(i, programs, from, to)))
  {
    var s, y := x.core, Next(merge, x, BeginMove(i, programs, from, to));
    FreshStep(merge, s, BeginBulk(i, programs));
    var m := y.moves[i];
    forall id | id in Ids(m) ensures !Moving(x, id) && Settled(s, id) {
      var p :| p in programs && p.id == id;
    }
    forall id | Moving(x, id) ensures Moving(y, id) {
      var j :| j in x.moves && id in Ids(x.moves[j]);
      assert y.moves[j] == x.moves[j];
    }
    forall j | j in y.moves ensures j < |y.core.clients| && MovingRight(y.core, y.core.clients[j], y.moves[j]) {
      if j != i {
        assert y.moves[j] == x.moves[j] && y.core.clients[j] == s.clients[j];
        MoveStaysRight(s, y.core, s.clients[j], x.moves[j]);
      }
    }
    forall id | !Moving(y, id) ensures Settled(y.core, id) {
      assert Settled(s, id);
    }
    forall j, k, id | j in y.moves && k in y.moves && j != k && id in Ids(y.moves[j]) ensures id !in Ids(y.moves[k]) {
      if j != i { assert Moving(x, id); }
      assert k != i && id in Ids(x.moves[k]) ==> Moving(x, id);
    }
  }

  lemma SremMovesOn(merge: MergeFn, x: Mixed, i: nat)
    requires Enabled(x, Srem(i))
    ensures forall id :: Moving(Next(merge, x, Srem(i)), id) <==> Moving(x, id)
  {
    var y := Next(merge, x, Srem(i));
    forall j | j in x.moves ensures j in y.moves && Ids(y.moves[j]) == Ids(x.moves[j]) {
    }
    forall id ensures Moving(y, id) <==> Moving(x, id) {
      if j :| j in x.moves && id in Ids(x.moves[j]) { assert id in Ids(y.moves[j]); }
      if j :| j in y.moves && id in Ids(y.moves[j]) { assert id in Ids(x.moves[j]); }
    }
  }

  lemma SremKeepsRight(merge: MergeFn, x: Mixed, i: nat)
    requires Right(x) && Enabled(x, Srem(i))
    ensures Right(Next(merge, x, Srem(i)))
  {
    var s, y, m := x.core, Next(merge, x, Srem(i)), x.moves[i];
    assert MovingRight(s, s.clients[i], m);
    SetsKeepFresh(s, y.core);
    SremMovesOn(merge, x, i);
    forall j | j in y.moves && j != i ensures MovingRight(y.core, y.core.clients[j], y.moves[j]) {
      MoveStaysRight(s, y.core, s.clients[j], x.moves[j]);
    }
    forall id | !Moving(y, id) ensures Settled(y.core, id) {
      assert id !in Ids(m) && Settled(s, id);
    }
  }

  /** SADD settles the programs that were moving. */
  lemma SaddKeepsRight(merge: MergeFn, x: Mixed, i: nat)
    requires Right(x) && Enabled(x, Sadd(i))
    ensures Right(Next(merge, x, Sadd(i)))
  {
    var s, y, m := x.core, Next(merge, x, Sadd(i)), x.moves[i];
    assert MovingRight(s, s.clients[i], m);
    SetsKeepFresh(s, y.core);
    forall j | j in y.moves ensures MovingRight(y.core, y.core.clients[j], y.moves[j]) {
      MoveStaysRight(s, y.core, s.clients[j], x.moves[j]);
    }
    forall id | Moving(x, id) && id !in Ids(m) ensures Moving(y, id) {
      var j :| j in x.moves && id in Ids(x.moves[j]);
      assert y.moves[j] == x.moves[j];
    }
    forall id | !Moving(y, id) ensures Settled(y.core, id) {
      if id in Ids(m) {
        var p :| p in m.programs && p.id == id;
        var k :| 0 <= k < |m.programs| && m.programs[k] == p;
      } else {
        assert Settled(s, id);
      }
    }
  }

  lemma SetsKeepFresh(s: System, s': System)
    requires Fresh(s) && s' == s.(members := s'.members)
    ensures Fresh(s')
  {
    forall j | 0 <= j < |s'.clients| ensures ClientFresh(s', s'.clients[j]) {
      assert ClientFresh(s, s.clients[j]);
    }
  }

  lemma MixedStep(merge: MergeFn, x: Mixed, c: Command)
    requires Right(x) && Enabled(x, c) && RespectsMoves(merge, x, c)
    ensures Right(Next(merge, x, c))
  {
    match c
    case Core(a) =>
      if a.client in x.moves { CoreOfMover(merge, x, a); } else { CoreOfOthers(merge, x, a); }
    case BeginMove(i, programs, from, to) => MoveBegins(merge, x, i, programs, from, to);
    case Srem(i) => SremKeepsRight(merge, x, i);
    case Sadd(i) => SaddKeepsRight(merge, x, i);
  }

  ghost predicate IsRun(merge: MergeFn, xs: seq<Mixed>, cs: seq<Command>) {
    && |xs| == |cs| + 1
    && forall i :: 0 <= i < |cs| ==> Enabled(xs[i], cs[i]) && xs[i + 1] == Next(merge, xs[i], cs[i])
  }

  /** Any mixture of concurrent updates, atomic transitions, exclusive writes and fast or
      batch transitions whose callers own what they move: at every moment each id that is
      not just moving is in exactly the set of its blob's state; so whenever no unwatched
      transition is in progress, the status sets match the blobs. */
  lemma {:induction false} MixedPartition(merge: MergeFn, xs: seq<Mixed>, cs: seq<Command>, n: nat)
    requires IsRun(merge, xs, cs) && Initial(xs[0].core) && Indexed(xs[0].core) && xs[0].moves == map[]
    requires forall i :: 0 <= i < |cs| ==> RespectsMoves(merge, xs[i], cs[i])
    requires n < |xs|
    ensures Right(xs[n])
    ensures forall id :: !Moving(xs[n], id) ==> Settled(xs[n].core, id)
    ensures xs[n].moves == map[] ==> Indexed(xs[n].core)
  {
    if n == 0 {
      forall id ensures Settled(xs[0].core, id) {
      }
    } else {
      MixedPartition(merge, xs, cs, n - 1);
      MixedStep(merge, xs[n - 1], cs[n - 1]);
    }
    if xs[n].moves == map[] {
      AllSettled(xs[n].core);
    }
  }

  lemma AllSettled(s: System)
    requires forall id :: Settled(s, id)
    ensures Indexed(s)
  {
    forall m ensures m in s.members <==> m in Index(s.blobs) {
      assert Settled(s, m.1);
      assert m == (m.0, m.1);
    }
  }
}
