/** Progress of the protocol: nothing begun is lost or applied twice, and the retry
    loops of the whole system end after a number of steps that depends only on how
    many operations were begun. */
module OccProgress {
  import opened Prelude
  import opened Programs
  import opened OccProtocol
  import opened OccSafety

  // ---------------------------------------------------------------- sums over clients

  function Sum(cs: seq<Client>, f: Client -> nat): nat {
    if cs == [] then 0 else f(cs[0]) + Sum(cs[1..], f)
  }

  lemma {:induction false} SumUpdate(cs: seq<Client>, i: nat, c: Client, f: Client -> nat)
    requires i < |cs|
    ensures Sum(cs[i := c], f) + f(cs[i]) == Sum(cs, f) + f(c)
  {
    if i == 0 {
      assert cs[i := c][1..] == cs[1..];
    } else {
      SumUpdate(cs[1..], i - 1, c, f);
      assert cs[i := c][1..] == cs[1..][i - 1 := c];
    }
  }

  lemma {:induction false} SumLeq(cs: seq<Client>, f: Client -> nat, g: Client -> nat, m: nat)
    requires forall i :: 0 <= i < |cs| ==> f(cs[i]) <= m * g(cs[i])
    ensures Sum(cs, f) <= m * Sum(cs, g)
  {
    if cs != [] {
      SumLeq(cs[1..], f, g, m);
      assert m * (g(cs[0]) + Sum(cs[1..], g)) == m * g(cs[0]) + m * Sum(cs[1..], g);
    }
  }

  lemma {:induction false} SumZero(cs: seq<Client>, f: Client -> nat)
    requires Sum(cs, f) == 0
    ensures forall i :: 0 <= i < |cs| ==> f(cs[i]) == 0
  {
    if cs != [] {
      SumZero(cs[1..], f);
      assert forall i :: 0 < i < |cs| ==> cs[i] == cs[1..][i - 1];
    }
  }

  lemma {:induction false} SumOfIdle(cs: seq<Client>, f: Client -> nat)
    requires f(Idle) == 0 && forall i :: 0 <= i < |cs| ==> cs[i] == Idle
    ensures Sum(cs, f) == 0
  {
    if cs != [] { SumOfIdle(cs[1..], f); }
  }

  // ---------------------------------------------------------------- conservation

  function Count(ps: seq<Program>, p: Program): nat {
    if ps == [] then 0 else (if ps[0] == p then 1 else 0) + Count(ps[1..], p)
  }

  function CountLog(log: seq<Commit>, p: Program): nat {
    if log == [] then 0 else CountLog(log[..|log| - 1], p) + if log[|log| - 1].Incoming() == p then 1 else 0
  }

  /** How often a client still has to write `p`. */
  function Pending(p: Program): Client -> nat {
    (c: Client) =>
      match c
      case Idle => 0
      case Reserving(programs) => Count(programs, p)
      case Writing(programs, _, written) => if written <= |programs| then Count(programs[written..], p) else 0
      case _ => if c.op.program == p then 1 else 0
  }

  lemma {:induction false} CountAppend(a: seq<Program>, b: seq<Program>, p: Program)
    ensures Count(a + b, p) == Count(a, p) + Count(b, p)
  {
    if a == [] {
      assert a + b == b;
    } else {
      CountAppend(a[1..], b, p);
      assert (a + b)[1..] == a[1..] + b;
    }
  }

  lemma CountLogAppend(log: seq<Commit>, c: Commit, p: Program)
    ensures CountLog(log + [c], p) == CountLog(log, p) + if c.Incoming() == p then 1 else 0
  {
    assert (log + [c])[..|log|] == log;
  }

  /** What one action does to the four counts of `p`. */
  ghost predicate Balanced(s: System, s': System, i: nat, p: Program)
    requires i < |s.clients| && |s'.clients| == |s.clients|
  {
    Count(s'.begun, p) + CountLog(s.log, p) + Count(s.aborted, p) + Pending(p)(s.clients[i])
    == Count(s.begun, p) + CountLog(s'.log, p) + Count(s'.aborted, p) + Pending(p)(s'.clients[i])
  }

  lemma BulkBalanced(s: System, i: nat, p: Program)
    requires i < |s.clients| && s.clients[i].Writing?
    ensures Balanced(s, BulkWrite(s, i), i, p)
  {
    var Writing(ps, start, written) := s.clients[i];
    if written < |ps| {
      assert ps[written..][1..] == ps[written + 1..];
      CountLogAppend(s.log, Written(ps[written], start + written), p);
    }
  }

  lemma ExecBalanced(merge: MergeFn, s: System, i: nat, p: Program)
    requires i < |s.clients| && s.clients[i].Stamped?
    ensures Balanced(s, Exec(merge, s, i), i, p)
  {
    var op := s.clients[i].op;
    var base := Base(merge, s.clients[i].existing, op.program);
    if base.Err? {
      CountAppend(s.aborted, [op.program], p);
    } else if s.Version(op.program.id) == s.clients[i].seen {
      CountLogAppend(s.log, Merged(op, s.clients[i].stamp), p);
    }
  }

  lemma BeginBalanced(merge: MergeFn, s: System, a: Action, p: Program)
    requires Enabled(s, a) && !a.Step?
    ensures Balanced(s, Next(merge, s, a), a.client, p)
  {
    CountAppend(s.begun, if a.Begin? then [a.op.program] else a.programs, p);
    if a.BeginBulk? { assert a.programs[0..] == a.programs; }
  }

  lemma ReadBalanced(merge: MergeFn, s: System, a: Action, p: Program)
    requires Enabled(s, a) && a.Step?
    requires s.clients[a.client].Ready? || s.clients[a.client].Watched?
             || s.clients[a.client].Fetched? || s.clients[a.client].Reserving?
    ensures Balanced(s, Next(merge, s, a), a.client, p)
  {
    var c := s.clients[a.client];
    if c.Reserving? { assert c.programs[0..] == c.programs; }
  }

  lemma NextBalanced(merge: MergeFn, s: System, a: Action, p: Program)
    requires Enabled(s, a)
    ensures Balanced(s, Next(merge, s, a), a.client, p)
  {
    var c := s.clients[a.client];
    if !a.Step? {
      BeginBalanced(merge, s, a, p);
    } else if c.Stamped? {
      ExecBalanced(merge, s, a.client, p);
    } else if c.Writing? {
      BulkBalanced(s, a.client, p);
    } else {
      ReadBalanced(merge, s, a, p);
    }
  }

  /** The programs callers hand to the store, in the order of their calls. */
  function Submitted(acts: seq<Action>): seq<Program> {
    if acts == [] then []
    else
      Submitted(acts[..|acts| - 1]) +
      match acts[|acts| - 1]
      case Begin(_, op) => [op.program]
      case BeginBulk(_, programs) => programs
      case Step(_) => []
  }

  lemma {:induction false} BegunAreSubmitted(merge: MergeFn, s: System, acts: seq<Action>)
    requires Initial(s) && Runs(merge, s, acts)
    ensures After(merge, s, acts).begun == Submitted(acts)
    decreases |acts|
  {
    if acts != [] { BegunAreSubmitted(merge, s, acts[..|acts| - 1]); }
  }

  /** Every write handed to the store is at any moment in exactly one place:
      committed once in the log, still in flight, or aborted by its merge. */
  lemma {:induction false} Conservation(merge: MergeFn, s: System, acts: seq<Action>, p: Program)
    requires Initial(s) && Runs(merge, s, acts)
    ensures var e := After(merge, s, acts);
      && e.begun == Submitted(acts)
      && Count(e.begun, p) == CountLog(e.log, p) + Sum(e.clients, Pending(p)) + Count(e.aborted, p)
    decreases |acts|
  {
    BegunAreSubmitted(merge, s, acts);
    if acts == [] {
      SumOfIdle(s.clients, Pending(p));
    } else {
      var front, last := acts[..|acts| - 1], acts[|acts| - 1];
      Conservation(merge, s, front, p);
      var mid, e := After(merge, s, front), After(merge, s, acts);
      NextFrame(merge, mid, last);
      NextBalanced(merge, mid, last, p);
      SumUpdate(mid.clients, last.client, e.clients[last.client], Pending(p));
    }
  }

  // ---------------------------------------------------------------- bounded retries

  const BUSY: Client -> nat := (c: Client) => if c.Idle? then 0 else 1

  /** Commands of the current attempt already done: WATCH, GET, INCR. */
  const PHASE: Client -> nat := (c: Client) =>
    if c.Watched? then 1 else if c.Fetched? then 2 else if c.Stamped? then 3 else 0

  /** 1 for a client whose EXEC is bound to fail. */
  function Doomed(versions: map<Id, nat>): Client -> nat {
    (c: Client) =>
      if (c.Watched? || c.Fetched? || c.Stamped?)
         && (if c.op.program.id in versions then versions[c.op.program.id] else 0) != c.seen then 1 else 0
  }

  /** n * (n - 1) / 2. */
  function Pairs(n: nat): nat {
    if n == 0 then 0 else Pairs(n - 1) + (n - 1)
  }

  lemma {:induction false} PairsFormula(n: nat)
    ensures 2 * Pairs(n) == n * (n - 1)
  {
    if n > 0 {
      PairsFormula(n - 1);
      assert n * (n - 1) == (n - 1) * (n - 2) + 2 * (n - 1);
    }
  }

  predicate NoBulk(acts: seq<Action>) {
    forall a :: a in acts ==> !a.BeginBulk?
  }

  function Steps(acts: seq<Action>): nat {
    if acts == [] then 0 else Steps(acts[..|acts| - 1]) + if acts[|acts| - 1].Step? then 1 else 0
  }

  /** The bookkeeping of a run of watched operations. `Pairs` of the busy clients pays
      for the failures still to come: a commit can doom only the other busy ones. */
  ghost predicate Accounted(s: System, steps: nat) {
    var busy := Sum(s.clients, BUSY);
    && (forall c :: c in s.clients ==> !c.Reserving? && !c.Writing?)
    && busy + |s.log| + |s.aborted| == |s.begun|
    && steps == 4 * (|s.log| + |s.aborted| + s.failures) + Sum(s.clients, PHASE)
    && s.failures + Sum(s.clients, Doomed(s.versions)) + Pairs(busy) <= Pairs(|s.begun|)
  }

  lemma DoomedAreBusy(s: System)
    ensures Sum(s.clients, Doomed(s.versions)) <= Sum(s.clients, BUSY)
  {
    SumLeq(s.clients, Doomed(s.versions), BUSY, 1);
  }

  /** The five ways one action of a watched operation moves the accounts. */
  ghost predicate Charged(s: System, s': System, i: nat, step: nat)
    requires i < |s.clients| && |s'.clients| == |s.clients|
  {
    var c, c' := s.clients[i], s'.clients[i];
    var done, done' := |s.log| + |s.aborted|, |s'.log| + |s'.aborted|;
    var doomed, doomed' := Doomed(s.versions)(c), Doomed(s.versions)(c');
    && !c'.Reserving? && !c'.Writing?
    && (|| (&& step == 0 && |s'.begun| == |s.begun| + 1 && BUSY(c) == 0 && BUSY(c') == 1 && PHASE(c) == PHASE(c')
            && done' == done && s'.failures == s.failures && s'.versions == s.versions && doomed' == doomed)
        || (&& step == 1 && |s'.begun| == |s.begun| && BUSY(c) == BUSY(c') == 1 && PHASE(c') == PHASE(c) + 1
            && done' == done && s'.failures == s.failures && s'.versions == s.versions && doomed' == doomed)
        || (&& step == 1 && |s'.begun| == |s.begun| && BUSY(c) == BUSY(c') == 1 && PHASE(c) == 3 && PHASE(c') == 0
            && done' == done && s'.failures == s.failures + 1 && s'.versions == s.versions && doomed' + 1 == doomed)
        || (&& step == 1 && |s'.begun| == |s.begun| && BUSY(c) == 1 && BUSY(c') == 0 && PHASE(c) == 3 && PHASE(c') == 0
            && done' == done + 1 && s'.failures == s.failures))
  }

  lemma ExecCharged(merge: MergeFn, s: System, i: nat)
    requires i < |s.clients| && s.clients[i].Stamped?
    ensures Charged(s, Exec(merge, s, i), i, 1)
  {
  }

  lemma NextCharged(merge: MergeFn, s: System, a: Action)
    requires Enabled(s, a) && !a.BeginBulk? && !s.clients[a.client].Reserving? && !s.clients[a.client].Writing?
    ensures Charged(s, Next(merge, s, a), a.client, if a.Step? then 1 else 0)
  {
    if a.Step? && s.clients[a.client].Stamped? {
      ExecCharged(merge, s, a.client);
    }
  }

  lemma AccountedStep(s: System, s': System, i: nat, step: nat, steps: nat)
    requires Frame(s, s', i) && Charged(s, s', i, step) && Accounted(s, steps)
    ensures Accounted(s', steps + step)
  {
    var c := s'.clients[i];
    SumUpdate(s.clients, i, c, BUSY);
    SumUpdate(s.clients, i, c, PHASE);
    SumUpdate(s.clients, i, c, Doomed(s.versions));
    DoomedAreBusy(s');
  }

  /** 4 steps for each attempt that ended, at most 3 for each one that did not. */
  lemma StepBudget(n: nat, busy: nat, failures: nat, phase: nat, steps: nat)
    requires busy <= n && failures <= Pairs(n) && phase <= 3 * busy
    requires steps == 4 * (n - busy + failures) + phase
    ensures 2 * failures <= n * (n - 1)
    ensures steps + busy <= 2 * n * (n + 1)
  {
    PairsFormula(n);
    assert 2 * n * (n + 1) == 2 * (n * (n - 1)) + 4 * n;
  }

  lemma {:induction false} AccountedRun(merge: MergeFn, s: System, acts: seq<Action>)
    requires Initial(s) && Runs(merge, s, acts) && NoBulk(acts)
    ensures Accounted(After(merge, s, acts), Steps(acts))
    decreases |acts|
  {
    if acts == [] {
      SumOfIdle(s.clients, BUSY);
      SumOfIdle(s.clients, PHASE);
      SumOfIdle(s.clients, Doomed(s.versions));
    } else {
      var front, last := acts[..|acts| - 1], acts[|acts| - 1];
      AccountedRun(merge, s, front);
      var mid := After(merge, s, front);
      assert last in acts && mid.clients[last.client] in mid.clients;
      NextFrame(merge, mid, last);
      NextCharged(merge, mid, last);
      AccountedStep(mid, After(merge, s, acts), last.client, if last.Step? then 1 else 0, Steps(front));
    }
  }

  /** What the accounts say about failures and steps, for n begun operations. */
  ghost predicate WithinBudget(e: System, steps: nat) {
    var n, busy := |e.begun|, Sum(e.clients, BUSY);
    && |e.log| + |e.aborted| + busy == n
    && 2 * e.failures <= n * (n - 1)
    && steps + busy <= 2 * n * (n + 1)
  }

  lemma AccountedWithinBudget(e: System, steps: nat)
    requires Accounted(e, steps)
    ensures WithinBudget(e, steps)
  {
    SumLeq(e.clients, PHASE, BUSY, 3);
    StepBudget(|e.begun|, Sum(e.clients, BUSY), e.failures, Sum(e.clients, PHASE), steps);
  }

  /** N operations begun in any order cause at most N(N-1)/2 failed EXECs, and all
      N are finished after at most 2N(N+1) steps, however the steps interleave. */
  lemma BoundedRetries(merge: MergeFn, s: System, acts: seq<Action>)
    requires Initial(s) && Runs(merge, s, acts) && NoBulk(acts)
    ensures WithinBudget(After(merge, s, acts), Steps(acts))
  {
    AccountedRun(merge, s, acts);
    AccountedWithinBudget(After(merge, s, acts), Steps(acts));
  }

  /** Once the step budget is used up, every operation has finished. */
  lemma AllFinish(merge: MergeFn, s: System, acts: seq<Action>)
    requires Initial(s) && Runs(merge, s, acts) && NoBulk(acts)
    requires var n := |After(merge, s, acts).begun|; Steps(acts) >= 2 * n * (n + 1)
    ensures forall c :: c in After(merge, s, acts).clients ==> c.Idle?
  {
    BoundedRetries(merge, s, acts);
    var clients := After(merge, s, acts).clients;
    SumZero(clients, BUSY);
    forall c | c in clients ensures c.Idle? {
      var i :| 0 <= i < |clients| && clients[i] == c;
      assert BUSY(clients[i]) == 0;
    }
  }
}
