/** Any number of populations, each with its own ProgressBasedSyncHook called before
    every epoch, run against each other (gigaevo/adversarial/sync.py). */
module DriftProtocol {
  import opened Prelude
  import opened SyncHook

  /** K, the drift cap, the most programs one epoch processes, and the opponents. */
  datatype Config = Config(k: nat, cap: nat, epoch: nat, opponents: seq<nat>)

  /** A population is about to call its hook, polling inside it, or in an epoch that
      has processed `made` programs so far. */
  datatype Phase = AtHook | Waiting | Epoch(made: nat)

  datatype Pop = Pop(progress: nat, count: nat, first: bool, phase: Phase)

  type System = seq<Pop>

  ghost predicate ValidConfig(cfg: seq<Config>) {
    forall i :: 0 <= i < |cfg| ==>
      cfg[i].k >= 1 && cfg[i].opponents != [] && InRange(cfg[i].opponents, |cfg|)
  }

  predicate InRange(opponents: seq<nat>, n: nat) {
    forall j :: 0 <= j < |opponents| ==> opponents[j] < n
  }

  /** The real progress of the opponents of a population. */
  function Actual(s: System, opponents: seq<nat>): (a: seq<nat>)
    requires InRange(opponents, |s|)
    ensures |a| == |opponents|
  {
    seq(|opponents|, j requires 0 <= j < |opponents| => s[opponents[j]].progress)
  }

  /** How far population `i` is ahead of its slowest opponent. */
  function Drift(cfg: seq<Config>, s: System, i: nat): int
    requires ValidConfig(cfg) && |s| == |cfg| && i < |cfg|
  {
    s[i].progress - MinReading(Actual(s, cfg[i].opponents))
  }

  /** One hook call up to its drift test. */
  function AfterCall(p: Pop, k: nat): Pop {
    var (count, first, decision) := Decide(p.count, p.first, k);
    p.(count := count, first := first, phase := if decision == Test then Waiting else Epoch(0))
  }

  /** One step of population `p`; `readings` is what a poll sees of its opponents. */
  ghost predicate PopStep(c: Config, p: Pop, p': Pop, readings: seq<nat>) {
    match p.phase
    case AtHook => p' == AfterCall(p, c.k)
    case Waiting => p' == if Within(p.progress, readings, c.cap) then p.(phase := Epoch(0)) else p
    case Epoch(made) =>
      || (made < c.epoch && p' == p.(progress := p.progress + 1, phase := Epoch(made + 1)))
      || p' == p.(phase := AtHook)
  }

  /** An opponent reading is stale or, when it failed, zero: never ahead of the truth. */
  ghost predicate Plausible(readings: seq<nat>, actual: seq<nat>) {
    |readings| == |actual| && forall j :: 0 <= j < |actual| ==> readings[j] <= actual[j]
  }

  ghost predicate Step(cfg: seq<Config>, s: System, s': System, i: nat, readings: seq<nat>)
    requires ValidConfig(cfg)
  {
    && |s| == |s'| == |cfg| && i < |cfg|
    && Plausible(readings, Actual(s, cfg[i].opponents))
    && PopStep(cfg[i], s[i], s'[i], readings)
    && s' == s[i := s'[i]]
  }

  ghost predicate Next(cfg: seq<Config>, s: System, s': System)
    requires ValidConfig(cfg)
  {
    exists i, readings :: Step(cfg, s, s', i, readings)
  }

  ghost predicate Run(cfg: seq<Config>, run: seq<System>)
    requires ValidConfig(cfg)
  {
    && run != []
    && (forall n :: 0 <= n < |run| ==> |run[n]| == |cfg|)
    && forall n :: 0 < n < |run| ==> StepAt(cfg, run, n)
  }

  ghost predicate StepAt(cfg: seq<Config>, run: seq<System>, n: int)
    requires ValidConfig(cfg)
  {
    0 < n < |run| && Next(cfg, run[n - 1], run[n])
  }

  /** Every population is about to make its first hook call. */
  ghost predicate Start(s: System) {
    forall i :: 0 <= i < |s| ==> s[i].count == 0 && s[i].first && s[i].phase == AtHook
  }

  function Bound(c: Config, d0: int): int {
    Max(c.cap + c.k * c.epoch, d0 + (2 * c.k - 1) * c.epoch)
  }

  // ----- The drift bound -----

  /** Before the first synchronisation the drift started at d0; after it, at d0 plus the
      first K-1 epochs; after any real check, at the cap. */
  function Base(c: Config, p: Pop, d0: int): int {
    if p.first then d0 - c.epoch else Max(c.cap, d0 + (c.k - 1) * c.epoch)
  }

  /** How many programs the current stretch may have added to the base. */
  function Added(c: Config, p: Pop): nat {
    match p.phase
    case Epoch(made) => p.count * c.epoch + made
    case AtHook => (p.count + 1) * c.epoch
    case Waiting => c.k * c.epoch
  }

  ghost predicate DriftInv(c: Config, p: Pop, drift: int, d0: int) {
    && p.count < c.k
    && (p.phase.Epoch? ==> p.phase.made <= c.epoch)
    && (p.phase.Waiting? ==> !p.first && p.count == 0)
    && drift <= Base(c, p, d0) + Added(c, p)
  }

  lemma InvWithinBound(c: Config, p: Pop, drift: int, d0: int)
    requires c.k >= 1 && DriftInv(c, p, drift, d0)
    ensures drift <= Bound(c, d0)
  {
    MulMono(c.epoch, p.count + 1, c.k);
    MulMono(c.epoch, p.count, c.k - 1);
    assert p.count * c.epoch == c.epoch * p.count && c.k * c.epoch == c.epoch * c.k;
    assert (p.count + 1) * c.epoch == c.epoch * (p.count + 1) && (c.k - 1) * c.epoch == c.epoch * (c.k - 1);
    assert (2 * c.k - 1) * c.epoch == (c.k - 1) * c.epoch + c.k * c.epoch;
  }

  /** An own step keeps the invariant: a poll that passes against stale readings passes
      against the truth. */
  lemma OwnStepKeepsInv(c: Config, p: Pop, p': Pop, readings: seq<nat>, opp: nat, d0: int)
    requires c.k >= 1 && PopStep(c, p, p', readings) && MinReading(readings) <= opp
    requires DriftInv(c, p, p.progress - opp, d0)
    ensures DriftInv(c, p', p'.progress - opp, d0)
  {
    match p.phase
    case AtHook =>
      if p.count + 1 < c.k {
        assert Added(c, p') == Added(c, p);
      } else {
        assert p.count + 1 == c.k;
        assert (c.k - 1) * c.epoch == c.k * c.epoch - c.epoch;
        assert p'.count * c.epoch == 0;
      }
    case Waiting =>
      if Within(p.progress, readings, c.cap) {
        assert p'.count * c.epoch == 0;
      }
    case Epoch(made) =>
      assert (p.count + 1) * c.epoch == p.count * c.epoch + c.epoch;
  }

  lemma MinMonotone(a: seq<nat>, b: seq<nat>)
    requires Plausible(a, b)
    ensures MinReading(a) <= MinReading(b)
  {
    if b != [] {
      var j: nat :| j < |b| && b[j] == MinReading(b);
      assert a[j] in a && a[j] <= b[j];
    }
  }

  lemma ProgressGrows(cfg: seq<Config>, s: System, s': System)
    requires ValidConfig(cfg) && Next(cfg, s, s')
    ensures forall o :: 0 <= o < |s| ==> s[o].progress <= s'[o].progress
  {
  }

  ghost predicate Inv(cfg: seq<Config>, s: System, d0: seq<int>)
    requires ValidConfig(cfg)
  {
    && |s| == |d0| == |cfg|
    && forall i: nat :: i < |cfg| ==> PopInv(cfg, s, d0, i)
  }

  ghost predicate PopInv(cfg: seq<Config>, s: System, d0: seq<int>, i: nat)
    requires ValidConfig(cfg) && |s| == |d0| == |cfg| && i < |cfg|
  {
    DriftInv(cfg[i], s[i], Drift(cfg, s, i), d0[i])
  }

  /** Other populations' steps can only lower a drift. */
  lemma DriftOnlyFalls(cfg: seq<Config>, s: System, s': System, j: nat)
    requires ValidConfig(cfg) && Next(cfg, s, s') && j < |cfg|
    ensures MinReading(Actual(s, cfg[j].opponents)) <= MinReading(Actual(s', cfg[j].opponents))
  {
    ProgressGrows(cfg, s, s');
    MinMonotone(Actual(s, cfg[j].opponents), Actual(s', cfg[j].opponents));
  }

  lemma StepKeepsDriftInv(cfg: seq<Config>, s: System, s': System, i: nat, readings: seq<nat>, j: nat, d0: int)
    requires ValidConfig(cfg) && Step(cfg, s, s', i, readings) && j < |cfg|
    requires DriftInv(cfg[j], s[j], Drift(cfg, s, j), d0)
    ensures DriftInv(cfg[j], s'[j], Drift(cfg, s', j), d0)
  {
    DriftOnlyFalls(cfg, s, s', j);
    if j == i {
      var actual := Actual(s, cfg[i].opponents);
      MinMonotone(readings, actual);
      OwnStepKeepsInv(cfg[i], s[i], s'[i], readings, MinReading(actual), d0);
    } else {
      assert s'[j] == s[j];
    }
  }

  lemma StepKeepsInv(cfg: seq<Config>, s: System, s': System, d0: seq<int>)
    requires ValidConfig(cfg) && Inv(cfg, s, d0) && Next(cfg, s, s')
    ensures Inv(cfg, s', d0)
  {
    var i, readings :| Step(cfg, s, s', i, readings);
    forall j: nat | j < |cfg| ensures PopInv(cfg, s', d0, j) {
      assert PopInv(cfg, s, d0, j);
      StepKeepsDriftInv(cfg, s, s', i, readings, j, d0[j]);
    }
  }

  function Drifts(cfg: seq<Config>, s: System): (d: seq<int>)
    requires ValidConfig(cfg) && |s| == |cfg|
    ensures |d| == |cfg|
  {
    seq(|cfg|, i requires 0 <= i < |cfg| => Drift(cfg, s, i))
  }

  lemma StartInv(cfg: seq<Config>, s: System)
    requires ValidConfig(cfg) && |s| == |cfg| && Start(s)
    ensures Inv(cfg, s, Drifts(cfg, s))
  {
  }

  lemma {:induction false} RunKeepsInv(cfg: seq<Config>, run: seq<System>, n: nat, d0: seq<int>)
    requires ValidConfig(cfg) && Run(cfg, run) && n < |run| && Inv(cfg, run[0], d0)
    ensures Inv(cfg, run[n], d0)
  {
    if n > 0 {
      RunKeepsInv(cfg, run, n - 1, d0);
      assert StepAt(cfg, run, n);
      StepKeepsInv(cfg, run[n - 1], run[n], d0);
    }
  }

  /** In every run with no timeout and no failed own read, however the populations are
      interleaved and however stale their readings of each other, no population is ever
      more than max(cap + K*E, d0 + (2K-1)*E) ahead of its slowest opponent. */
  lemma DriftBound(cfg: seq<Config>, run: seq<System>, n: nat, i: nat)
    requires ValidConfig(cfg) && Run(cfg, run) && Start(run[0])
    requires n < |run| && i < |cfg|
    ensures Drift(cfg, run[n], i) <= Bound(cfg[i], Drift(cfg, run[0], i))
  {
    var d0 := Drifts(cfg, run[0]);
    StartInv(cfg, run[0]);
    RunKeepsInv(cfg, run, n, d0);
    assert PopInv(cfg, run[n], d0, i);
    InvWithinBound(cfg[i], run[n][i], Drift(cfg, run[n], i), Drift(cfg, run[0], i));
  }

  // ----- Nobody waits for ever -----

  /** A poll with fresh readings would pass. */
  ghost predicate CheckPasses(cfg: seq<Config>, s: System, i: nat)
    requires ValidConfig(cfg) && |s| == |cfg| && i < |cfg|
  {
    Within(s[i].progress, Actual(s, cfg[i].opponents), cfg[i].cap)
  }

  /** A blocked population waits, directly or through others, for one that is behind it
      by more than its cap and is not blocked: there is no cycle of waiting, whatever
      the opponent lists and caps. */
  lemma {:induction false} BlockedOnFreePopulation(cfg: seq<Config>, s: System, i: nat) returns (j: nat)
    requires ValidConfig(cfg) && |s| == |cfg| && i < |cfg|
    ensures j < |cfg| && CheckPasses(cfg, s, j)
    ensures j != i ==> s[j].progress + cfg[i].cap < s[i].progress
    ensures j == i <==> CheckPasses(cfg, s, i)
    decreases s[i].progress
  {
    if CheckPasses(cfg, s, i) { return i; }
    var a := Actual(s, cfg[i].opponents);
    var m :| 0 <= m < |a| && a[m] == MinReading(a);
    j := BlockedOnFreePopulation(cfg, s, cfg[i].opponents[m]);
  }

  /** The population with least progress is never blocked. */
  lemma LeastNeverBlocks(cfg: seq<Config>, s: System, i: nat)
    requires ValidConfig(cfg) && |s| == |cfg| && i < |cfg|
    requires forall o :: 0 <= o < |s| ==> s[i].progress <= s[o].progress
    ensures CheckPasses(cfg, s, i)
  {
    var a := Actual(s, cfg[i].opponents);
    var m :| 0 <= m < |a| && a[m] == MinReading(a);
  }

  /** In every state some population can leave its current phase at once: deadlock is
      impossible even when all of them are waiting. */
  lemma NoDeadlock(cfg: seq<Config>, s: System) returns (i: nat, s': System)
    requires ValidConfig(cfg) && |s| == |cfg| && cfg != []
    ensures i < |cfg| && Step(cfg, s, s', i, Actual(s, cfg[i].opponents)) && s'[i].phase != s[i].phase
  {
    i := BlockedOnFreePopulation(cfg, s, 0);
    var p' := match s[i].phase
      case AtHook => AfterCall(s[i], cfg[i].k)
      case Waiting => s[i].(phase := Epoch(0))
      case Epoch(_) => s[i].(phase := AtHook);
    s' := s[i := p'];
  }
}
