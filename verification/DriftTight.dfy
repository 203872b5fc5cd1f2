/** The drift bound of the synchronisation hook is the best possible one, and one
    failed reading of a population's own progress exceeds it
    (gigaevo/adversarial/sync.py). */
module DriftTight {
  import opened Prelude
  import opened SyncHook
  import opened DriftProtocol

  /** One population running alone: its opponents stand still and are read as `readings`. */
  ghost predicate PopRun(c: Config, ps: seq<Pop>, p: Pop, q: Pop, readings: seq<nat>) {
    && ps != [] && ps[0] == p && ps[|ps| - 1] == q
    && forall m, n :: 0 <= m < n < |ps| && n == m + 1 ==> PopStep(c, ps[m], ps[n], readings)
  }

  lemma Join(c: Config, ps: seq<Pop>, qs: seq<Pop>, p: Pop, q: Pop, r: Pop, readings: seq<nat>) returns (rs: seq<Pop>)
    requires PopRun(c, ps, p, q, readings) && PopRun(c, qs, q, r, readings)
    ensures PopRun(c, rs, p, r, readings)
  {
    rs := ps + qs[1..];
    forall m, n | 0 <= m < n < |rs| && n == m + 1 ensures PopStep(c, rs[m], rs[n], readings) {
      if n < |ps| {
        assert rs[m] == ps[m] && rs[n] == ps[n];
      } else {
        assert rs[n] == qs[n - |ps| + 1] && rs[m] == qs[m - |ps| + 1];
      }
    }
  }

  lemma One(c: Config, p: Pop, q: Pop, readings: seq<nat>) returns (ps: seq<Pop>)
    requires PopStep(c, p, q, readings)
    ensures PopRun(c, ps, p, q, readings)
  {
    ps := [p, q];
  }

  /** Finish the current epoch after `e` more programs. */
  lemma {:induction false} EpochRun(c: Config, p: Pop, e: nat, readings: seq<nat>) returns (ps: seq<Pop>)
    requires p.phase.Epoch? && p.phase.made + e <= c.epoch
    ensures PopRun(c, ps, p, p.(progress := p.progress + e, phase := AtHook), readings)
    decreases e
  {
    var end := p.(progress := p.progress + e, phase := AtHook);
    if e == 0 {
      ps := One(c, p, end, readings);
    } else {
      var p1 := p.(progress := p.progress + 1, phase := Epoch(p.phase.made + 1));
      ps := One(c, p, p1, readings);
      var qs := EpochRun(c, p1, e - 1, readings);
      ps := Join(c, ps, qs, p, p1, end, readings);
    }
  }

  ghost predicate MayStart(c: Config, p: Pop, readings: seq<nat>) {
    p.phase == AtHook && (p.count + 1 < c.k || p.first || Within(p.progress, readings, c.cap))
  }

  function AfterRound(c: Config, p: Pop, e: nat): Pop {
    Pop(p.progress + e, Bump(p.count, c.k), p.first && p.count + 1 < c.k, AtHook)
  }

  /** One hook call that does not block and the epoch after it. */
  lemma Round(c: Config, p: Pop, e: nat, readings: seq<nat>) returns (ps: seq<Pop>)
    requires MayStart(c, p, readings) && e <= c.epoch
    ensures PopRun(c, ps, p, AfterRound(c, p, e), readings)
  {
    var p1 := AfterCall(p, c.k);
    ps := One(c, p, p1, readings);
    if p1.phase == Waiting {
      var p2 := p1.(phase := Epoch(0));
      var qs := One(c, p1, p2, readings);
      ps := Join(c, ps, qs, p, p1, p2, readings);
      p1 := p2;
    }
    var qs := EpochRun(c, p1, e, readings);
    ps := Join(c, ps, qs, p, p1, AfterRound(c, p, e), readings);
  }

  /** The next call tests the drift. */
  ghost predicate Ready(c: Config, p: Pop) {
    p.phase == AtHook && p.count + 1 == c.k && !p.first
  }

  /** How many calls come before the next drift test. */
  function FreeCalls(c: Config, p: Pop): nat
    requires p.count < c.k
  {
    (if p.first then c.k else 0) + (c.k - 1 - p.count)
  }

  /** Free calls let a population gain any amount up to E per call. */
  lemma {:induction false} FreeClimb(c: Config, p: Pop, gain: nat, readings: seq<nat>) returns (ps: seq<Pop>, q: Pop)
    requires c.k >= 1 && p.count < c.k && p.phase == AtHook
    requires gain <= FreeCalls(c, p) * c.epoch
    ensures PopRun(c, ps, p, q, readings) && Ready(c, q) && q.progress == p.progress + gain
    decreases FreeCalls(c, p)
  {
    if FreeCalls(c, p) == 0 {
      assert 0 * c.epoch == 0;
      ps, q := [p], p;
    } else {
      var e := if gain < c.epoch then gain else c.epoch;
      var p1 := AfterRound(c, p, e);
      ps := Round(c, p, e, readings);
      assert FreeCalls(c, p1) == FreeCalls(c, p) - 1;
      assert FreeCalls(c, p) * c.epoch == FreeCalls(c, p1) * c.epoch + c.epoch;
      var qs;
      qs, q := FreeClimb(c, p1, gain - e, readings);
      ps := Join(c, ps, qs, p, p1, q, readings);
    }
  }

  /** Rounds that pass the test let a population reach the cap exactly. */
  lemma {:induction false} SyncClimb(c: Config, p: Pop, gain: nat, readings: seq<nat>) returns (ps: seq<Pop>, q: Pop)
    requires c.k >= 1 && c.epoch >= 1 && Ready(c, p)
    requires p.progress + gain - MinReading(readings) <= c.cap
    ensures PopRun(c, ps, p, q, readings) && Ready(c, q) && q.progress == p.progress + gain
    decreases gain
  {
    if gain == 0 {
      ps, q := [p], p;
    } else {
      var e := if gain < c.epoch then gain else c.epoch;
      var p1 := AfterRound(c, p, e);
      ps := Round(c, p, e, readings);
      var qs, p2 := FreeClimb(c, p1, 0, readings);
      ps := Join(c, ps, qs, p, p1, p2, readings);
      qs, q := SyncClimb(c, p2, gain - e, readings);
      ps := Join(c, ps, qs, p, p2, q, readings);
    }
  }

  lemma BoundSplits(c: Config, d0: int)
    requires c.k >= 1
    ensures (2 * c.k - 1) * c.epoch == (c.k - 1) * c.epoch + c.k * c.epoch
    ensures c.k * c.epoch == (c.k - 1) * c.epoch + c.epoch
    ensures c.epoch >= 1 ==> Bound(c, d0) > c.cap
  {
    if c.epoch >= 1 {
      MulMono(c.epoch, 1, c.k);
    }
  }

  /** From the cap, a test just passed and free calls gain K full epochs. */
  lemma PassAndClimb(c: Config, p: Pop, readings: seq<nat>) returns (ps: seq<Pop>, q: Pop)
    requires c.k >= 1 && Ready(c, p) && p.progress - MinReading(readings) == c.cap
    ensures PopRun(c, ps, p, q, readings) && Ready(c, q) && q.progress == p.progress + c.k * c.epoch
  {
    BoundSplits(c, 0);
    var p1 := AfterRound(c, p, c.epoch);
    ps := Round(c, p, c.epoch, readings);
    var qs;
    qs, q := FreeClimb(c, p1, (c.k - 1) * c.epoch, readings);
    ps := Join(c, ps, qs, p, p1, q, readings);
  }

  /** From its first call a lone population can reach the bound exactly, ready for a
      drift test. */
  lemma PopReachesBound(c: Config, p: Pop, readings: seq<nat>) returns (ps: seq<Pop>, q: Pop)
    requires c.k >= 1 && c.epoch >= 1 && p.count == 0 && p.first && p.phase == AtHook
    ensures PopRun(c, ps, p, q, readings) && Ready(c, q)
    ensures q.progress - MinReading(readings) == Bound(c, p.progress - MinReading(readings))
  {
    var d0 := p.progress - MinReading(readings);
    BoundSplits(c, d0);
    assert FreeCalls(c, p) == 2 * c.k - 1;
    if d0 + (2 * c.k - 1) * c.epoch >= c.cap + c.k * c.epoch {
      ps, q := FreeClimb(c, p, (2 * c.k - 1) * c.epoch, readings);
    } else {
      var q1;
      if c.cap - d0 <= (2 * c.k - 1) * c.epoch {
        ps, q1 := FreeClimb(c, p, c.cap - d0, readings);
      } else {
        var qs, p1;
        qs, p1 := FreeClimb(c, p, 0, readings);
        ps, q1 := SyncClimb(c, p1, c.cap - d0, readings);
        ps := Join(c, qs, ps, p, p1, q1, readings);
      }
      var ts;
      ts, q := PassAndClimb(c, q1, readings);
      ps := Join(c, ps, ts, p, q1, q, readings);
    }
  }

  /** The same run inside the whole system, the other populations standing still. */
  lemma Lift(cfg: seq<Config>, s: System, i: nat, ps: seq<Pop>, q: Pop) returns (run: seq<System>)
    requires ValidConfig(cfg) && |s| == |cfg| && i < |cfg| && i !in cfg[i].opponents
    requires PopRun(cfg[i], ps, s[i], q, Actual(s, cfg[i].opponents))
    ensures Run(cfg, run) && run[0] == s && run[|run| - 1] == s[i := q]
    ensures Actual(s[i := q], cfg[i].opponents) == Actual(s, cfg[i].opponents)
  {
    var readings := Actual(s, cfg[i].opponents);
    run := seq(|ps|, n requires 0 <= n < |ps| => s[i := ps[n]]);
    assert run[0] == s;
    forall n | 0 < n < |run| ensures StepAt(cfg, run, n) {
      assert Actual(run[n - 1], cfg[i].opponents) == readings;
      assert run[n] == run[n - 1][i := run[n][i]];
      assert Step(cfg, run[n - 1], run[n], i, readings);
    }
    assert Actual(s[i := q], cfg[i].opponents) == readings;
  }

  /** The bound is attained in every system, from every start, so it is exact. */
  lemma DriftBoundAttained(cfg: seq<Config>, s: System, i: nat) returns (run: seq<System>)
    requires ValidConfig(cfg) && |s| == |cfg| && Start(s)
    requires i < |cfg| && i !in cfg[i].opponents && cfg[i].epoch >= 1
    ensures Run(cfg, run) && run[0] == s
    ensures Drift(cfg, run[|run| - 1], i) == Bound(cfg[i], Drift(cfg, s, i))
  {
    var ps, q := PopReachesBound(cfg[i], s[i], Actual(s, cfg[i].opponents));
    run := Lift(cfg, s, i, ps, q);
  }

  /** For a lone population: at the bound the honest test blocks, a reading of 0 passes, and
      one more epoch exceeds the bound. */
  lemma PopExceedsBound(c: Config, p: Pop, readings: seq<nat>)
    returns (ps: seq<Pop>, blocked: Pop, qs: seq<Pop>, q: Pop)
    requires c.k >= 1 && c.epoch >= 1 && p.count == 0 && p.first && p.phase == AtHook
    ensures PopRun(c, ps, p, blocked, readings) && blocked.phase == Waiting
    ensures !Within(blocked.progress, readings, c.cap) && Within(0, readings, c.cap)
    ensures PopRun(c, qs, blocked.(phase := Epoch(0)), q, readings)
    ensures q.progress - MinReading(readings) > Bound(c, p.progress - MinReading(readings))
  {
    var q1;
    ps, q1 := PopReachesBound(c, p, readings);
    BoundSplits(c, p.progress - MinReading(readings));
    blocked := AfterCall(q1, c.k);
    var rs := One(c, q1, blocked, readings);
    ps := Join(c, ps, rs, p, q1, blocked, readings);
    var start := blocked.(phase := Epoch(0));
    q := start.(progress := start.progress + c.epoch, phase := AtHook);
    qs := EpochRun(c, start, c.epoch, readings);
  }

  /** One poll in which reading the population's own progress failed: it counts as 0. */
  ghost predicate FailedPoll(cfg: seq<Config>, s: System, s': System, i: nat, readings: seq<nat>)
    requires ValidConfig(cfg)
  {
    && |s| == |s'| == |cfg| && i < |cfg|
    && Plausible(readings, Actual(s, cfg[i].opponents))
    && s[i].phase == Waiting
    && s' == if Within(0, readings, cfg[i].cap) then s[i := s[i].(phase := Epoch(0))] else s
  }

  /** A run in which all steps are honest but the one from state `n`, a poll of population
      `i` whose own reading failed. */
  ghost predicate RunWithOneFailure(cfg: seq<Config>, run: seq<System>, n: nat, i: nat)
    requires ValidConfig(cfg)
  {
    && n + 1 < |run| && i < |cfg|
    && Run(cfg, run[..n + 1]) && Run(cfg, run[n + 1..])
    && FailedPoll(cfg, run[n], run[n + 1], i, Actual(run[n], cfg[i].opponents))
  }

  /** One failed reading of a population's own progress is enough: in every system, from
      every start, a run with a single one exceeds the bound that holds without any. At
      that poll the honest test would have blocked. */
  lemma FailedOwnReadExceedsBound(cfg: seq<Config>, s: System, i: nat) returns (run: seq<System>, n: nat)
    requires ValidConfig(cfg) && |s| == |cfg| && Start(s)
    requires i < |cfg| && i !in cfg[i].opponents && cfg[i].epoch >= 1
    ensures RunWithOneFailure(cfg, run, n, i) && run[0] == s && !CheckPasses(cfg, run[n], i)
    ensures Drift(cfg, run[|run| - 1], i) > Bound(cfg[i], Drift(cfg, s, i))
  {
    var readings := Actual(s, cfg[i].opponents);
    var ps, blocked, qs, q := PopExceedsBound(cfg[i], s[i], readings);
    var first := Lift(cfg, s, i, ps, blocked);
    var s1 := s[i := blocked];
    var s2 := s1[i := blocked.(phase := Epoch(0))];
    assert Actual(s1, cfg[i].opponents) == readings && Actual(s2, cfg[i].opponents) == readings;
    var second := Lift(cfg, s2, i, qs, q);
    run, n := first + second, |first| - 1;
    assert run[..n + 1] == first && run[n + 1..] == second;
    assert s2[i := q] == run[|run| - 1];
  }

  // ----- Leaving the wait without passing the test -----

  /** The wait of population `i` ends with its test not passed: because the reading of its
      own progress failed, or by the timeout. */
  ghost predicate LeavesUnchecked(cfg: seq<Config>, s: System, s': System, i: nat)
    requires ValidConfig(cfg)
  {
    || (s' != s && exists readings :: FailedPoll(cfg, s, s', i, readings))
    || TimesOut(cfg, s, s', i)
  }

  ghost predicate TimesOut(cfg: seq<Config>, s: System, s': System, i: nat)
    requires ValidConfig(cfg)
  {
    |s| == |cfg| && i < |cfg| && s[i].phase == Waiting && s' == s[i := s[i].(phase := Epoch(0))]
  }

  ghost predicate RunBounded(cfg: seq<Config>, run: seq<System>, i: nat, bound: int)
    requires ValidConfig(cfg) && Run(cfg, run) && i < |cfg|
  {
    forall m :: 0 <= m < |run| ==> Drift(cfg, run[m], i) <= bound
  }

  /** Population `i` stays within the bound in every honest run from here. */
  ghost predicate StaysBounded(cfg: seq<Config>, s: System, i: nat, bound: int)
    requires ValidConfig(cfg) && |s| == |cfg| && i < |cfg|
  {
    forall later :: Run(cfg, later) && later[0] == s ==> RunBounded(cfg, later, i, bound)
  }

  /** The drift after which one more free stretch of K epochs still fits the bound. */
  function HarmlessDrift(c: Config, d0: int): int {
    Max(c.cap, d0 + (c.k - 1) * c.epoch)
  }

  lemma ExitKeepsDrifts(cfg: seq<Config>, s: System, s': System, i: nat)
    requires ValidConfig(cfg) && LeavesUnchecked(cfg, s, s', i)
    ensures TimesOut(cfg, s, s', i)
    ensures forall j: nat :: j < |cfg| ==> Drift(cfg, s', j) == Drift(cfg, s, j)
  {
    forall j: nat | j < |cfg| ensures Drift(cfg, s', j) == Drift(cfg, s, j) {
      assert Actual(s', cfg[j].opponents) == Actual(s, cfg[j].opponents);
    }
  }

  /** Up to the harmless drift the invariant of honest runs survives the exit. */
  lemma HarmlessExit(cfg: seq<Config>, s: System, s': System, i: nat, d0: seq<int>)
    requires ValidConfig(cfg) && LeavesUnchecked(cfg, s, s', i) && Inv(cfg, s, d0)
    requires Drift(cfg, s, i) <= HarmlessDrift(cfg[i], d0[i])
    ensures StaysBounded(cfg, s', i, Bound(cfg[i], d0[i]))
  {
    ExitKeepsDrifts(cfg, s, s', i);
    forall j: nat | j < |cfg| ensures PopInv(cfg, s', d0, j) {
      assert PopInv(cfg, s, d0, j);
    }
    forall later | Run(cfg, later) && later[0] == s' ensures RunBounded(cfg, later, i, Bound(cfg[i], d0[i])) {
      forall m | 0 <= m < |later| ensures Drift(cfg, later[m], i) <= Bound(cfg[i], d0[i]) {
        RunKeepsInv(cfg, later, m, d0);
        assert PopInv(cfg, later[m], d0, i);
        InvWithinBound(cfg[i], later[m][i], Drift(cfg, later[m], i), d0[i]);
      }
    }
  }

  /** After the exit a population can gain K full epochs before its next test. */
  lemma ExitGains(cfg: seq<Config>, s: System, s': System, i: nat) returns (later: seq<System>)
    requires ValidConfig(cfg) && LeavesUnchecked(cfg, s, s', i) && i !in cfg[i].opponents
    requires s[i].count == 0 && !s[i].first
    ensures Run(cfg, later) && later[0] == s'
    ensures Drift(cfg, later[|later| - 1], i) == Drift(cfg, s, i) + cfg[i].k * cfg[i].epoch
  {
    ExitKeepsDrifts(cfg, s, s', i);
    var c, readings := cfg[i], Actual(s', cfg[i].opponents);
    var p := s'[i];
    var p1 := p.(progress := p.progress + c.epoch, phase := AtHook);
    var ps := EpochRun(c, p, c.epoch, readings);
    var qs, q := FreeClimb(c, p1, (c.k - 1) * c.epoch, readings);
    ps := Join(c, ps, qs, p, p1, q, readings);
    later := Lift(cfg, s', i, ps, q);
    BoundSplits(c, 0);
  }

  lemma OneStretchFits(c: Config, drift: int, d0: int)
    requires c.k >= 1 && drift + c.k * c.epoch <= Bound(c, d0)
    ensures drift <= HarmlessDrift(c, d0)
  {
    BoundSplits(c, d0);
  }

  lemma WaitingPop(cfg: seq<Config>, s: System, s': System, i: nat, d0: seq<int>)
    requires ValidConfig(cfg) && LeavesUnchecked(cfg, s, s', i) && Inv(cfg, s, d0)
    ensures s[i].count == 0 && !s[i].first
  {
    assert PopInv(cfg, s, d0, i);
  }

  lemma BoundedExitIsHarmless(cfg: seq<Config>, s: System, s': System, i: nat, d0: int)
    requires ValidConfig(cfg) && LeavesUnchecked(cfg, s, s', i) && i !in cfg[i].opponents
    requires s[i].count == 0 && !s[i].first
    ensures StaysBounded(cfg, s', i, Bound(cfg[i], d0)) ==> Drift(cfg, s, i) <= HarmlessDrift(cfg[i], d0)
  {
    var later := ExitGains(cfg, s, s', i);
    if StaysBounded(cfg, s', i, Bound(cfg[i], d0)) {
      assert RunBounded(cfg, later, i, Bound(cfg[i], d0));
      OneStretchFits(cfg[i], Drift(cfg, s, i), d0);
    }
  }

  /** At any moment of any honest run: when a population leaves its wait unchecked, it
      stays within the drift bound in every honest run that follows if and only if its
      drift at that moment is at most max(cap, d0 + (K-1)*E). */
  lemma UncheckedExitIff(cfg: seq<Config>, run: seq<System>, n: nat, s': System, i: nat)
    requires ValidConfig(cfg) && Run(cfg, run) && Start(run[0]) && n < |run| && i < |cfg|
    requires i !in cfg[i].opponents && LeavesUnchecked(cfg, run[n], s', i)
    ensures StaysBounded(cfg, s', i, Bound(cfg[i], Drift(cfg, run[0], i)))
      <==> Drift(cfg, run[n], i) <= HarmlessDrift(cfg[i], Drift(cfg, run[0], i))
  {
    var s, d0 := run[n], Drifts(cfg, run[0]);
    StartInv(cfg, run[0]);
    RunKeepsInv(cfg, run, n, d0);
    WaitingPop(cfg, s, s', i, d0);
    if Drift(cfg, s, i) <= HarmlessDrift(cfg[i], d0[i]) {
      HarmlessExit(cfg, s, s', i, d0);
    }
    BoundedExitIsHarmless(cfg, s, s', i, d0[i]);
  }
}
