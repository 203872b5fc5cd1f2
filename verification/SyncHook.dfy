/** ProgressBasedSyncHook: one hook object, its K:1 skipping, its free first
    synchronisation and its polling loop (gigaevo/adversarial/sync.py). */
module SyncHook {
  import opened Prelude

  /** The smallest reading; 0 for no readings. */
  function MinReading(readings: seq<nat>): (m: nat)
    ensures readings != [] ==> m in readings
    ensures forall r :: r in readings ==> m <= r
  {
    if readings == [] then 0
    else if |readings| == 1 then readings[0]
    else
      var m := MinReading(readings[1..]);
      assert readings == [readings[0]] + readings[1..];
      if readings[0] < m then readings[0] else m
  }

  /** The drift test: at most `cap` ahead of the slowest opponent, as read. */
  predicate Within(own: nat, readings: seq<nat>, cap: nat) {
    own - MinReading(readings) <= cap
  }

  /** What one call does before any waiting: return, synchronise for free, or test. */
  datatype Decision = Skip | Free | Test

  /** The new call counter and first-call flag, and the decision. */
  function Decide(count: nat, first: bool, k: nat): (nat, bool, Decision) {
    if count + 1 < k then (count + 1, first, Skip)
    else if first then (0, false, Free)
    else (0, false, Test)
  }

  datatype Outcome =
    | Skipped                 // not a synchronisation epoch
    | Baseline                // first synchronisation: never blocks
    | Passed(polls: nat)      // poll number `polls` was within the cap
    | TimedOut(polls: nat)    // gave up after poll number `polls`

  class Hook {
    const k: nat
    const cap: nat
    const timeout: real
    const pollInterval: real
    var epochCallCount: nat
    var firstCall: bool

    ghost predicate Valid()
      reads this
    {
      1 <= k && epochCallCount < k && 0.0 < pollInterval
    }

    constructor (syncEvery: int, cap: nat, timeout: real, pollInterval: real)
      requires 0.0 < pollInterval
      ensures Valid() && k == Max(1, syncEvery) && this.cap == cap && epochCallCount == 0 && firstCall
      ensures this.timeout == timeout && this.pollInterval == pollInterval
    {
      k := Max(1, syncEvery);
      this.cap := cap;
      this.timeout := timeout;
      this.pollInterval := pollInterval;
      epochCallCount, firstCall := 0, true;
    }

    /** The clock at the `n`-th poll: it is started before the first readings, and the
        hook sleeps between polls. */
    ghost predicate Sleeps(start: real, clock: nat -> real) {
      start <= clock(0) && forall n: nat :: clock(n + 1) >= clock(n) + pollInterval
    }

    /** The polling loop: stops at the first poll within the cap or, failing that, at the
        first poll after the timeout, so the number of polls is bounded. */
    method Wait(own: nat -> nat, opponents: nat -> seq<nat>, start: real, clock: nat -> real) returns (outcome: Outcome)
      requires Valid() && Sleeps(start, clock)
      ensures outcome.Passed? || outcome.TimedOut?
      ensures outcome.Passed? <==> Within(own(outcome.polls), opponents(outcome.polls), cap)
      ensures outcome.TimedOut? ==> clock(outcome.polls) - start > timeout
      ensures forall n: nat :: n < outcome.polls ==> !Within(own(n), opponents(n), cap) && clock(n) - start <= timeout
      ensures outcome.polls == 0 || (outcome.polls - 1) as real * pollInterval <= timeout
    {
      var n: nat := 0;
      ghost var bound := if timeout < 0.0 then 0 else (timeout / pollInterval).Floor + 1;
      while true
        invariant forall j: nat :: j < n ==> !Within(own(j), opponents(j), cap) && clock(j) - start <= timeout
        invariant n as real * pollInterval <= clock(n) - start
        invariant n == 0 || (n - 1) as real * pollInterval <= timeout
        invariant n <= bound
        decreases bound - n
      {
        if Within(own(n), opponents(n), cap) { return Passed(n); }
        if clock(n) - start > timeout { return TimedOut(n); }
        assert n as real * pollInterval <= timeout by {
          assert clock(n) - start <= timeout;
        }
        PollsFit(n, pollInterval, timeout);
        NextPoll(n, pollInterval, clock(n) - start, clock(n + 1) - start);
        n := n + 1;
      }
    }

    /** One hook call: every K-th call synchronises, the first of those is free, and only
        the others wait. */
    method Call(own: nat -> nat, opponents: nat -> seq<nat>, start: real, clock: nat -> real) returns (outcome: Outcome)
      requires Valid() && Sleeps(start, clock)
      modifies this
      ensures Valid()
      ensures var (count, first, decision) := Decide(old(epochCallCount), old(firstCall), k);
        && epochCallCount == count && firstCall == first
        && (outcome.Skipped? <==> decision == Skip) && (outcome.Baseline? <==> decision == Free)
      ensures outcome.Skipped? <==> old(epochCallCount) + 1 < k
      ensures outcome.Baseline? <==> old(epochCallCount) + 1 >= k && old(firstCall)
      ensures epochCallCount == if outcome.Skipped? then old(epochCallCount) + 1 else 0
      ensures firstCall <==> old(firstCall) && outcome.Skipped?
      ensures outcome.Passed? ==> Within(own(outcome.polls), opponents(outcome.polls), cap)
      ensures outcome.TimedOut? ==> clock(outcome.polls) - start > timeout
      ensures outcome.Passed? || outcome.TimedOut? ==>
        forall n: nat :: n < outcome.polls ==> !Within(own(n), opponents(n), cap) && clock(n) - start <= timeout
    {
      epochCallCount := epochCallCount + 1;
      if epochCallCount < k { return Skipped; }
      epochCallCount := 0;
      if firstCall {
        firstCall := false;
        return Baseline;
      }
      outcome := Wait(own, opponents, start, clock);
    }
  }

  /** The call counter after one more call. */
  function Bump(count: nat, k: nat): nat {
    if count + 1 < k then count + 1 else 0
  }

  lemma PollsFit(n: nat, pollInterval: real, timeout: real)
    requires 0.0 < pollInterval && n as real * pollInterval <= timeout
    ensures 0.0 <= timeout && n <= (timeout / pollInterval).Floor
  {
    assert 0.0 <= n as real * pollInterval;
    var q := timeout / pollInterval;
    assert q * pollInterval == timeout;
    DivideOut(n as real, q, pollInterval);
  }

  lemma NextPoll(n: nat, pollInterval: real, elapsed: real, next: real)
    requires n as real * pollInterval <= elapsed && next >= elapsed + pollInterval
    ensures (n + 1) as real * pollInterval <= next
  {
    assert (n + 1) as real * pollInterval == n as real * pollInterval + pollInterval;
  }

  lemma DivideOut(a: real, b: real, c: real)
    requires 0.0 < c && a * c <= b * c
    ensures a <= b
  {
    assert a > b ==> (a - b) * c > 0.0;
  }

  /** The call counter and the number of synchronisations after `n` calls. */
  function Counter(n: nat, k: nat): nat {
    if n == 0 then 0 else Bump(Counter(n - 1, k), k)
  }

  function Syncs(n: nat, k: nat): nat {
    if n == 0 then 0 else Syncs(n - 1, k) + if Counter(n - 1, k) + 1 < k then 0 else 1
  }

  /** Of `n` calls exactly floor(n / K) synchronise; all but the first of those test the
      drift, so fewer than 2K calls test nothing. The engine calls the hook once per run. */
  lemma SyncCount(n: nat, k: nat)
    requires 1 <= k
    ensures Syncs(n, k) == n / k && Counter(n, k) == n % k
    ensures Syncs(n, k) <= 1 <==> n < 2 * k
  {
    CallsSplit(n, k);
    QuotientIs(n, k, Syncs(n, k), Counter(n, k));
    if Syncs(n, k) <= 1 {
      MulMono(k, Syncs(n, k), 1);
    } else {
      MulMono(k, 2, Syncs(n, k));
    }
  }

  lemma {:induction false} CallsSplit(n: nat, k: nat)
    requires 1 <= k
    ensures n == k * Syncs(n, k) + Counter(n, k) && Counter(n, k) < k
  {
    if n > 0 {
      CallsSplit(n - 1, k);
      assert k * (Syncs(n - 1, k) + 1) == k * Syncs(n - 1, k) + k;
    }
  }

  lemma QuotientIs(n: nat, k: nat, q: nat, r: nat)
    requires 1 <= k && n == k * q + r && r < k
    ensures n / k == q && n % k == r
  {
    var q', r' := n / k, n % k;
    assert n == k * q' + r';
    if q < q' {
      MulMono(k, q + 1, q');
    } else if q' < q {
      MulMono(k, q' + 1, q);
    }
  }

  lemma MulMono(k: nat, a: nat, b: nat)
    requires a <= b
    ensures k * a <= k * b && k * (a + 1) == k * a + k
  {
  }
}
