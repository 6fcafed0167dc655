/**
 The wall-clock budget of one tester invocation (ComputeInvocationDeadline in
 src/Networker.Agent/RunExecutor.cs), with its 32-bit and TimeSpan edges.
 */
module InvocationDeadline {
  import opened Options

  const WORD := 0x1_0000_0000
  const SLACK_SECS := 60
  const MAX_SECS := 24 * 60 * 60
  const MAX_TIMESPAN_SECS := 922337203685

  type uint = n: nat | n < WORD

  datatype Workload = Workload(maxDurationSecs: uint, timeoutMs: uint, runs: uint, modes: nat, samples: uint)

  function AtLeastOne(n: nat): (m: nat)
    ensures m >= 1 && m >= n
  {
    if n < 1 then 1 else n
  }

  /** Rounded up to whole seconds in 32-bit arithmetic. */
  function TimeoutSecs(ms: uint): nat {
    AtLeastOne((ms + 999) % WORD / 1000)
  }

  /** Requests of a fully serial run. */
  function Requests(w: Workload): nat {
    AtLeastOne(w.runs) * AtLeastOne(w.modes) * AtLeastOne(w.samples)
  }

  function TotalSecs(w: Workload): nat {
    if w.maxDurationSecs > 0 then w.maxDurationSecs + SLACK_SECS
    else TimeoutSecs(w.timeoutMs) * Requests(w) + SLACK_SECS
  }

  /** Seconds; None when the time span cannot be represented and its construction throws. */
  function Deadline(w: Workload): Option<nat> {
    var total := TotalSecs(w);
    if total > MAX_TIMESPAN_SECS then None
    else Some(if total <= MAX_SECS then total else MAX_SECS)
  }

  lemma RequestsArePositive(w: Workload)
    ensures Requests(w) >= 1
  {
    AtLeast(AtLeastOne(w.runs), AtLeastOne(w.modes));
    AtLeast(AtLeastOne(w.runs) * AtLeastOne(w.modes), AtLeastOne(w.samples));
  }

  lemma AtLeast(a: nat, b: nat)
    requires a >= 1 && b >= 1
    ensures a * b >= a && a * b >= b
  {
  }

  lemma Ordered(a: nat, b: nat, k: nat)
    requires k >= 1
    ensures a <= b <==> a * k <= b * k
  {
  }

  /** Never less than a minute and a second, never more than a day. */
  lemma DeadlineIsBounded(w: Workload)
    requires Deadline(w).Some?
    ensures 60 < Deadline(w).value <= 86_400
  {
    RequestsArePositive(w);
    AtLeast(TimeoutSecs(w.timeoutMs), Requests(w));
  }

  lemma TimeoutRoundsUpIff(ms: uint)
    ensures 1000 * TimeoutSecs(ms) >= ms <==> ms + 999 < WORD
  {
  }

  /**
   Without an explicit duration the budget leaves room for every request timing
   out, unless it was capped at a day: exactly if rounding the timeout up does
   not wrap around in 32 bits.
   */
  lemma DeadlineCoversWorkloadIff(w: Workload)
    requires w.maxDurationSecs == 0 && Deadline(w).Some? && Deadline(w).value < MAX_SECS
    ensures 1000 * (Deadline(w).value - SLACK_SECS) >= w.timeoutMs * Requests(w) <==> w.timeoutMs + 999 < 0x1_0000_0000
  {
    hide TimeoutSecs, Requests;
    RequestsArePositive(w);
    TimeoutRoundsUpIff(w.timeoutMs);
    var t, n := TimeoutSecs(w.timeoutMs), Requests(w);
    Ordered(w.timeoutMs, 1000 * t, n);
    assert 1000 * t * n == 1000 * (t * n);
  }

  /** An explicit duration is kept, with a minute on top, up to a day in all. */
  lemma ExplicitDurationIsKept(w: Workload)
    requires w.maxDurationSecs > 0
    ensures Deadline(w) == Some(if w.maxDurationSecs + 60 <= 86_400 then w.maxDurationSecs + 60 else 86_400)
  {
  }

  lemma NoWaste(t: nat, ms: nat, n: nat)
    requires n >= 1 && 1000 * t < ms + 1000
    ensures 1000 * (t * n) < (ms + 1000) * n
  {
    Ordered(1000 * t + 1, ms + 1000, n);
    assert (1000 * t + 1) * n == 1000 * (t * n) + n;
  }

  /**
   Without one, the budget is a minute on top of less than one second per request
   beyond the timeouts themselves, every count taken as at least one.
   */
  lemma DeadlineIsTight(w: Workload)
    requires w.maxDurationSecs == 0 && Deadline(w).Some? && w.timeoutMs > 0
    ensures 1000 * (Deadline(w).value - 60) < (w.timeoutMs + 1000) * Requests(w)
    ensures w.runs >= 1 && w.modes >= 1 && w.samples >= 1 ==> Requests(w) == w.runs * w.modes * w.samples
    ensures w.runs == 0 ==> Requests(w) == Requests(w.(runs := 1))
    ensures w.modes == 0 ==> Requests(w) == Requests(w.(modes := 1))
    ensures w.samples == 0 ==> Requests(w) == Requests(w.(samples := 1))
  {
    RequestsArePositive(w);
    assert 1000 * TimeoutSecs(w.timeoutMs) < w.timeoutMs + 1000;
    var t, n := TimeoutSecs(w.timeoutMs), Requests(w);
    hide TimeoutSecs;
    NoWaste(t, w.timeoutMs, n);
  }

  /** An explicit duration always fits; a large enough product of timeout and requests does not. */
  lemma DeadlineThrowsIff(w: Workload)
    ensures Deadline(w).None? <==> w.maxDurationSecs == 0 && TimeoutSecs(w.timeoutMs) * Requests(w) > 922_337_203_685 - 60
  {
  }

  /** Such a workload: an hour, a million runs, ten modes, thirty samples. */
  lemma SomeWorkloadThrows()
    ensures Deadline(Workload(0, 3_600_000, 1_000_000, 10, 30)) == None
  {
    assert TimeoutSecs(3_600_000) == 3600;
  }
}
