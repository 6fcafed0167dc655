/**
 The configuration of the Go SDK handler (New in sdk/go/laghound.go): defaults,
 caps, and the narrowing of limits to the widths the handler keeps them in.
 */
module SdkConfig {
  import opened Counting
  import opened Options
  import opened Admission
  import TokenBucket

  type int64 = x: int | -0x8000_0000_0000_0000 <= x < 0x8000_0000_0000_0000

  /** The limits as the caller writes them; zero or less asks for a default where there is one. */
  datatype Raw = Raw(downloadCap: int64, uploadCap: int64, maxConcurrent: int64, maxTransfers: int64,
                     budgetBytes: int64, windowS: int64, rps: real, burst: int64)

  /** Two's-complement truncation to `2 * half` values. */
  function Wrapped(x: int, half: int): int
    requires half > 0
  {
    var m := x % (2 * half);
    if m >= half then m - 2 * half else m
  }

  const HALF32 := 0x8000_0000
  const HALF64 := 0x8000_0000_0000_0000
  const NANOS := 1_000_000_000

  /** The limit survives the conversion to 32 bits as a positive number. */
  predicate Survives(limit: int) {
    limit <= 0 || 1 <= limit % 0x1_0000_0000 < 0x8000_0000
  }

  method CapOf(asked: int64) returns (cap: int)
    requires asked >= 0
    ensures 1 <= cap <= 33_554_432
    ensures 0 < asked <= 33_554_432 ==> cap == asked
    ensures asked == 0 ==> cap == 4_194_304
    ensures asked > 33_554_432 ==> cap == 33_554_432
  {
    cap := asked;
    if cap == 0 {
      cap := 4 * 1024 * 1024;
    }
    if cap > 32 * 1024 * 1024 {
      cap := 32 * 1024 * 1024;
    }
  }

  /**
   Refused exactly for a negative cap or a budget that is not positive. What is
   accepted is usable exactly if both limits survive the conversion to 32 bits and
   the window the conversion to nanoseconds; the rate always is.
   */
  method Configure(raw: Raw) returns (c: Option<Config>, rate: TokenBucket.Rate)
    ensures c.Some? <==> raw.downloadCap >= 0 && raw.uploadCap >= 0 && raw.budgetBytes > 0 && raw.windowS > 0
    ensures c.Some? ==>
              (Usable(c.value) <==>
                && Survives(raw.maxConcurrent) && Survives(raw.maxTransfers)
                && 1 <= raw.windowS * 1_000_000_000 % 0x1_0000_0000_0000_0000 < 0x8000_0000_0000_0000)
    ensures c.Some? && 0 < raw.maxConcurrent < 0x8000_0000 ==> c.value.maxConcurrent == raw.maxConcurrent
    ensures c.Some? && 0 < raw.maxTransfers < 0x8000_0000 ==> c.value.maxTransfers == raw.maxTransfers
    ensures c.Some? && raw.maxConcurrent <= 0 ==> c.value.maxConcurrent == 8
    ensures c.Some? && raw.maxTransfers <= 0 ==> c.value.maxTransfers == 2
    ensures c.Some? && raw.windowS <= 9_223_372_036 ==> c.value.window == raw.windowS * 1_000_000_000
    ensures c.Some? ==> c.value.bytes == raw.budgetBytes
    ensures TokenBucket.Usable(rate)
    ensures raw.rps > 0.0 ==> rate.rps == raw.rps
    ensures raw.burst > 0 ==> rate.burst == raw.burst
  {
    rate := TokenBucket.Rate(if raw.rps <= 0.0 then 10.0 else raw.rps, if raw.burst <= 0 then 20 else raw.burst);
    if raw.downloadCap < 0 || raw.uploadCap < 0 {
      return None, rate;
    }
    var downloadCap := CapOf(raw.downloadCap);
    var uploadCap := CapOf(raw.uploadCap);
    var maxConcurrent: int := raw.maxConcurrent;
    if maxConcurrent <= 0 {
      maxConcurrent := 8;
    }
    var maxTransfers: int := raw.maxTransfers;
    if maxTransfers <= 0 {
      maxTransfers := 2;
    }
    if raw.budgetBytes <= 0 || raw.windowS <= 0 {
      return None, rate;
    }
    c := Some(Config(Wrapped(maxConcurrent, HALF32), Wrapped(maxTransfers, HALF32), downloadCap, uploadCap,
                     raw.budgetBytes, Wrapped(raw.windowS * NANOS, HALF64)));
  }

  // ---------- A limit that does not survive ----------

  /** Every active request has been refused by the first gate. */
  predicate AllRefused(s: State) {
    s.inflight == |s.active| && forall id :: id in s.active ==> s.active[id] == OverGate
  }

  lemma RefusedStep(c: Config, s: State, step: Step)
    requires c.maxConcurrent <= 0 && AllRefused(s) && Enabled(c, s, step)
    ensures AllRefused(Apply(c, s, step))
  {
    InflightStep(c, s, step);
  }

  lemma {:induction false} RunRefusesAll(c: Config, now: int, steps: seq<Step>)
    requires c.maxConcurrent <= 0 && Legal(c, Start(now), steps)
    ensures AllRefused(Play(c, Start(now), steps))
    decreases |steps|
  {
    if steps != [] {
      hide AllRefused, Enabled, Apply;
      var n := |steps| - 1;
      RunRefusesAll(c, now, steps[..n]);
      RefusedStep(c, Play(c, Start(now), steps[..n]), steps[n]);
    }
  }

  /** A limit that becomes zero or negative in 32 bits refuses every request there will ever be. */
  lemma NobodyIsLetIn(c: Config, s: State, id: Id)
    requires c.maxConcurrent <= 0 && Reachable(c, s)
    ensures id in s.active ==> s.active[id] == OverGate
  {
    var now, steps :| Legal(c, Start(now), steps) && Play(c, Start(now), steps) == s;
    RunRefusesAll(c, now, steps);
  }

  /** Such limits: exactly the positive ones whose lower 32 bits are no positive 32-bit number, 2^31 being the least. */
  lemma LimitsThatDoNotSurvive(limit: int)
    ensures Survives(limit) <==> limit <= 0 || Wrapped(limit, HALF32) >= 1
    ensures limit < 0x8000_0000 ==> Survives(limit)
    ensures !Survives(0x8000_0000)
  {
  }
}
