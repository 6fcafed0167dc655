/**
 The token bucket of the Go SDK (sdk/go/limits.go).

 Time and token counts are reals. Callers read the clock before they take the
 lock, so the timestamps a bucket sees may run backwards; nothing here assumes
 that they are ordered.
 */
module TokenBucket {

  datatype Rate = Rate(rps: real, burst: nat)

  /** What `New` guarantees of every rate after it has applied its defaults. */
  predicate Usable(r: Rate) {
    r.rps > 0.0 && r.burst >= 1
  }

  datatype BucketState = BucketState(tokens: real, last: real)

  predicate WithinBurst(r: Rate, b: BucketState) {
    0.0 <= b.tokens <= r.burst as real
  }

  function Min(x: real, y: real): real {
    if x <= y then x else y
  }

  function Max(x: real, y: real): real {
    if x <= y then y else x
  }

  function Full(r: Rate, now: real): BucketState {
    BucketState(r.burst as real, now)
  }

  /** What the rate earns over a stretch of time. */
  function Earned(r: Rate, elapsed: real): real {
    elapsed * r.rps
  }

  lemma EarnedIsLinear(r: Rate, x: real, y: real)
    requires Usable(r)
    ensures Earned(r, x + y) == Earned(r, x) + Earned(r, y)
    ensures x >= 0.0 ==> Earned(r, x) >= 0.0
    ensures y >= 0.0 ==> Earned(r, y) >= 0.0
  {
    ProductOfNonNegatives(x, r.rps);
    ProductOfNonNegatives(y, r.rps);
  }

  lemma ProductOfNonNegatives(x: real, y: real)
    ensures x >= 0.0 && y >= 0.0 ==> x * y >= 0.0
  {
  }

  function Refill(r: Rate, b: BucketState, now: real): BucketState {
    if now > b.last then
      BucketState(Min(b.tokens + Earned(r, now - b.last), r.burst as real), now)
    else b
  }

  function Granted(r: Rate, b: BucketState, now: real): bool {
    Refill(r, b, now).tokens >= 1.0
  }

  function Next(r: Rate, b: BucketState, now: real): BucketState {
    var f := Refill(r, b, now);
    if f.tokens >= 1.0 then f.(tokens := f.tokens - 1.0) else f
  }

  /** The bucket as the program keeps it: two fields updated in place. */
  class Bucket {
    var tokens: real
    var last: real

    ghost function State(): BucketState
      reads this
    {
      BucketState(tokens, last)
    }

    constructor (r: Rate, now: real)
      ensures State() == Full(r, now)
    {
      tokens := r.burst as real;
      last := now;
    }

    method Allow(r: Rate, now: real) returns (ok: bool)
      modifies this
      ensures ok == Granted(r, old(State()), now)
      ensures State() == Next(r, old(State()), now)
    {
      var elapsed := now - last;
      if elapsed > 0.0 {
        tokens := tokens + elapsed * r.rps;
        if tokens > r.burst as real {
          tokens := r.burst as real;
        }
        last := now;
      }
      if tokens >= 1.0 {
        tokens := tokens - 1.0;
        return true;
      }
      return false;
    }
  }

  // ---------- Whole runs ----------

  /** The bucket after a run of requests with the given timestamps. */
  function After(r: Rate, b: BucketState, times: seq<real>): BucketState {
    if times == [] then b
    else Next(r, After(r, b, times[..|times| - 1]), times[|times| - 1])
  }

  /** Whether request `i` of the run is granted. */
  predicate GrantedAt(r: Rate, b: BucketState, times: seq<real>, i: nat)
    requires i < |times|
  {
    Granted(r, After(r, b, times[..i]), times[i])
  }

  /** How many of the requests `lo..hi` are granted. */
  function Grants(r: Rate, b: BucketState, times: seq<real>, lo: nat, hi: nat): nat
    requires lo <= hi <= |times|
    decreases hi
  {
    if lo == hi then 0
    else Grants(r, b, times, lo, hi - 1) + if GrantedAt(r, b, times, hi - 1) then 1 else 0
  }

  /** The latest timestamp seen up to request `i`: the clock as the bucket knows it. */
  function Clock(start: real, times: seq<real>, i: nat): real
    requires i < |times|
  {
    if i == 0 then Max(start, times[0]) else Max(Clock(start, times, i - 1), times[i])
  }

  lemma AfterStep(r: Rate, b: BucketState, times: seq<real>, i: nat)
    requires i < |times|
    ensures After(r, b, times[..i + 1]) == Next(r, After(r, b, times[..i]), times[i])
  {
    assert times[..i + 1][..i] == times[..i];
  }

  lemma {:induction false} LastIsClock(r: Rate, b: BucketState, times: seq<real>, i: nat)
    requires i < |times|
    ensures After(r, b, times[..i + 1]).last == Clock(b.last, times, i)
  {
    AfterStep(r, b, times, i);
    if i > 0 {
      LastIsClock(r, b, times, i - 1);
    } else {
      assert times[..0] == [];
    }
  }

  /** Tokens stay between zero and the burst, whatever the timestamps. */
  lemma {:induction false} TokensStayWithinBurst(r: Rate, b: BucketState, times: seq<real>)
    requires Usable(r) && WithinBurst(r, b)
    ensures WithinBurst(r, After(r, b, times))
    decreases |times|
  {
    if times != [] {
      TokensStayWithinBurst(r, b, times[..|times| - 1]);
      RefillWithinBurst(r, After(r, b, times[..|times| - 1]), times[|times| - 1]);
    }
  }

  lemma RefillWithinBurst(r: Rate, b: BucketState, now: real)
    requires Usable(r) && WithinBurst(r, b)
    ensures WithinBurst(r, Refill(r, b, now))
  {
    hide Earned;
    EarnedIsLinear(r, now - b.last, 0.0);
  }

  /**
   Between any two points of a run the grants are paid for by the tokens held
   at the first point and the refill up to the second, even when timestamps
   arrive out of order.
   */
  lemma {:induction false} GrantsArePaidFor(r: Rate, b: BucketState, times: seq<real>, lo: nat, hi: nat)
    requires Usable(r) && WithinBurst(r, b)
    requires lo <= hi <= |times|
    ensures var p, q := After(r, b, times[..lo]), After(r, b, times[..hi]);
            && p.last <= q.last
            && q.tokens + Grants(r, b, times, lo, hi) as real <= p.tokens + Earned(r, q.last - p.last)
            && Grants(r, b, times, lo, hi) as real <= r.burst as real + Earned(r, q.last - p.last)
    decreases hi
  {
    hide Earned;
    TokensStayWithinBurst(r, b, times[..lo]);
    TokensStayWithinBurst(r, b, times[..hi]);
    var p, q := After(r, b, times[..lo]), After(r, b, times[..hi]);
    EarnedIsLinear(r, 0.0, 0.0);
    if lo < hi {
      GrantsArePaidFor(r, b, times, lo, hi - 1);
      AfterStep(r, b, times, hi - 1);
      var m := After(r, b, times[..hi - 1]);
      EarnedIsLinear(r, q.last - m.last, m.last - p.last);
      assert (q.last - m.last) + (m.last - p.last) == q.last - p.last;
    }
  }

  /** What the rate (burst, rps) leaves to request `i` once the grants since `j` are counted. */
  function Slack(r: Rate, b: BucketState, times: seq<real>, j: nat, i: nat): real
    requires j <= i < |times|
  {
    r.burst as real + Earned(r, Clock(b.last, times, i) - Clock(b.last, times, j))
      - Grants(r, b, times, j, i) as real
  }

  /** `x` is the least slack over all windows ending at `i`. */
  ghost predicate IsLeastSlack(r: Rate, b: BucketState, times: seq<real>, i: nat, x: real)
    requires i < |times|
  {
    && (forall j: nat | j <= i :: x <= Slack(r, b, times, j, i))
    && (exists j: nat :: j <= i && x == Slack(r, b, times, j, i))
  }

  lemma SlackStep(r: Rate, b: BucketState, times: seq<real>, j: nat, i: nat)
    requires Usable(r) && j < i < |times|
    ensures Slack(r, b, times, j, i)
            == Slack(r, b, times, j, i - 1)
               + Earned(r, Clock(b.last, times, i) - Clock(b.last, times, i - 1))
               - if GrantedAt(r, b, times, i - 1) then 1.0 else 0.0
  {
    hide Earned;
    var c, d, e := Clock(b.last, times, i - 1), Clock(b.last, times, i), Clock(b.last, times, j);
    EarnedIsLinear(r, d - c, c - e);
    assert (d - c) + (c - e) == d - e;
  }

  /** What request `i` finds in the bucket. */
  function Found(r: Rate, b: BucketState, times: seq<real>, i: nat): real
    requires i < |times|
  {
    Refill(r, After(r, b, times[..i]), times[i]).tokens
  }

  function Gain(r: Rate, b: BucketState, times: seq<real>, i: nat): real
    requires 0 < i < |times|
  {
    Earned(r, Clock(b.last, times, i) - Clock(b.last, times, i - 1)) - if GrantedAt(r, b, times, i - 1) then 1.0 else 0.0
  }

  lemma FoundStep(r: Rate, b: BucketState, times: seq<real>, i: nat)
    requires Usable(r) && b.tokens == r.burst as real && 0 < i < |times|
    ensures Found(r, b, times, i) == Min(Found(r, b, times, i - 1) + Gain(r, b, times, i), r.burst as real)
  {
    hide Earned;
    LastIsClock(r, b, times, i - 1);
    AfterStep(r, b, times, i - 1);
    EarnedIsLinear(r, Clock(b.last, times, i) - Clock(b.last, times, i - 1), 0.0);
    TokensStayWithinBurst(r, b, times[..i]);
  }

  lemma FoundFirst(r: Rate, b: BucketState, times: seq<real>, i: nat)
    requires Usable(r) && b.tokens == r.burst as real && i < |times|
    ensures i == 0 ==> Found(r, b, times, i) == r.burst as real
    ensures Slack(r, b, times, i, i) == r.burst as real
  {
    EarnedIsLinear(r, 0.0, times[i] - b.last);
    hide Earned;
    assert i == 0 ==> times[..i] == [];
  }

  /** The refilled bucket holds exactly the least slack. */
  lemma {:induction false} TokensAreLeastSlack(r: Rate, b: BucketState, times: seq<real>, i: nat)
    requires Usable(r) && b.tokens == r.burst as real
    requires i < |times|
    ensures IsLeastSlack(r, b, times, i, Refill(r, After(r, b, times[..i]), times[i]).tokens)
  {
    hide Slack, Gain, Refill, After, Usable;
    FoundFirst(r, b, times, i);
    if i > 0 {
      TokensAreLeastSlack(r, b, times, i - 1);
      FoundStep(r, b, times, i);
      forall j: nat | j < i
        ensures Slack(r, b, times, j, i) == Slack(r, b, times, j, i - 1) + Gain(r, b, times, i)
      {
        SlackGain(r, b, times, j, i);
      }
      if Found(r, b, times, i) != r.burst as real {
        var j: nat :| j <= i - 1 && Found(r, b, times, i - 1) == Slack(r, b, times, j, i - 1);
        assert Found(r, b, times, i) == Slack(r, b, times, j, i);
      }
    }
  }

  lemma SlackGain(r: Rate, b: BucketState, times: seq<real>, j: nat, i: nat)
    requires Usable(r) && j < i < |times|
    ensures Slack(r, b, times, j, i) == Slack(r, b, times, j, i - 1) + Gain(r, b, times, i)
  {
    SlackStep(r, b, times, j, i);
    hide Slack, Earned;
  }

  /** Granting request `i` keeps the window from request `j` within burst + rps * length. */
  ghost predicate WindowAllows(r: Rate, b: BucketState, times: seq<real>, j: nat, i: nat)
    requires j <= i < |times|
  {
    Grants(r, b, times, j, i) as real + 1.0
      <= r.burst as real + r.rps * (Clock(b.last, times, i) - Clock(b.last, times, j))
  }

  /**
   The exact law of the limiter: from a full bucket, request `i` is granted if
   and only if every window that ends at `i` allows it. Time is the running
   maximum of the timestamps.
   */
  lemma GrantedIffEveryWindowAllows(r: Rate, b: BucketState, times: seq<real>, i: nat)
    requires Usable(r) && b.tokens == r.burst as real
    requires i < |times|
    ensures GrantedAt(r, b, times, i) <==> forall j: nat | j <= i :: WindowAllows(r, b, times, j, i)
  {
    hide Earned;
    TokensAreLeastSlack(r, b, times, i);
    forall j: nat | j <= i
      ensures WindowAllows(r, b, times, j, i) <==> Slack(r, b, times, j, i) >= 1.0
    {
      WindowIsSlack(r, b, times, j, i);
    }
  }

  lemma WindowIsSlack(r: Rate, b: BucketState, times: seq<real>, j: nat, i: nat)
    requires j <= i < |times|
    ensures WindowAllows(r, b, times, j, i) <==> Slack(r, b, times, j, i) >= 1.0
  {
  }

  /** Requests in order and at least 1/rps apart. */
  ghost predicate Spaced(r: Rate, times: seq<real>)
    requires r.rps > 0.0
  {
    forall i | 0 < i < |times| :: times[i] - times[i - 1] >= 1.0 / r.rps
  }

  lemma OneIntervalRefillsAToken(r: Rate, b: BucketState, now: real)
    requires Usable(r) && WithinBurst(r, b)
    requires b.tokens >= 1.0 || now - b.last >= 1.0 / r.rps
    ensures Granted(r, b, now)
  {
    EarnsOne(r, now - b.last);
    EarnedIsLinear(r, now - b.last, 0.0);
    hide Earned;
    assert now > b.last || b.tokens >= 1.0;
  }

  lemma EarnsOne(r: Rate, d: real)
    requires Usable(r)
    ensures d >= 1.0 / r.rps ==> d > 0.0 && Earned(r, d) >= 1.0
  {
    if d >= 1.0 / r.rps {
      EarnedIsLinear(r, d - 1.0 / r.rps, 1.0 / r.rps);
      assert (d - 1.0 / r.rps) + 1.0 / r.rps == d;
      assert Earned(r, 1.0 / r.rps) == 1.0;
      assert 1.0 / r.rps > 0.0;
    }
  }

  /** A client that keeps the sustained rate is never denied. */
  lemma {:induction false} SpacedClientNeverDenied(r: Rate, b: BucketState, times: seq<real>, i: nat)
    requires Usable(r) && WithinBurst(r, b) && b.tokens >= 1.0
    requires Spaced(r, times)
    requires i < |times|
    requires b.last <= times[0]
    ensures GrantedAt(r, b, times, i)
    ensures After(r, b, times[..i + 1]).last == times[i]
  {
    hide Earned;
    AfterStep(r, b, times, i);
    TokensStayWithinBurst(r, b, times[..i]);
    EarnsOne(r, 1.0 / r.rps);
    if i == 0 {
      assert times[..0] == [];
    } else {
      SpacedClientNeverDenied(r, b, times, i - 1);
    }
    OneIntervalRefillsAToken(r, After(r, b, times[..i]), times[i]);
  }
}
