/**
 What Retry-After is worth (sdk/go/limits.go): a refused caller comes back while
 other transfers reserve and charge bytes, and may roll the window first.
 */
module RetryAfter {
  import opened ByteBudget

  /** What other callers do meanwhile, with the time they read. */
  datatype Charge = Take(n: nat, now: int) | Add(n: nat)

  function After(bytes: int, window: int, b: BudgetState, cs: seq<Charge>): BudgetState {
    if cs == [] then b
    else
      var before := After(bytes, window, b, cs[..|cs| - 1]);
      match cs[|cs| - 1]
      case Take(n, now) => Taken(bytes, window, before, n, now)
      case Add(n) => before.(used := before.used + n)
  }

  /** What the callers ask for together, let through or not. */
  function Demand(cs: seq<Charge>): nat {
    if cs == [] then 0 else Demand(cs[..|cs| - 1]) + cs[|cs| - 1].n
  }

  /** Charge `k` is a take that finds the window over. */
  predicate RollsAt(bytes: int, window: int, b: BudgetState, cs: seq<Charge>, k: nat)
    requires k < |cs|
  {
    cs[k].Take? && cs[k].now - After(bytes, window, b, cs[..k]).windowStart >= window
  }

  predicate NeverRolls(bytes: int, window: int, b: BudgetState, cs: seq<Charge>) {
    forall k: nat | k < |cs| :: !RollsAt(bytes, window, b, cs, k)
  }

  /** Charge `k` opened the window that is current at the end. */
  predicate OpensWindow(bytes: int, window: int, b: BudgetState, cs: seq<Charge>, k: nat) {
    && k < |cs| && RollsAt(bytes, window, b, cs, k)
    && forall j: nat | k < j < |cs| :: !RollsAt(bytes, window, b, cs, j)
  }

  lemma RollsAtPrefix(bytes: int, window: int, b: BudgetState, cs: seq<Charge>, k: nat)
    requires k + 1 < |cs|
    ensures RollsAt(bytes, window, b, cs[..|cs| - 1], k) <==> RollsAt(bytes, window, b, cs, k)
  {
    assert cs[..|cs| - 1][..k] == cs[..k];
  }

  lemma {:induction false} SameWindow(bytes: int, window: int, b: BudgetState, cs: seq<Charge>)
    requires bytes > 0 && NeverRolls(bytes, window, b, cs)
    ensures After(bytes, window, b, cs).windowStart == b.windowStart
    ensures After(bytes, window, b, cs).used >= b.used
    decreases |cs|
  {
    if cs != [] {
      var n := |cs| - 1;
      forall k: nat | k < n
        ensures !RollsAt(bytes, window, b, cs[..n], k)
      {
        RollsAtPrefix(bytes, window, b, cs, k);
      }
      SameWindow(bytes, window, b, cs[..n]);
      assert !RollsAt(bytes, window, b, cs, n);
    }
  }

  /** A window holds everything asked of it until it is full. */
  lemma {:induction false} WindowHoldsDemand(bytes: int, window: int, b: BudgetState, cs: seq<Charge>, k: nat)
    requires bytes > 0 && OpensWindow(bytes, window, b, cs, k)
    ensures var w := After(bytes, window, b, cs);
            && w.windowStart == cs[k].now
            && w.used <= Demand(cs[k..])
            && (w.used < bytes ==> w.used == Demand(cs[k..]))
    decreases |cs|
  {
    var n := |cs| - 1;
    assert cs[k..][..n - k] == cs[..n][k..];
    if k == n {
      assert cs[..n][n..] == [];
    } else {
      RollsAtPrefix(bytes, window, b, cs, k);
      forall j: nat | k < j < n
        ensures !RollsAt(bytes, window, b, cs[..n], j)
      {
        RollsAtPrefix(bytes, window, b, cs, j);
      }
      WindowHoldsDemand(bytes, window, b, cs[..n], k);
      assert !RollsAt(bytes, window, b, cs, n);
    }
  }

  lemma {:induction false} SomethingOpensTheWindow(bytes: int, window: int, b: BudgetState, cs: seq<Charge>, k: nat, hi: nat)
    requires k <= hi < |cs| && RollsAt(bytes, window, b, cs, k)
    requires forall j: nat | hi < j < |cs| :: !RollsAt(bytes, window, b, cs, j)
    ensures exists i :: OpensWindow(bytes, window, b, cs, i)
    decreases hi
  {
    if RollsAt(bytes, window, b, cs, hi) {
      assert OpensWindow(bytes, window, b, cs, hi);
    } else {
      SomethingOpensTheWindow(bytes, window, b, cs, k, hi - 1);
    }
  }

  /** Some take has opened a window that is not over at `later`, and what was asked of it since has exhausted it. */
  predicate Overtaken(bytes: int, window: int, b: BudgetState, cs: seq<Charge>, later: int) {
    exists k: nat | k < |cs| :: OpensWindow(bytes, window, b, cs, k) && later - cs[k].now < window && Demand(cs[k..]) >= bytes
  }

  /**
   A refused caller is told `s` seconds. Whatever others take and add meanwhile, at
   whatever times, coming back after them is accepted if and only if nobody has
   opened and exhausted a new window by then; and coming back a whole second
   earlier is refused as long as nobody has opened one.
   */
  lemma RetryAfterIsExact(bytes: int, window: int, b: BudgetState, now: int, s: int, cs: seq<Charge>, later: int)
    requires bytes > 0 && window > 0
    requires !Accepts(bytes, window, b, now) && IsAdvice(window, b, now, s)
    ensures later >= now + s * SECOND ==>
      (Accepts(bytes, window, After(bytes, window, b, cs), later) <==> !Overtaken(bytes, window, b, cs, later))
    ensures later <= now + (s - 1) * SECOND && NeverRolls(bytes, window, b, cs) ==>
      !Accepts(bytes, window, After(bytes, window, b, cs), later)
  {
    hide After, Demand;
    if NeverRolls(bytes, window, b, cs) {
      SameWindow(bytes, window, b, cs);
    } else {
      var k: nat :| k < |cs| && RollsAt(bytes, window, b, cs, k);
      SomethingOpensTheWindow(bytes, window, b, cs, k, |cs| - 1);
      var i: nat :| OpensWindow(bytes, window, b, cs, i);
      WindowHoldsDemand(bytes, window, b, cs, i);
      forall j: nat | OpensWindow(bytes, window, b, cs, j)
        ensures j == i
      {
      }
    }
  }

  /** One competing take is enough: it opens the new window and fills it before the caller is back. */
  lemma OneTakeRefusesAgain(bytes: int, window: int, b: BudgetState, n: nat, taken: int, later: int)
    requires 0 < bytes <= n && window > 0
    requires taken - b.windowStart >= window && later - taken < window
    ensures !Accepts(bytes, window, After(bytes, window, b, [Take(n, taken)]), later)
  {
    assert [Take(n, taken)][..0] == [];
  }
}
