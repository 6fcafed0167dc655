/**
 The windowed byte budget of the Go SDK (sdk/go/limits.go). Times are integer
 nanoseconds; as with the token bucket they may run backwards between callers.
 */
module ByteBudget {

  const SECOND: int := 1_000_000_000

  datatype BudgetState = BudgetState(windowStart: int, used: int)

  /** The window rolls when a caller finds it over. */
  function Rolled(window: int, b: BudgetState, now: int): BudgetState {
    if now - b.windowStart >= window then BudgetState(now, 0) else b
  }

  predicate Accepts(bytes: int, window: int, b: BudgetState, now: int) {
    Rolled(window, b, now).used < bytes
  }

  function Taken(bytes: int, window: int, b: BudgetState, n: int, now: int): BudgetState {
    var w := Rolled(window, b, now);
    if w.used < bytes then w.(used := w.used + n) else w
  }

  /** `s` is the least positive number of seconds after which the window is over. */
  ghost predicate IsAdvice(window: int, b: BudgetState, now: int, s: int) {
    && s >= 1
    && now + s * 1_000_000_000 - b.windowStart >= window
    && now + (s - 1) * 1_000_000_000 - b.windowStart < window
  }

  class Budget {
    const bytes: int
    const window: int
    var windowStart: int
    var used: int

    ghost function State(): BudgetState
      reads this
    {
      BudgetState(windowStart, used)
    }

    constructor (bytes: int, window: int, now: int)
      ensures this.bytes == bytes && this.window == window && State() == BudgetState(now, 0)
    {
      this.bytes := bytes;
      this.window := window;
      windowStart := now;
      used := 0;
    }

    /**
     Reserve `n` bytes, or say after how many whole seconds the window is over.
     */
    method Take(n: int, now: int) returns (retryAfterS: int, ok: bool)
      requires bytes > 0 && window > 0
      modifies this
      ensures ok == Accepts(bytes, window, old(State()), now)
      ensures State() == Taken(bytes, window, old(State()), n, now)
      ensures ok ==> retryAfterS == 0
      ensures !ok ==> IsAdvice(window, old(State()), now, retryAfterS)
    {
      if now - windowStart >= window {
        windowStart := now;
        used := 0;
      }
      if used >= bytes {
        var remaining := window - (now - windowStart);
        var s := remaining / SECOND;
        if remaining % SECOND != 0 || s == 0 {
          s := s + 1;
        }
        return s, false;
      }
      used := used + n;
      return 0, true;
    }

    method Add(n: int)
      modifies this
      ensures State() == old(State()).(used := old(used) + n)
    {
      used := used + n;
    }
  }
}
