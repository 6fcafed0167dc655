/** The seeded shuffle told from its draws: which orders they give, and that they depend on the seed. */
module ShuffleDraws {
  import opened Products
  import opened SeededShuffle

  // ---------- The generator loses nothing ----------

  /** The state before a step. */
  function Unstepped(state: Word): Word {
    (state + (WORD - 1442695040888963407)) * 0xc097_ef87_329e_28a5 % WORD
  }

  /** Every state has exactly one predecessor. */
  lemma SteppedIsBijective(state: Word)
    ensures Unstepped(Stepped(state)) == state && Stepped(Unstepped(state)) == state
  {
    var a, b, c := 6364136223846793005, 1442695040888963407, 0xc097_ef87_329e_28a5;
    var k := a * c / WORD;
    assert a * c == WORD * k + 1;
    var x := state * a + b;
    assert Stepped(state) == x - WORD * (x / WORD);
    assert (Stepped(state) + (WORD - b)) * c == state + WORD * (state * k - x / WORD * c + c);
    MultipleAway(state, state * k - x / WORD * c + c);
    var y := (state + (WORD - b)) * c;
    assert Unstepped(state) == y - WORD * (y / WORD);
    assert Unstepped(state) * a + b == state + WORD * ((state + (WORD - b)) * k + 1 - y / WORD * a);
    MultipleAway(state, (state + (WORD - b)) * k + 1 - y / WORD * a);
  }

  // ---------- Mixing the seed ----------

  lemma XorHalves(a: nat, b: nat, bits: nat)
    requires bits > 0
    ensures Xor(a, b, bits) % 2 == (a + b) % 2 && Xor(a, b, bits) / 2 == Xor(a / 2, b / 2, bits - 1)
  {
    var low, high := (a + b) % 2, Xor(a / 2, b / 2, bits - 1);
    assert Xor(a, b, bits) == low + 2 * high;
    hide Xor;
  }

  lemma XorJoins(a: nat, b: nat, bits: nat)
    requires bits > 0
    ensures Xor(a, b, bits) == (a + b) % 2 + 2 * Xor(a / 2, b / 2, bits - 1)
    ensures Xor(a, b, 0) == 0
  {
  }

  /** The mixed seed is zero, and then replaced, exactly if the seed is the length. */
  lemma {:induction false} XorIsZeroIff(a: nat, b: nat, bits: nat)
    requires a < Pow2(bits) && b < Pow2(bits)
    ensures Xor(a, b, bits) == 0 <==> a == b
  {
    XorJoins(a, b, if bits > 0 then bits else 1);
    if bits > 0 {
      hide Xor;
      XorIsZeroIff(a / 2, b / 2, bits - 1);
    }
  }

  lemma HalfFits(a: nat, bits: nat)
    requires bits > 0 && a < Pow2(bits)
    ensures a / 2 < Pow2(bits - 1)
  {
  }

  lemma TwiceTheSame(a: nat, b: nat, x: nat)
    requires x % 2 == (a + b) % 2
    ensures (x + b) % 2 == a % 2
  {
  }

  lemma {:induction false} XorUndoes(a: nat, b: nat, bits: nat)
    requires a < Pow2(bits)
    ensures Xor(Xor(a, b, bits), b, bits) == a
  {
    if bits > 0 {
      var x := Xor(a, b, bits);
      HalfFits(a, bits);
      hide Xor, Pow2;
      XorHalves(a, b, bits);
      XorJoins(x, b, bits);
      TwiceTheSame(a, b, x);
      XorUndoes(a / 2, b / 2, bits - 1);
    }
  }

  /** Different seeds start differently, and a seed that mixes to zero is the length. */
  lemma MixedIsInjective(seed: Word, other: Word, length: nat)
    ensures Mixed(seed, length) == Mixed(other, length) ==> seed == other
    ensures Mixed(seed, length) == 0 <==> seed == length % WORD
  {
    hide Xor, Pow2;
    Pow2Of64();
    XorUndoes(seed, length % WORD, 64);
    XorUndoes(other, length % WORD, 64);
    XorIsZeroIff(seed, length % WORD, 64);
  }

  // ---------- The draws ----------

  /** The positions drawn from `state` for the swaps at `idx` down to one. */
  function Draws(state: Word, idx: nat): (draws: seq<nat>)
    ensures |draws| == idx
    decreases idx
  {
    if idx == 0 then [] else [Pick(Stepped(state), idx)] + Draws(Stepped(state), idx - 1)
  }

  /** Each draw is a position up to its own. */
  predicate InRange(draws: seq<nat>) {
    forall k :: 0 <= k < |draws| ==> draws[k] <= |draws| - k
  }

  /** The swaps that `draws` ask for, at the position of their number downwards. */
  function ByDraws<T>(s: seq<T>, draws: seq<nat>): (r: seq<T>)
    requires |draws| < |s| && InRange(draws)
    ensures |r| == |s|
    decreases |draws|
  {
    if draws == [] then s
    else
      RestInRange(draws);
      ByDraws(Swapped(s, |draws|, draws[0]), draws[1..])
  }

  lemma RestInRange(draws: seq<nat>)
    requires draws != [] && InRange(draws)
    ensures InRange(draws[1..])
  {
    forall k | 0 <= k < |draws[1..]|
      ensures draws[1..][k] <= |draws[1..]| - k
    {
      assert draws[1..][k] == draws[k + 1];
    }
  }

  lemma {:induction false} DrawsInRange(state: Word, idx: nat)
    ensures InRange(Draws(state, idx))
    decreases idx
  {
    if idx > 0 {
      hide Stepped;
      DrawsInRange(Stepped(state), idx - 1);
      var rest := Draws(Stepped(state), idx - 1);
      forall k | 0 <= k < idx
        ensures Draws(state, idx)[k] <= idx - k
      {
        assert k > 0 ==> Draws(state, idx)[k] == rest[k - 1];
      }
    }
  }

  lemma {:induction false} SwapDownByDraws<T>(s: seq<T>, idx: nat, state: Word)
    requires idx < |s|
    ensures InRange(Draws(state, idx)) && SwapDown(s, idx, state) == ByDraws(s, Draws(state, idx))
    decreases idx
  {
    DrawsInRange(state, idx);
    if idx == 0 {
      SwapDownEnd(s, state);
    } else {
      hide Stepped, Swapped, SwapDown;
      var j := Pick(Stepped(state), idx);
      SwapDownStep(s, idx, state);
      SwappedLength(s, idx, j);
      SwapDownByDraws(Swapped(s, idx, j), idx - 1, Stepped(state));
      assert Draws(state, idx)[1..] == Draws(Stepped(state), idx - 1);
    }
  }

  /** The shuffle is the swaps of the draws from the mixed seed. */
  lemma ShuffledByDraws<T>(s: seq<T>, seed: Word)
    requires |s| >= 2
    ensures var draws := Draws(Seeded(Mixed(seed, |s|)), |s| - 1);
            InRange(draws) && Shuffled(s, seed) == ByDraws(s, draws)
  {
    hide *;
    ShuffledBySwaps(s, seed);
    SwapDownByDraws(s, |s| - 1, Seeded(Mixed(seed, |s|)));
  }

  // ---------- Draws and orders correspond one to one ----------

  predicate Distinct<T(==)>(s: seq<T>) {
    forall i, j :: 0 <= i < j < |s| ==> s[i] != s[j]
  }

  /** Swaps below a position leave it alone. */
  lemma {:induction false} AboveStays<T>(s: seq<T>, draws: seq<nat>, k: nat)
    requires |draws| < k < |s| && InRange(draws)
    ensures ByDraws(s, draws)[k] == s[k]
    decreases |draws|
  {
    if draws != [] {
      RestInRange(draws);
      assert draws[0] <= |draws|;
      AboveStays(Swapped(s, |draws|, draws[0]), draws[1..], k);
    }
  }

  lemma FirstDrawShows<T>(s: seq<T>, draws: seq<nat>)
    requires 0 < |draws| < |s| && InRange(draws)
    ensures draws[0] <= |draws| && ByDraws(s, draws)[|draws|] == s[draws[0]]
  {
    RestInRange(draws);
    AboveStays(Swapped(s, |draws|, draws[0]), draws[1..], |draws|);
  }

  lemma SwappedStaysDistinct<T>(s: seq<T>, i: nat, j: nat)
    requires i < |s| && j < |s| && Distinct(s)
    ensures Distinct(Swapped(s, i, j))
  {
  }

  /** Different draws give different orders of distinct cases: no order is drawn twice as often as another. */
  lemma {:induction false} DrawsDetermineOrders<T>(s: seq<T>, draws: seq<nat>, others: seq<nat>)
    requires |draws| == |others| < |s| && InRange(draws) && InRange(others) && Distinct(s)
    requires ByDraws(s, draws) == ByDraws(s, others)
    ensures draws == others
    decreases |draws|
  {
    if draws != [] {
      FirstDrawShows(s, draws);
      FirstDrawShows(s, others);
      assert draws[0] == others[0];
      RestInRange(draws);
      RestInRange(others);
      SwappedStaysDistinct(s, |draws|, draws[0]);
      DrawsDetermineOrders(Swapped(s, |draws|, draws[0]), draws[1..], others[1..]);
      assert draws == [draws[0]] + draws[1..] && others == [others[0]] + others[1..];
    }
  }

  lemma TakesLast<T>(s: seq<T>, t: seq<T>, n: nat) returns (j: nat)
    requires n < |s| == |t| && multiset(s[..n + 1]) == multiset(t[..n + 1])
    ensures j <= n && s[j] == t[n]
  {
    assert t[n] in multiset(t[..n + 1]) by { assert t[..n + 1][n] == t[n]; }
    j :| 0 <= j < n + 1 && s[..n + 1][j] == t[n];
  }

  lemma SameWithoutLast<T>(u: seq<T>, t: seq<T>, x: T)
    requires multiset(u + [x]) == multiset(t + [x])
    ensures multiset(u) == multiset(t)
  {
    assert multiset(u) == multiset(u + [x]) - multiset{x};
    assert multiset(t) == multiset(t + [x]) - multiset{x};
  }

  lemma SwapWithin<T>(s: seq<T>, n: nat, j: nat)
    requires j <= n < |s|
    ensures var u := Swapped(s, n, j);
            |u| == |s| && u[..n + 1] == Swapped(s[..n + 1], n, j) && u[..n + 1] == u[..n] + [s[j]] && u[n..] == [s[j]] + s[n + 1..]
  {
  }

  lemma LastSplits<T>(t: seq<T>, n: nat)
    requires n < |t|
    ensures t[..n + 1] == t[..n] + [t[n]] && t[n..] == [t[n]] + t[n + 1..]
  {
  }

  lemma SwapPutsLast<T>(s: seq<T>, t: seq<T>, n: nat, j: nat)
    requires j <= n < |s| == |t| && multiset(s[..n + 1]) == multiset(t[..n + 1]) && s[j] == t[n]
    requires s[n + 1..] == t[n + 1..]
    ensures var u := Swapped(s, n, j); |u| == |t| && multiset(u[..n]) == multiset(t[..n]) && u[n..] == t[n..]
  {
    SwapWithin(s, n, j);
    SwappedPermutes(s[..n + 1], n, j);
    hide Swapped;
    LastSplits(t, n);
    SameWithoutLast(Swapped(s, n, j)[..n], t[..n], t[n]);
  }

  /** Every order of the cases is that of some draws. */
  lemma {:induction false} EveryOrderIsDrawn<T>(s: seq<T>, t: seq<T>, idx: nat) returns (draws: seq<nat>)
    requires idx < |s| == |t| && multiset(s[..idx + 1]) == multiset(t[..idx + 1]) && s[idx + 1..] == t[idx + 1..]
    ensures |draws| == idx && InRange(draws) && ByDraws(s, draws) == t
    decreases idx
  {
    var j := TakesLast(s, t, idx);
    SwapPutsLast(s, t, idx, j);
    if idx == 0 {
      draws := [];
      assert s == s[..1] + s[1..] && t == t[..1] + t[1..] && s[..1] == [s[0]] && t[..1] == [t[0]];
    } else {
      hide Swapped;
      var rest := EveryOrderIsDrawn(Swapped(s, idx, j), t, idx - 1);
      draws := [j] + rest;
      assert draws[1..] == rest;
      forall k | 0 <= k < |draws|
        ensures draws[k] <= |draws| - k
      {
        assert k > 0 ==> draws[k] == rest[k - 1];
      }
    }
  }

  /**
   The draws and the orders of a matrix of distinct cases are in bijection: for
   every order there is exactly one sequence of draws, and every draw up to its
   position is picked by some state of the generator.
   */
  lemma OrdersAreDrawnOnce<T>(s: seq<T>, t: seq<T>) returns (draws: seq<nat>)
    requires s != [] && Distinct(s) && multiset(s) == multiset(t)
    ensures |draws| == |s| - 1 && InRange(draws) && ByDraws(s, draws) == t
    ensures forall others: seq<nat> | |others| == |s| - 1 && InRange(others) && ByDraws(s, others) == t :: others == draws
  {
    assert |s| == |multiset(s)| == |multiset(t)| == |t|;
    assert s[..|s|] == s && t[..|s|] == t;
    draws := EveryOrderIsDrawn(s, t, |s| - 1);
    forall others: seq<nat> | |others| == |s| - 1 && InRange(others) && ByDraws(s, others) == t
      ensures others == draws
    {
      DrawsDetermineOrders(s, others, draws);
    }
  }

  lemma PickOfSmall(j: Word, idx: nat)
    requires j <= idx
    ensures Pick(j, idx) == j
  {
    NoWholeMultiple(j / (idx + 1), j % (idx + 1), idx + 1);
  }

  lemma NoWholeMultiple(q: int, r: int, m: int)
    requires 0 <= q * m + r < m && 0 <= r < m
    ensures q == 0
  {
    if q >= 1 {
      Scaled(1, q, m);
    } else if q <= -1 {
      Scaled(q, -1, m);
    }
  }

  /** No position is out of reach: from some state the next draw is `j`. */
  lemma EveryDrawIsPicked(j: nat, idx: nat) returns (state: Word)
    requires j <= idx < WORD
    ensures Pick(Stepped(state), idx) == j
  {
    state := Unstepped(j);
    SteppedIsBijective(j);
    hide *;
    PickOfSmall(j, idx);
  }

  // ---------- What seeds do ----------

  lemma EvenAway(x: int, k: int)
    ensures (x + 2 * k) % 2 == x % 2
  {
  }

  lemma ParityOfRemainder(x: nat)
    ensures x % WORD % 2 == x % 2
  {
    var q := x / WORD;
    assert x == x % WORD + 2 * (0x8000_0000_0000_0000 * q);
    EvenAway(x % WORD, 0x8000_0000_0000_0000 * q);
  }

  lemma SteppedFlipsParity(state: Word)
    ensures Stepped(state) % 2 != state % 2
  {
    var x := state * 6364136223846793005 + 1442695040888963407;
    var k := state * 3182068111923396502 + 721347520444481703;
    ParityOfRemainder(x);
    assert x == state + 1 + 2 * k;
    EvenAway(state + 1, k);
  }

  lemma MixedKeepsParity(seed: Word)
    ensures Mixed(seed, 2) % 2 == seed % 2
  {
    assert 2 % WORD == 2;
    hide *;
    MixedIsXor(seed, 2);
    XorHalves(seed, 2, 64);
    TwoMore(seed);
  }

  lemma MixedIsXor(seed: Word, length: nat)
    ensures Mixed(seed, length) == Xor(seed, length % WORD, 64)
  {
    hide Xor, Pow2;
  }

  lemma TwoMore(x: int)
    ensures (x + 2) % 2 == x % 2
  {
  }

  lemma TwoSwapped<T>(a: T, b: T, state: Word)
    ensures SwapDown([a, b], 1, state) == if state % 2 == 1 then [b, a] else [a, b]
  {
    SteppedFlipsParity(state);
    hide Stepped;
    SwapDownStep([a, b], 1, state);
    SwapDownEnd(Swapped([a, b], 1, Pick(Stepped(state), 1)), Stepped(state));
    hide SwapDown;
  }

  lemma SeedsOfTwo(seed: Word)
    ensures Seeded(Mixed(seed, 2)) % 2 == 1 <==> seed % 2 == 1 || seed == 2
  {
    MixedIsInjective(seed, seed, 2);
    MixedKeepsParity(seed);
    hide Mixed;
  }

  /** Two cases are exchanged by exactly the odd seeds, and by 2, whose mixed seed is replaced. */
  lemma TwoCases<T>(a: T, b: T, seed: Word)
    ensures Shuffled([a, b], seed) == if seed % 2 == 1 || seed == 2 then [b, a] else [a, b]
  {
    hide *;
    ShuffledBySwaps([a, b], seed);
    TwoSwapped(a, b, Seeded(Mixed(seed, 2)));
    SeedsOfTwo(seed);
  }

  lemma {:induction false} XorWithZero(a: nat, bits: nat)
    requires a < Pow2(bits)
    ensures Xor(a, 0, bits) == a
  {
    if bits > 0 {
      XorWithZero(a / 2, bits - 1);
    }
  }

  lemma MixedOf42()
    ensures Mixed(42, 4) == 46
  {
    assert Pow2(3) == 8;
    assert 5 < Pow2(61) by {
      Pow2Of64();
      assert Pow2(62) == 2 * Pow2(61) && Pow2(63) == 2 * Pow2(62) && Pow2(64) == 2 * Pow2(63);
    }
    XorWithZero(5, 61);
    assert Xor(10, 1, 62) == 1 + 2 * Xor(5, 0, 61);
    assert Xor(21, 2, 63) == 1 + 2 * Xor(10, 1, 62);
    assert Xor(42, 4, 64) == 2 * Xor(21, 2, 63);
  }

  lemma DrawsOf42()
    ensures Stepped(46) == 0xf2bf_5ba2_ba44_5b65
    ensures Stepped(0xf2bf_5ba2_ba44_5b65) == 0xdb36_5b2d_cc8b_ad10
    ensures Stepped(0xdb36_5b2d_cc8b_ad10) == 0x95c1_6b81_b11f_dd1f
  {
  }

  lemma DrawsOfTheLength()
    ensures Stepped(0x9e37_79b9_7f4a_7c15) == 0x2cea_ee21_bf46_bc00
    ensures Stepped(0x2cea_ee21_bf46_bc00) == 0xaa80_754d_1a1a_8d4f
    ensures Stepped(0xaa80_754d_1a1a_8d4f) == 0xb3c4_904a_6d27_8932
  {
  }

  lemma ThreeSwaps(s: seq<nat>, a: Word, b: Word, c: Word, state: Word)
    requires |s| == 4 && Stepped(state) == a && Stepped(a) == b && Stepped(b) == c
    ensures SwapDown(s, 3, state) == Swapped(Swapped(Swapped(s, 3, Pick(a, 3)), 2, Pick(b, 2)), 1, Pick(c, 1))
  {
    hide Stepped, Pick, SwapDown;
    SwapDownStep(s, 3, state);
    SwapDownStep(Swapped(s, 3, Pick(a, 3)), 2, a);
    SwapDownStep(Swapped(Swapped(s, 3, Pick(a, 3)), 2, Pick(b, 2)), 1, b);
    SwapDownEnd(Swapped(Swapped(Swapped(s, 3, Pick(a, 3)), 2, Pick(b, 2)), 1, Pick(c, 1)), c);
  }

  /** Four cases in the order of seed 42, and in that of a seed that mixes to zero. */
  lemma FourCases()
    ensures Shuffled([0, 1, 2, 3], 42) == [0, 3, 2, 1]
    ensures Shuffled([0, 1, 2, 3], 4) == [1, 3, 2, 0]
  {
    MixedIsInjective(4, 4, 4);
    hide Stepped, Mixed, SwapDown;
    var s: seq<nat> := [0, 1, 2, 3];
    MixedOf42();
    DrawsOf42();
    ShuffledBySwaps(s, 42);
    ThreeSwaps(s, 0xf2bf_5ba2_ba44_5b65, 0xdb36_5b2d_cc8b_ad10, 0x95c1_6b81_b11f_dd1f, 46);
    DrawsOfTheLength();
    ShuffledBySwaps(s, 4);
    ThreeSwaps(s, 0x2cea_ee21_bf46_bc00, 0xaa80_754d_1a1a_8d4f, 0xb3c4_904a_6d27_8932, 0x9e37_79b9_7f4a_7c15);
  }
}
