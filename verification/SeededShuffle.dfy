/**
 The seeded in-place shuffle of the benchmark matrix
 (benchmarks/orchestrator/src/config.rs): a 64-bit linear congruential generator
 drives a Fisher-Yates pass from the last position down.
 */
module SeededShuffle {

  // ---------- The generator ----------

  const WORD := 0x1_0000_0000_0000_0000

  /** An unsigned 64-bit number. */
  type Word = w: nat | w < WORD

  function Seeded(seed: Word): Word {
    if seed == 0 then 0x9e37_79b9_7f4a_7c15 else seed
  }

  function Stepped(state: Word): Word {
    (state * 6364136223846793005 + 1442695040888963407) % WORD
  }

  class MatrixRng {
    var state: Word

    constructor (seed: Word)
      ensures state == Seeded(seed)
    {
      state := if seed == 0 then 0x9e37_79b9_7f4a_7c15 else seed;
    }

    method Next() returns (r: Word)
      modifies this
      ensures state == r == Stepped(old(state))
    {
      WrapsOnce(state * 6364136223846793005);
      state := state * 6364136223846793005 % WORD;
      state := (state + 1442695040888963407) % WORD;
      r := state;
    }
  }

  lemma MultipleAway(x: int, k: int)
    ensures (x + WORD * k) % WORD == x % WORD
  {
    assert x + WORD * k == WORD * (x / WORD + k) + x % WORD;
  }

  lemma WrapsOnce(x: nat)
    ensures (x % WORD + 1442695040888963407) % WORD == (x + 1442695040888963407) % WORD
  {
    MultipleAway(x % WORD + 1442695040888963407, x / WORD);
  }

  // ---------- The shuffle ----------

  function Swapped<T>(s: seq<T>, i: nat, j: nat): seq<T>
    requires i < |s| && j < |s|
  {
    s[i := s[j]][j := s[i]]
  }

  function Pick(state: Word, idx: nat): (j: nat)
    ensures j <= idx
  {
    state % (idx + 1)
  }

  /** The swaps at positions `idx` down to one, drawn from `state`. */
  function SwapDown<T>(s: seq<T>, idx: nat, state: Word): (r: seq<T>)
    requires idx < |s|
    ensures |r| == |s|
    decreases idx
  {
    if idx == 0 then s
    else SwapDown(Swapped(s, idx, Pick(Stepped(state), idx)), idx - 1, Stepped(state))
  }

  function Pow2(n: nat): (r: nat)
    ensures r > 0
  {
    if n == 0 then 1 else 2 * Pow2(n - 1)
  }

  /** The exclusive or of the `bits` lowest bits. */
  function Xor(a: nat, b: nat, bits: nat): (r: nat)
    ensures r < Pow2(bits)
  {
    if bits == 0 then 0 else (a + b) % 2 + 2 * Xor(a / 2, b / 2, bits - 1)
  }

  lemma Pow2Of4More(n: nat)
    ensures Pow2(n + 4) == 16 * Pow2(n)
  {
    assert Pow2(n + 2) == 4 * Pow2(n);
  }

  lemma Pow2Of16More(n: nat)
    ensures Pow2(n + 16) == 65536 * Pow2(n)
  {
    hide Pow2;
    Pow2Of4More(n);
    Pow2Of4More(n + 4);
    Pow2Of4More(n + 8);
    Pow2Of4More(n + 12);
  }

  lemma Pow2Of64()
    ensures Pow2(64) == WORD
  {
    assert Pow2(0) == 1;
    hide Pow2;
    Pow2Of16More(0);
    Pow2Of16More(16);
    Pow2Of16More(32);
    Pow2Of16More(48);
  }

  function Mixed(seed: Word, length: nat): Word {
    Pow2Of64();
    Xor(seed, length % WORD, 64)
  }

  function Shuffled<T>(s: seq<T>, seed: Word): (r: seq<T>)
    ensures |r| == |s|
  {
    if |s| < 2 then s else SwapDown(s, |s| - 1, Seeded(Mixed(seed, |s|)))
  }

  lemma SwapDownStep<T>(s: seq<T>, idx: nat, state: Word)
    requires 0 < idx < |s|
    ensures SwapDown(s, idx, state) == SwapDown(Swapped(s, idx, Pick(Stepped(state), idx)), idx - 1, Stepped(state))
  {
    hide Stepped, Pick, Swapped;
  }

  lemma SwapDownEnd<T>(s: seq<T>, state: Word)
    requires |s| > 0
    ensures SwapDown(s, 0, state) == s
  {
  }

  lemma ShuffledBySwaps<T>(s: seq<T>, seed: Word)
    requires |s| >= 2
    ensures Shuffled(s, seed) == SwapDown(s, |s| - 1, Seeded(Mixed(seed, |s|)))
  {
    hide SwapDown, Seeded, Mixed;
  }

  method Swap<T>(a: array<T>, i: nat, j: nat)
    requires i < a.Length && j < a.Length
    modifies a
    ensures a[..] == Swapped(old(a[..]), i, j)
  {
    a[i], a[j] := a[j], a[i];
  }

  lemma ShuffledShort<T>(s: seq<T>, seed: Word)
    requires |s| < 2
    ensures Shuffled(s, seed) == s
  {
  }

  method ShuffleCases<T>(cases: array<T>, seed: Word)
    modifies cases
    ensures cases[..] == Shuffled(old(cases[..]), seed)
  {
    hide *;
    ghost var now := cases[..];
    ghost var goal := Shuffled(now, seed);
    if cases.Length < 2 {
      ShuffledShort(now, seed);
      return;
    }
    ShuffledBySwaps(now, seed);
    var rng := new MatrixRng(Mixed(seed, cases.Length));
    var idx := cases.Length - 1;
    while idx >= 1
      invariant 0 <= idx < cases.Length && now == cases[..]
      invariant SwapDown(now, idx, rng.state) == goal
    {
      SwapDownStep(now, idx, rng.state);
      var drawn := rng.Next();
      var j := Pick(drawn, idx);
      Swap(cases, idx, j);
      now := Swapped(now, idx, j);
      idx := idx - 1;
    }
    SwapDownEnd(now, rng.state);
  }

  lemma SwappedPermutes<T>(s: seq<T>, i: nat, j: nat)
    requires i < |s| && j < |s|
    ensures multiset(Swapped(s, i, j)) == multiset(s)
  {
  }

  lemma {:induction false} SwapDownPermutes<T>(s: seq<T>, idx: nat, state: Word)
    requires idx < |s|
    ensures multiset(SwapDown(s, idx, state)) == multiset(s)
    decreases idx
  {
    if idx == 0 {
      SwapDownEnd(s, state);
    } else {
      hide Stepped, Swapped, Pick, SwapDown;
      SwapDownStep(s, idx, state);
      SwappedLength(s, idx, Pick(Stepped(state), idx));
      SwappedPermutes(s, idx, Pick(Stepped(state), idx));
      SwapDownPermutes(Swapped(s, idx, Pick(Stepped(state), idx)), idx - 1, Stepped(state));
    }
  }

  /** For any seed nothing is lost, added or changed. */
  lemma ShuffledPermutes<T>(s: seq<T>, seed: Word)
    ensures multiset(Shuffled(s, seed)) == multiset(s)
  {
    hide SwapDown, Seeded, Mixed;
    if |s| >= 2 {
      SwapDownPermutes(s, |s| - 1, Seeded(Mixed(seed, |s|)));
    }
  }

  function Identity(n: nat): (p: seq<nat>)
    ensures |p| == n && forall i :: 0 <= i < n ==> p[i] == i
  {
    seq(n, i => i)
  }

  /** `r` is `s` read in the order `p`. */
  ghost predicate ReadBy<T>(r: seq<T>, s: seq<T>, p: seq<nat>) {
    |r| == |p| && forall k :: 0 <= k < |p| ==> p[k] < |s| && r[k] == s[p[k]]
  }

  lemma SwappedIsPositional<T>(r: seq<T>, s: seq<T>, p: seq<nat>, i: nat, j: nat)
    requires i < |r| && j < |r| && ReadBy(r, s, p)
    ensures ReadBy(Swapped(r, i, j), s, Swapped(p, i, j))
  {
  }

  lemma {:induction false} SwapDownIsPositional<T>(r: seq<T>, s: seq<T>, p: seq<nat>, idx: nat, state: Word)
    requires idx < |r| && |p| == |r| && ReadBy(r, s, p)
    ensures ReadBy(SwapDown(r, idx, state), s, SwapDown(p, idx, state))
    decreases idx
  {
    if idx == 0 {
      SwapDownEnd(r, state);
      SwapDownEnd(p, state);
    } else {
      hide Stepped, Pick, SwapDown, Swapped, ReadBy;
      var j := Pick(Stepped(state), idx);
      SwapDownStep(r, idx, state);
      SwapDownStep(p, idx, state);
      SwappedIsPositional(r, s, p, idx, j);
      SwappedLength(r, idx, j);
      SwappedLength(p, idx, j);
      SwapDownIsPositional(Swapped(r, idx, j), s, Swapped(p, idx, j), idx - 1, Stepped(state));
    }
  }

  lemma SwappedLength<T>(s: seq<T>, i: nat, j: nat)
    requires i < |s| && j < |s|
    ensures |Swapped(s, i, j)| == |s|
  {
  }

  /** Where an element goes depends on the seed and the length alone, never on what is shuffled. */
  lemma ShuffleDependsOnSeedAndLength<T>(s: seq<T>, seed: Word)
    ensures ReadBy(Shuffled(s, seed), s, Shuffled(Identity(|s|), seed))
  {
    hide SwapDown, Seeded, Mixed;
    if |s| >= 2 {
      SwapDownIsPositional(s, s, Identity(|s|), |s| - 1, Seeded(Mixed(seed, |s|)));
    }
  }
}
