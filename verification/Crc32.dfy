/**
 The table-driven CRC-32 of the endpoint (src/Networker.Endpoint/Crc32.cs),
 against the bit-at-a-time division it is a fast form of: the reflected CRC-32
 of section 3.2.9 of IEEE 802.3-2018.
 */
module Crc32 {

  const POLY: bv32 := 0xEDB8_8320
  const ALL_ONES: bv32 := 0xFFFF_FFFF

  // ---------- Registers ----------
  // The word operations have names so that proofs can hide what they compute
  // and work with the laws below.

  function Xor(x: bv32, y: bv32): bv32 { x ^ y }

  function Shr(x: bv32): bv32 { x >> 1 }

  function Shl(x: bv32): bv32 { x << 1 }

  predicate Odd(x: bv32) { x & 1 != 0 }

  predicate TopClear(x: bv32) { x & 0x8000_0000 == 0 }

  lemma XorCommutes(x: bv32, y: bv32)
    ensures Xor(x, y) == Xor(y, x)
  {
  }

  lemma XorAssociates(x: bv32, y: bv32, z: bv32)
    ensures Xor(Xor(x, y), z) == Xor(x, Xor(y, z))
  {
  }

  lemma XorCancels(x: bv32, y: bv32)
    ensures Xor(Xor(x, y), y) == x
  {
  }

  lemma ShiftsSplit(x: bv32, y: bv32)
    ensures Odd(Xor(x, y)) == (Odd(x) != Odd(y))
    ensures Shr(Xor(x, y)) == Xor(Shr(x), Shr(y))
  {
  }

  lemma ShiftUpAndDown(w: bv32)
    requires TopClear(w)
    ensures !Odd(Shl(w)) && Shr(Shl(w)) == w
  {
  }

  lemma Rejoin(w: bv32)
    ensures Xor(Shl(Shr(w)), Bit(Odd(w))) == w
  {
  }

  function ShrN(x: bv32, n: nat): bv32 {
    if n == 0 then x else ShrN(Shr(x), n - 1)
  }

  lemma {:induction false} ShrNAdds(x: bv32, m: nat, n: nat)
    ensures ShrN(x, m + n) == ShrN(ShrN(x, m), n)
    decreases m
  {
    if m > 0 {
      hide Shr;
      ShrNAdds(Shr(x), m - 1, n);
    }
  }

  function Shr4(x: bv32): bv32 { x >> 4 }

  function Shr8(x: bv32): bv32 { x >> 8 }

  lemma ShiftsCompose(x: bv32)
    ensures Shr(Shr(Shr(Shr(x)))) == Shr4(x)
    ensures Shr4(Shr4(x)) == Shr8(x)
  {
  }

  lemma ShrN4(x: bv32)
    ensures ShrN(x, 4) == Shr4(x)
  {
    ShiftsCompose(x);
    hide Shr, Shr4;
    assert ShrN(Shr(Shr(Shr(x))), 1) == Shr(Shr(Shr(Shr(x))));
    assert ShrN(Shr(Shr(x)), 2) == Shr(Shr(Shr(Shr(x))));
    assert ShrN(Shr(x), 3) == Shr(Shr(Shr(Shr(x))));
  }

  lemma ShrN8(x: bv32)
    ensures ShrN(x, 8) == Shr8(x)
  {
    ShiftsCompose(x);
    hide Shr, Shr4, Shr8;
    ShrN4(x);
    ShrN4(Shr4(x));
    ShrNAdds(x, 4, 4);
  }

  lemma ShrN28(x: bv32)
    ensures ShrN(x, 28) == Shr4(Shr8(Shr8(Shr8(x))))
  {
    hide Shr, Shr4, Shr8;
    ShrN8(x);
    ShrN8(Shr8(x));
    ShrN8(Shr8(Shr8(x)));
    ShrN4(Shr8(Shr8(Shr8(x))));
    ShrNAdds(x, 8, 8);
    ShrNAdds(x, 16, 8);
    ShrNAdds(x, 24, 4);
  }

  lemma ShrN31(x: bv32)
    ensures ShrN(x, 31) == 0 <==> TopClear(x)
    ensures ShrN(x, 32) == 0
  {
    TopNibble(x);
    hide Shr, Shr4, Shr8, TopClear;
    var z := ShrN(x, 28);
    ShrN28(x);
    ShrNAdds(x, 28, 3);
    ShrNAdds(x, 28, 4);
    assert ShrN(Shr(Shr(z)), 1) == Shr(Shr(Shr(z)));
    assert ShrN(Shr(z), 2) == Shr(Shr(Shr(z)));
    assert ShrN(Shr(Shr(Shr(z))), 1) == Shr(Shr(Shr(Shr(z))));
    assert ShrN(Shr(Shr(z)), 2) == Shr(Shr(Shr(Shr(z))));
    assert ShrN(Shr(z), 3) == Shr(Shr(Shr(Shr(z))));
  }

  lemma TopNibble(x: bv32)
    ensures var z := Shr4(Shr8(Shr8(Shr8(x))));
            && (Shr(Shr(Shr(z))) == 0 <==> TopClear(x))
            && Shr(Shr(Shr(Shr(z)))) == 0
  {
  }

  // ---------- The reference: one bit at a time ----------

  /** Shift out one bit, reducing by the reflected polynomial. */
  function BitStep(c: bv32): bv32 {
    if Odd(c) then Xor(Shr(c), POLY) else Shr(c)
  }

  function BitSteps(c: bv32, n: nat): bv32
    decreases n
  {
    if n == 0 then c else BitSteps(BitStep(c), n - 1)
  }

  function Bit(b: bool): bv32 {
    if b then 1 else 0
  }

  /** Divide a bit string, first bit first, starting from register `c`. */
  function Divide(c: bv32, bits: seq<bool>): bv32
    decreases |bits|
  {
    if bits == [] then c else Divide(BitStep(Xor(c, Bit(bits[0]))), bits[1..])
  }

  /** The bits of a byte in transmission order, least significant first. */
  function ByteBits(b: bv8): (bits: seq<bool>)
    ensures |bits| == 8
  {
    Unword(b as bv32, 8)
  }

  function Bits(data: seq<bv8>): (bits: seq<bool>)
    ensures |bits| == 8 * |data|
  {
    if data == [] then [] else ByteBits(data[0]) + Bits(data[1..])
  }

  /** The CRC of a bit string. */
  function Crc(bits: seq<bool>): bv32 {
    Xor(Divide(ALL_ONES, bits), ALL_ONES)
  }

  lemma {:induction false} DivideConcat(c: bv32, a: seq<bool>, b: seq<bool>)
    ensures Divide(c, a + b) == Divide(Divide(c, a), b)
    decreases |a|
  {
    hide BitStep, Xor;
    if a == [] {
      assert a + b == b;
    } else {
      assert (a + b)[1..] == a[1..] + b;
      DivideConcat(BitStep(Xor(c, Bit(a[0]))), a[1..], b);
    }
  }

  // ---------- Linearity and injectivity of the division ----------

  lemma BitStepLinear(x: bv32, y: bv32)
    ensures BitStep(Xor(x, y)) == Xor(BitStep(x), BitStep(y))
  {
    hide Xor, Shr, Odd;
    var a, b := Shr(x), Shr(y);
    ShiftsSplit(x, y);
    if Odd(x) && Odd(y) {
      XorCommutes(b, POLY);
      XorAssociates(Xor(a, POLY), POLY, b);
      XorCancels(a, POLY);
    } else if Odd(x) {
      XorAssociates(a, b, POLY);
      XorAssociates(a, POLY, b);
      XorCommutes(b, POLY);
    } else if Odd(y) {
      XorAssociates(a, b, POLY);
    }
  }

  lemma {:induction false} BitStepsLinear(x: bv32, y: bv32, n: nat)
    ensures BitSteps(Xor(x, y), n) == Xor(BitSteps(x, n), BitSteps(y, n))
    decreases n
  {
    hide Xor, BitStep;
    if n > 0 {
      BitStepLinear(x, y);
      BitStepsLinear(BitStep(x), BitStep(y), n - 1);
    }
  }

  function XorBits(a: seq<bool>, b: seq<bool>): (r: seq<bool>)
    requires |a| == |b|
    ensures |r| == |a| && forall i | 0 <= i < |a| :: r[i] == (a[i] != b[i])
  {
    if a == [] then [] else [a[0] != b[0]] + XorBits(a[1..], b[1..])
  }

  lemma {:induction false} DivideLinear(c: bv32, d: bv32, a: seq<bool>, b: seq<bool>)
    requires |a| == |b|
    ensures Divide(Xor(c, d), XorBits(a, b)) == Xor(Divide(c, a), Divide(d, b))
    decreases |a|
  {
    if a != [] {
      var x, y := Bit(a[0]), Bit(b[0]);
      assert Bit(a[0] != b[0]) == Xor(x, y);
      hide Xor, BitStep, Bit;
      BitStepLinear(Xor(c, x), Xor(d, y));
      XorAssociates(c, d, Xor(x, y));
      XorAssociates(d, x, y);
      XorCommutes(d, x);
      XorAssociates(x, d, y);
      XorAssociates(c, x, Xor(d, y));
      DivideLinear(BitStep(Xor(c, x)), BitStep(Xor(d, y)), a[1..], b[1..]);
    }
  }

  /** CRCs of equally long messages add up: the CRC is affine over bitwise exclusive or. */
  lemma CrcIsAffine(a: seq<bool>, b: seq<bool>, c: seq<bool>)
    requires |a| == |b| == |c|
    ensures Crc(XorBits(XorBits(a, b), c)) == Xor(Xor(Crc(a), Crc(b)), Crc(c))
  {
    var f, p, q, r := ALL_ONES, Divide(ALL_ONES, a), Divide(ALL_ONES, b), Divide(ALL_ONES, c);
    assert Xor(f, f) == 0 && Xor(0, f) == f;
    DivideLinear(f, f, a, b);
    DivideLinear(0, f, XorBits(a, b), c);
    hide Xor;
    ThreeOnes(p, q, r);
  }

  lemma ThreeOnes(p: bv32, q: bv32, r: bv32)
    ensures Xor(Xor(Xor(p, q), r), ALL_ONES)
            == Xor(Xor(Xor(p, ALL_ONES), Xor(q, ALL_ONES)), Xor(r, ALL_ONES))
  {
  }

  /** The register one step earlier. */
  function Unstep(c: bv32): bv32 {
    if TopClear(c) then Shl(c) else Xor(Shl(Xor(c, POLY)), 1)
  }

  lemma UnstepInverts(c: bv32)
    ensures Unstep(BitStep(c)) == c
    ensures BitStep(Unstep(c)) == c
  {
    var d := Xor(c, POLY);
    TopBits(c);
    ShiftUp(c);
    ShiftUp(d);
    ShiftsSplit(Shl(d), 1);
    BitIsLow(Shl(c), true);
    BitIsLow(Shl(Shr(c)), true);
    BitIsLow(d, true);
    Rejoin(c);
    XorCancels(Shr(c), POLY);
    XorCancels(c, POLY);
    hide Xor, Shr, Shl, Odd, TopClear;
  }

  lemma TopBits(c: bv32)
    ensures TopClear(Shr(c)) && !TopClear(Xor(Shr(c), POLY))
    ensures TopClear(Xor(c, POLY)) != TopClear(c)
  {
  }

  lemma ShiftUp(w: bv32)
    ensures !Odd(Shl(w)) && (TopClear(w) ==> Shr(Shl(w)) == w)
  {
  }

  function Unsteps(c: bv32, n: nat): bv32 {
    if n == 0 then c else Unstep(Unsteps(c, n - 1))
  }

  lemma {:induction false} UnstepsInverts(c: bv32, n: nat)
    ensures Unsteps(BitSteps(c, n), n) == c
    ensures BitSteps(Unsteps(c, n), n) == c
    decreases n
  {
    hide BitStep, Unstep;
    if n > 0 {
      UnstepsInverts(c, n - 1);
      UnstepsInverts(BitStep(c), n - 1);
      UnstepInverts(c);
      UnstepInverts(Unsteps(c, n - 1));
    }
  }

  lemma {:induction false} DivideInjective(c: bv32, d: bv32, bits: seq<bool>)
    ensures Divide(c, bits) == Divide(d, bits) ==> c == d
    decreases |bits|
  {
    if bits != [] {
      var x := Bit(bits[0]);
      hide Xor, BitStep;
      DivideInjective(BitStep(Xor(c, x)), BitStep(Xor(d, x)), bits[1..]);
      UnstepInverts(Xor(c, x));
      UnstepInverts(Xor(d, x));
      XorCancels(c, x);
      XorCancels(d, x);
    }
  }

  // ---------- Up to 32 bits at once ----------

  /** The register image of a short bit string: first bit lowest. */
  function Word(bits: seq<bool>): bv32 {
    if bits == [] then 0 else Xor(Shl(Word(bits[1..])), Bit(bits[0]))
  }

  /** The `n` lowest bits of a register, lowest first. */
  function Unword(w: bv32, n: nat): (bits: seq<bool>)
    ensures |bits| == n
  {
    if n == 0 then [] else [Odd(w)] + Unword(Shr(w), n - 1)
  }

  lemma {:induction false} WordFits(bits: seq<bool>)
    requires |bits| <= 32
    ensures ShrN(Word(bits), |bits|) == 0
    ensures |bits| <= 31 ==> TopClear(Word(bits))
  {
    hide Xor, Shr, Shl, Odd, TopClear;
    if bits != [] {
      var w, b := Word(bits[1..]), Bit(bits[0]);
      WordFits(bits[1..]);
      ShiftUpAndDown(w);
      ShiftsSplit(Shl(w), b);
      BitIsLow(w, bits[0]);
    }
    if |bits| <= 31 {
      ShrNAdds(Word(bits), |bits|, 31 - |bits|);
      ShrNOfZero(31 - |bits|);
      ShrN31(Word(bits));
    }
  }

  lemma BitIsLow(w: bv32, b: bool)
    ensures Shr(Bit(b)) == 0 && Odd(Bit(b)) == b && Xor(w, 0) == w
  {
  }

  lemma {:induction false} ShrNOfZero(n: nat)
    ensures ShrN(0, n) == 0
  {
    if n > 0 {
      ShrNOfZero(n - 1);
    }
  }

  lemma {:induction false} WordInjective(a: seq<bool>, b: seq<bool>)
    requires |a| == |b| <= 32 && Word(a) == Word(b)
    ensures a == b
  {
    hide Xor, Shr, Shl, Odd, TopClear, ShrN;
    if a != [] {
      WordSplits(a);
      WordSplits(b);
      WordInjective(a[1..], b[1..]);
      assert a == [a[0]] + a[1..] && b == [b[0]] + b[1..];
    }
  }

  lemma WordSplits(bits: seq<bool>)
    requires 0 < |bits| <= 32
    ensures Odd(Word(bits)) == bits[0] && Shr(Word(bits)) == Word(bits[1..])
  {
    hide Xor, Shr, Shl, Odd, TopClear, ShrN;
    var w := Word(bits[1..]);
    WordFits(bits[1..]);
    ShiftUpAndDown(w);
    ShiftsSplit(Shl(w), Bit(bits[0]));
    BitIsLow(w, bits[0]);
  }

  lemma {:induction false} WordOfUnword(w: bv32, n: nat)
    requires ShrN(w, n) == 0
    ensures Word(Unword(w, n)) == w
    decreases n
  {
    hide Xor, Shr, Shl, Odd;
    if n > 0 {
      WordOfUnword(Shr(w), n - 1);
      assert Unword(w, n)[1..] == Unword(Shr(w), n - 1);
      Rejoin(w);
    }
  }

  /** Dividing up to 32 bits is that many steps from the register with the word added in. */
  lemma {:induction false} DivideWord(c: bv32, bits: seq<bool>)
    requires |bits| <= 32
    ensures Divide(c, bits) == BitSteps(Xor(c, Word(bits)), |bits|)
    decreases |bits|
  {
    if bits == [] {
      assert Xor(c, 0) == c;
    } else {
      var w, b := Word(bits[1..]), Bit(bits[0]);
      WordFits(bits[1..]);
      StepTakesBit(c, w, b);
      hide Xor, Shl, BitStep;
      DivideWord(BitStep(Xor(c, b)), bits[1..]);
    }
  }

  lemma StepTakesBit(c: bv32, w: bv32, b: bv32)
    requires TopClear(w)
    ensures BitStep(Xor(c, Xor(Shl(w), b))) == Xor(BitStep(Xor(c, b)), w)
  {
    hide Xor, Shl, TopClear, Shr, Odd;
    XorCommutes(Shl(w), b);
    XorAssociates(c, b, Shl(w));
    BitStepLinear(Xor(c, b), Shl(w));
    ShiftUpAndDown(w);
  }

  // ---------- Error detection ----------

  /**
   Every burst is detected: two messages of equal length that differ, but only
   within 32 consecutive bits, have different CRCs.
   */
  lemma BurstsChangeTheCrc(a: seq<bool>, b: seq<bool>, k: nat)
    requires |a| == |b| && a != b
    requires forall i | 0 <= i < |a| && a[i] != b[i] :: k <= i < k + 32
    ensures Crc(a) != Crc(b)
  {
    hide Crc;
    var i :| 0 <= i < |a| && a[i] != b[i];
    var m := if k + 32 <= |a| then k + 32 else |a|;
    assert k <= i < m;
    SameOutside(a, b, k, m);
    assert a[k..m] != b[k..m] by {
      assert a[k..m][i - k] != b[k..m][i - k];
    }
    InfixSeparates(a[..k], a[k..m], b[k..m], a[m..]);
  }

  lemma SameOutside(a: seq<bool>, b: seq<bool>, k: nat, m: nat)
    requires |a| == |b| && k <= m <= |a|
    requires forall i | 0 <= i < |a| && a[i] != b[i] :: k <= i < m
    ensures a == a[..k] + a[k..m] + a[m..]
    ensures b == a[..k] + b[k..m] + a[m..]
  {
    forall i | 0 <= i < |b|
      ensures b[i] == (a[..k] + b[k..m] + a[m..])[i]
    {
    }
  }

  /** Different short infixes lead to different CRCs. */
  lemma InfixSeparates(prefix: seq<bool>, x: seq<bool>, y: seq<bool>, suffix: seq<bool>)
    requires |x| == |y| <= 32 && x != y
    ensures Crc(prefix + x + suffix) != Crc(prefix + y + suffix)
  {
    hide Xor, BitStep, Divide;
    var c := Divide(ALL_ONES, prefix);
    DivideConcat(ALL_ONES, prefix, x);
    DivideConcat(ALL_ONES, prefix, y);
    DivideConcat(ALL_ONES, prefix + x, suffix);
    DivideConcat(ALL_ONES, prefix + y, suffix);
    ShortStringsSeparate(c, x, y);
    DivideInjective(Divide(c, x), Divide(c, y), suffix);
    XorCancels(Divide(ALL_ONES, prefix + x + suffix), ALL_ONES);
    XorCancels(Divide(ALL_ONES, prefix + y + suffix), ALL_ONES);
  }

  lemma ShortStringsSeparate(c: bv32, x: seq<bool>, y: seq<bool>)
    requires |x| == |y| <= 32
    ensures Divide(c, x) == Divide(c, y) ==> x == y
  {
    hide Xor, BitStep, Divide;
    if Divide(c, x) == Divide(c, y) {
      DivideWord(c, x);
      DivideWord(c, y);
      UnstepsInverts(Xor(c, Word(x)), |x|);
      UnstepsInverts(Xor(c, Word(y)), |y|);
      XorCommutes(c, Word(x));
      XorCommutes(c, Word(y));
      XorCancels(Word(x), c);
      XorCancels(Word(y), c);
      WordInjective(x, y);
    }
  }

  /** After any prefix the last 32 bits reach every CRC, each by exactly one bit string. */
  lemma LastWordReachesEveryCrc(prefix: seq<bool>, h: bv32) returns (bits: seq<bool>)
    ensures |bits| == 32 && Crc(prefix + bits) == h
    ensures forall other: seq<bool> | |other| == 32 && Crc(prefix + other) == h :: other == bits
  {
    hide Xor, Unstep, BitStep, Divide, ShrN;
    var c := Divide(ALL_ONES, prefix);
    var target := Xor(h, ALL_ONES);
    var w := Xor(Unsteps(target, 32), c);
    bits := Unword(w, 32);
    ShrN31(w);
    WordOfUnword(w, 32);
    DivideWord(c, bits);
    XorCommutes(c, w);
    XorCancels(Unsteps(target, 32), c);
    UnstepsInverts(target, 32);
    DivideConcat(ALL_ONES, prefix, bits);
    XorCancels(h, ALL_ONES);
    forall other: seq<bool> | |other| == 32 && Crc(prefix + other) == h
      ensures other == bits
    {
      DivideConcat(ALL_ONES, prefix, other);
      XorCancels(Divide(c, other), ALL_ONES);
      ShortStringsSeparate(c, bits, other);
    }
  }

  // ---------- The program ----------

  function Entry(i: bv32): bv32 {
    BitSteps(i, 8)
  }

  ghost predicate IsTable(table: seq<bv32>) {
    |table| == 256 && forall i: bv32 | i <= 255 :: TableAt(table, i)
  }

  ghost predicate TableAt(table: seq<bv32>, i: bv32)
    requires |table| == 256 && i <= 255
  {
    IndexInRange(i);
    table[i as int] == Entry(i)
  }

  lemma IndexInRange(i: bv32)
    requires i <= 255
    ensures 0 <= i as int < 256
  {
  }

  lemma IndexInjective(i: bv32, j: bv32)
    requires i <= 255 && j <= 255 && i as int == j as int
    ensures i == j
  {
  }

  method BuildTable() returns (table: array<bv32>)
    ensures fresh(table) && IsTable(table[..])
  {
    table := new bv32[256];
    var i: bv32 := 0;
    while i < 256
      invariant i <= 256 && table.Length == 256 && fresh(table)
      invariant Filled(table[..], i)
      decreases 256 - i
    {
      var crc := i;
      for j := 0 to 8
        invariant BitSteps(crc, 8 - j) == Entry(i)
      {
        crc := if Odd(crc) then Xor(Shr(crc), POLY) else Shr(crc);
      }
      IndexInRange(i);
      ghost var before := table[..];
      table[i as int] := crc;
      assert table[..] == before[i as int := crc];
      StoreFills(before, i);
      i := i + 1;
    }
  }

  /** The entries below `i` are in place. */
  ghost predicate Filled(table: seq<bv32>, i: bv32)
    requires |table| == 256
  {
    forall k: bv32 | k <= 255 && k < i :: TableAt(table, k)
  }

  lemma StoreKeeps(table: seq<bv32>, i: bv32, k: bv32)
    requires |table| == 256 && k < i <= 255 && TableAt(table, k)
    ensures 0 <= i as int < 256 && TableAt(table[i as int := Entry(i)], k)
  {
    IndexInRange(i);
    IndexInRange(k);
    hide Entry;
    if k as int == i as int {
      IndexInjective(k, i);
    }
  }

  lemma StoreFills(table: seq<bv32>, i: bv32)
    requires |table| == 256 && i <= 255 && Filled(table, i)
    ensures 0 <= i as int < 256 && Filled(table[i as int := Entry(i)], i + 1)
  {
    IndexInRange(i);
    var stored := table[i as int := Entry(i)];
    assert TableAt(stored, i);
    hide TableAt, Entry;
    forall k: bv32 | k <= 255 && k < i + 1
      ensures TableAt(stored, k)
    {
      if k != i {
        Below(i, k);
        StoreKeeps(table, i, k);
      }
    }
  }

  lemma Below(i: bv32, k: bv32)
    requires i <= 255 && k < i + 1 && k != i
    ensures k < i
  {
  }

  function LowByte(x: bv32): bv32 { x & 0xFF }

  function ByteStep(c: bv32, b: bv8): bv32 {
    Xor(Shr8(c), Entry(LowByte(Xor(c, b as bv32))))
  }

  lemma ByteStepDivides(c: bv32, b: bv8)
    ensures ByteStep(c, b) == Divide(c, ByteBits(b))
  {
    ByteShiftedOut(c, b);
    hide Xor, Shr8, LowByte;
    WordOfByte(b);
    DivideWord(c, ByteBits(b));
    StepsSplit(Xor(c, b as bv32));
  }

  lemma ByteShiftedOut(c: bv32, b: bv8)
    ensures Shr8(Xor(c, b as bv32)) == Shr8(c)
  {
  }

  lemma StepsSplit(x: bv32)
    ensures BitSteps(x, 8) == Xor(Shr8(x), BitSteps(LowByte(x), 8))
  {
    var hi := x & 0xFFFF_FF00;
    BytesRejoin(x);
    hide Xor, Shr8, LowByte, BitSteps;
    BitStepsLinear(hi, LowByte(x), 8);
    EvenSteps(hi);
  }

  lemma BytesRejoin(x: bv32)
    ensures Xor(x & 0xFFFF_FF00, LowByte(x)) == x
    ensures Shr8(x & 0xFFFF_FF00) == Shr8(x)
    ensures LowByte(x & 0xFFFF_FF00) == 0
  {
  }

  predicate EvenFor(x: bv32, n: nat)
    decreases n
  {
    n == 0 || (!Odd(x) && EvenFor(Shr(x), n - 1))
  }

  /** Steps over clear low bits only shift. */
  lemma {:induction false} EvenStepsShift(x: bv32, n: nat)
    requires EvenFor(x, n)
    ensures BitSteps(x, n) == ShrN(x, n)
    decreases n
  {
    hide Shr, Odd;
    if n > 0 {
      EvenStepsShift(Shr(x), n - 1);
    }
  }

  lemma EvenForFour(x: bv32, n: nat)
    requires x & 0xF == 0 && EvenFor(Shr4(x), n)
    ensures EvenFor(x, n + 4)
  {
    var a, b, c := Shr(x), Shr(Shr(x)), Shr(Shr(Shr(x)));
    ShiftsCompose(x);
    assert !Odd(x) && !Odd(a) && !Odd(b) && !Odd(c);
    hide Odd, Shr, Shr4;
    assert EvenFor(c, n + 1);
    assert EvenFor(b, n + 2);
    assert EvenFor(a, n + 3);
  }

  lemma EvenSteps(x: bv32)
    requires LowByte(x) == 0
    ensures BitSteps(x, 8) == Shr8(x)
  {
    LowNibbles(x);
    hide Shr4, Shr8, LowByte;
    EvenForFour(Shr4(x), 0);
    EvenForFour(x, 4);
    EvenStepsShift(x, 8);
    ShrN8(x);
  }

  lemma LowNibbles(x: bv32)
    ensures LowByte(x) == 0 ==> x & 0xF == 0 && Shr4(x) & 0xF == 0
  {
  }

  lemma WordOfByte(b: bv8)
    ensures Word(ByteBits(b)) == b as bv32
  {
    ShrN8(b as bv32);
    ByteIsShort(b);
    WordOfUnword(b as bv32, 8);
  }

  lemma ByteIsShort(b: bv8)
    ensures Shr8(b as bv32) == 0
  {
  }

  /** One iteration of the program's loop is one byte of the division. */
  lemma LoopStep(table: seq<bv32>, c: bv32, b: bv8)
    requires IsTable(table)
    ensures var i := LowByte(Xor(c, b as bv32));
            && i <= 255 && 0 <= i as int < 256
            && Xor(Shr8(c), table[i as int]) == Divide(c, ByteBits(b))
  {
    var i := LowByte(Xor(c, b as bv32));
    LowByteIndex(Xor(c, b as bv32));
    hide LowByte, Xor, Shr8, Divide, Entry;
    IndexInRange(i);
    assert TableAt(table, i);
    ByteStepDivides(c, b);
  }

  lemma LowByteIndex(x: bv32)
    ensures LowByte(x) <= 255
  {
  }

  method Hash(table: array<bv32>, data: seq<bv8>) returns (h: bv32)
    requires IsTable(table[..])
    ensures h == Crc(Bits(data))
  {
    assert table.Length == 256;
    hide Xor, Shr8, LowByte, Divide, IsTable, ByteBits, Bits;
    var crc := ALL_ONES;
    for k := 0 to |data|
      invariant Divide(crc, Bits(data[k..])) == Divide(ALL_ONES, Bits(data))
    {
      OneByteLess(table[..], crc, data, k);
      var i := LowByte(Xor(crc, data[k] as bv32));
      crc := Xor(Shr8(crc), table[i as int]);
    }
    DivideNothing(crc);
    h := Xor(crc, ALL_ONES);
  }

  lemma OneByteLess(table: seq<bv32>, c: bv32, data: seq<bv8>, k: nat)
    requires IsTable(table) && k < |data|
    ensures var i := LowByte(Xor(c, data[k] as bv32));
            && 0 <= i as int < 256 == |table|
            && Divide(Xor(Shr8(c), table[i as int]), Bits(data[k + 1..])) == Divide(c, Bits(data[k..]))
  {
    LoopStep(table, c, data[k]);
    BitsOfRest(data, k);
    hide Xor, Shr8, LowByte, Divide, ByteBits, Bits;
    DivideConcat(c, ByteBits(data[k]), Bits(data[k + 1..]));
  }

  lemma BitsOfRest(data: seq<bv8>, k: nat)
    requires k < |data|
    ensures Bits(data[k..]) == ByteBits(data[k]) + Bits(data[k + 1..])
  {
    assert data[k..][1..] == data[k + 1..];
  }

  lemma DivideNothing(c: bv32)
    ensures Divide(c, Bits([])) == c
  {
  }

  lemma {:induction false} BitsAt(data: seq<bv8>, i: nat)
    requires i < 8 * |data|
    ensures Bits(data)[i] == ByteBits(data[i / 8])[i % 8]
  {
    hide ByteBits;
    if i >= 8 {
      BitsAt(data[1..], i - 8);
      assert data[1..][(i - 8) / 8] == data[i / 8];
    }
  }

  lemma DifferentBytes(a: bv8, b: bv8) returns (j: nat)
    requires a != b
    ensures j < 8 && ByteBits(a)[j] != ByteBits(b)[j]
  {
    if ByteBits(a) == ByteBits(b) {
      WordOfByte(a);
      WordOfByte(b);
      ByteWidens(a, b);
      assert false;
    } else {
      j :| 0 <= j < 8 && ByteBits(a)[j] != ByteBits(b)[j];
    }
  }

  lemma ByteWidens(a: bv8, b: bv8)
    ensures a as bv32 == b as bv32 ==> a == b
  {
  }

  /**
   Two byte strings of equal length that differ, but only within four
   consecutive bytes, have different hashes.
   */
  lemma FourByteErrorsChangeTheHash(a: seq<bv8>, b: seq<bv8>, k: nat)
    requires |a| == |b| && a != b
    requires forall i | 0 <= i < |a| && a[i] != b[i] :: k <= i < k + 4
    ensures Crc(Bits(a)) != Crc(Bits(b))
  {
    hide ByteBits, Bits, Crc;
    var i :| 0 <= i < |a| && a[i] != b[i];
    var j := DifferentBytes(a[i], b[i]);
    BitsAt(a, 8 * i + j);
    BitsAt(b, 8 * i + j);
    assert Bits(a)[8 * i + j] != Bits(b)[8 * i + j];
    forall m | 0 <= m < 8 * |a| && Bits(a)[m] != Bits(b)[m]
      ensures 8 * k <= m < 8 * k + 32
    {
      BitsAt(a, m);
      BitsAt(b, m);
      assert a[m / 8] != b[m / 8];
    }
    BurstsChangeTheCrc(Bits(a), Bits(b), 8 * k);
  }
}
