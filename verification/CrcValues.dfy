/** Values that tell the CRC-32 of IEEE 802.3 from every other: its residue and its check value. */
module CrcValues {
  import opened Crc32

  lemma EightSteps(x: bv32)
    ensures BitSteps(x, 8) == BitStep(BitStep(BitStep(BitStep(BitStep(BitStep(BitStep(BitStep(x))))))))
  {
    hide BitStep;
    var b, d := BitStep(BitStep(x)), BitStep(BitStep(BitStep(BitStep(x))));
    var f := BitStep(BitStep(d));
    assert BitSteps(f, 2) == BitStep(BitStep(f));
    assert BitSteps(d, 4) == BitSteps(f, 2);
    assert BitSteps(b, 6) == BitSteps(d, 4);
  }

  lemma ByteSteps(c: bv32, b: bv8)
    ensures Divide(c, ByteBits(b)) == BitSteps(Xor(c, b as bv32), 8)
  {
    hide Xor, Divide, BitSteps, Word;
    WordOfByte(b);
    DivideWord(c, ByteBits(b));
  }

  // ---------- The residue ----------

  lemma {:induction false} StepsAdd(x: bv32, m: nat, n: nat)
    ensures BitSteps(x, m + n) == BitSteps(BitSteps(x, m), n)
    decreases m
  {
    if m > 0 {
      hide BitStep;
      StepsAdd(BitStep(x), m - 1, n);
    }
  }

  lemma OnesAfter8()
    ensures BitSteps(0xFFFF_FFFF, 8) == 0x2DFD_1072
  {
    EightSteps(0xFFFF_FFFF);
  }

  lemma OnesAfter16()
    ensures BitSteps(0x2DFD_1072, 8) == 0xBE26_ED00
  {
    EightSteps(0x2DFD_1072);
  }

  lemma OnesAfter24()
    ensures BitSteps(0xBE26_ED00, 8) == 0x00BE_26ED
  {
    EightSteps(0xBE26_ED00);
  }

  lemma OnesAfter32()
    ensures BitSteps(0x00BE_26ED, 8) == 0xDEBB_20E3
  {
    EightSteps(0x00BE_26ED);
  }

  lemma OnesAfterAWord()
    ensures BitSteps(0xFFFF_FFFF, 32) == 0xDEBB_20E3
  {
    hide BitStep, BitSteps;
    OnesAfter8();
    OnesAfter16();
    OnesAfter24();
    OnesAfter32();
    StepsAdd(0xFFFF_FFFF, 8, 24);
    StepsAdd(0x2DFD_1072, 8, 16);
    StepsAdd(0xBE26_ED00, 8, 8);
  }

  lemma WordAgainstItself(c: bv32)
    ensures Xor(c, Xor(c, ALL_ONES)) == 0xFFFF_FFFF
    ensures Xor(0xDEBB_20E3, ALL_ONES) == 0x2144_DF1C
  {
  }

  /**
   The residue: a message followed by its own CRC, first bit first, always has
   the same CRC, and a receiver needs no other check.
   */
  lemma Residue(message: seq<bool>)
    ensures Crc(message + Unword(Crc(message), 32)) == 0x2144_DF1C
  {
    hide Xor, Divide, BitSteps, Unword, Word, ShrN;
    var c := Divide(ALL_ONES, message);
    var w := Crc(message);
    ShrN31(w);
    WordOfUnword(w, 32);
    DivideConcat(ALL_ONES, message, Unword(w, 32));
    DivideWord(c, Unword(w, 32));
    WordAgainstItself(c);
    OnesAfterAWord();
  }

  // ---------- The check value ----------

  lemma DigitOne()
    ensures Divide(0xFFFF_FFFF, ByteBits(0x31)) == 0x7C23_1048
  {
    ByteSteps(0xFFFF_FFFF, 0x31);
    hide Divide;
    assert Xor(0xFFFF_FFFF, 0x31) == 0xFFFF_FFCE;
    EightSteps(0xFFFF_FFCE);
  }

  lemma DigitTwo()
    ensures Divide(0x7C23_1048, ByteBits(0x32)) == 0xB0AC_BB32
  {
    ByteSteps(0x7C23_1048, 0x32);
    hide Divide;
    assert Xor(0x7C23_1048, 0x32) == 0x7C23_107A;
    EightSteps(0x7C23_107A);
  }

  lemma DigitThree()
    ensures Divide(0xB0AC_BB32, ByteBits(0x33)) == 0x77B7_9C2D
  {
    ByteSteps(0xB0AC_BB32, 0x33);
    hide Divide;
    assert Xor(0xB0AC_BB32, 0x33) == 0xB0AC_BB01;
    EightSteps(0xB0AC_BB01);
  }

  lemma DigitFour()
    ensures Divide(0x77B7_9C2D, ByteBits(0x34)) == 0x641C_1F5C
  {
    ByteSteps(0x77B7_9C2D, 0x34);
    hide Divide;
    assert Xor(0x77B7_9C2D, 0x34) == 0x77B7_9C19;
    EightSteps(0x77B7_9C19);
  }

  lemma DigitFive()
    ensures Divide(0x641C_1F5C, ByteBits(0x35)) == 0x340A_C5E3
  {
    ByteSteps(0x641C_1F5C, 0x35);
    hide Divide;
    assert Xor(0x641C_1F5C, 0x35) == 0x641C_1F69;
    EightSteps(0x641C_1F69);
  }

  lemma DigitSix()
    ensures Divide(0x340A_C5E3, ByteBits(0x36)) == 0xF68D_2C9E
  {
    ByteSteps(0x340A_C5E3, 0x36);
    hide Divide;
    assert Xor(0x340A_C5E3, 0x36) == 0x340A_C5D5;
    EightSteps(0x340A_C5D5);
  }

  lemma DigitSeven()
    ensures Divide(0xF68D_2C9E, ByteBits(0x37)) == 0xAFFC_9660
  {
    ByteSteps(0xF68D_2C9E, 0x37);
    hide Divide;
    assert Xor(0xF68D_2C9E, 0x37) == 0xF68D_2CA9;
    EightSteps(0xF68D_2CA9);
  }

  lemma DigitEight()
    ensures Divide(0xAFFC_9660, ByteBits(0x38)) == 0x651F_2550
  {
    ByteSteps(0xAFFC_9660, 0x38);
    hide Divide;
    assert Xor(0xAFFC_9660, 0x38) == 0xAFFC_9658;
    EightSteps(0xAFFC_9658);
  }

  lemma DigitNine()
    ensures Divide(0x651F_2550, ByteBits(0x39)) == 0x340B_C6D9
  {
    ByteSteps(0x651F_2550, 0x39);
    hide Divide;
    assert Xor(0x651F_2550, 0x39) == 0x651F_2569;
    EightSteps(0x651F_2569);
  }

  const DIGITS: seq<bv8> := [0x31, 0x32, 0x33, 0x34, 0x35, 0x36, 0x37, 0x38, 0x39]

  lemma NextByte(c: bv32, data: seq<bv8>, k: nat)
    requires k < |data|
    ensures Divide(c, Bits(data[k..])) == Divide(Divide(c, ByteBits(data[k])), Bits(data[k + 1..]))
  {
    hide Divide, ByteBits, Bits;
    BitsOfRest(data, k);
    DivideConcat(c, ByteBits(data[k]), Bits(data[k + 1..]));
  }

  lemma Digits()
    ensures |DIGITS| == 9
    ensures DIGITS[0] == 0x31 && DIGITS[1] == 0x32 && DIGITS[2] == 0x33
    ensures DIGITS[3] == 0x34 && DIGITS[4] == 0x35 && DIGITS[5] == 0x36
    ensures DIGITS[6] == 0x37 && DIGITS[7] == 0x38 && DIGITS[8] == 0x39
  {
  }

  lemma FirstThree()
    ensures Divide(0xFFFF_FFFF, Bits(DIGITS[0..])) == Divide(0x77B7_9C2D, Bits(DIGITS[3..]))
  {
    Digits();
    hide *;
    DigitOne();
    NextByte(0xFFFF_FFFF, DIGITS, 0);
    DigitTwo();
    NextByte(0x7C23_1048, DIGITS, 1);
    DigitThree();
    NextByte(0xB0AC_BB32, DIGITS, 2);
  }

  lemma NextThree()
    ensures Divide(0x77B7_9C2D, Bits(DIGITS[3..])) == Divide(0xF68D_2C9E, Bits(DIGITS[6..]))
  {
    Digits();
    hide *;
    DigitFour();
    NextByte(0x77B7_9C2D, DIGITS, 3);
    DigitFive();
    NextByte(0x641C_1F5C, DIGITS, 4);
    DigitSix();
    NextByte(0x340A_C5E3, DIGITS, 5);
  }

  lemma LastThree()
    ensures Divide(0xF68D_2C9E, Bits(DIGITS[6..])) == Divide(0x340B_C6D9, Bits(DIGITS[9..]))
  {
    Digits();
    hide *;
    DigitSeven();
    NextByte(0xF68D_2C9E, DIGITS, 6);
    DigitEight();
    NextByte(0xAFFC_9660, DIGITS, 7);
    DigitNine();
    NextByte(0x651F_2550, DIGITS, 8);
  }

  /** The check value: the hash of the ASCII digits 1 to 9. */
  lemma CheckValue()
    ensures Crc(Bits([0x31, 0x32, 0x33, 0x34, 0x35, 0x36, 0x37, 0x38, 0x39])) == 0xCBF4_3926
  {
    assert Xor(0x340B_C6D9, ALL_ONES) == 0xCBF4_3926;
    assert DIGITS[0..] == DIGITS && DIGITS[9..] == [];
    hide Divide, ByteBits, Bits, Xor;
    FirstThree();
    NextThree();
    LastThree();
    DivideNothing(0x340B_C6D9);
  }
}
