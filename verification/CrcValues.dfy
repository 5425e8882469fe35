/**
 * A published value of CRC-32C (appendix B.4 of RFC 3720), with the register as a machine word that is stepped by shift
 * and exclusive or.
 */
module CrcValues {
  import opened Bytes
  import opened Crc32c

  /** The number that the low n bits of a machine word stand for. */
  function Value(c: bv32, n: nat): nat {
    if n == 0 then 0 else (if c & 1 == 1 then 1 else 0) + 2 * Value(c >> 1, n - 1)
  }

  function WordStep(c: bv32): bv32 {
    if c & 1 == 1 then (c >> 1) ^ 0x82f6_3b78 else c >> 1
  }

  function WordByte(c: bv32): bv32 {
    WordStep(WordStep(WordStep(WordStep(WordStep(WordStep(WordStep(WordStep(c))))))))
  }

  function WordBytes(c: bv32, n: nat): bv32
    decreases n
  {
    if n == 0 then c else WordBytes(WordByte(c), n - 1)
  }

  // ---- words and the numbers they stand for ----

  lemma {:induction false} ValueXor(a: bv32, b: bv32, n: nat)
    ensures Value(a ^ b, n) == Xor(Value(a, n), Value(b, n))
    decreases n
  {
    hide Xor;
    if n == 0 {
      XorZero(0);
    } else {
      ShiftXor(a, b);
      ValueXor(a >> 1, b >> 1, n - 1);
      XorHalves(Value(a, n), Value(b, n));
      ValueHalves(a, n);
      ValueHalves(b, n);
      ValueHalves(a ^ b, n);
      SameHalves(Value(a ^ b, n), Xor(Value(a, n), Value(b, n)));
    }
  }

  lemma ShiftXor(a: bv32, b: bv32)
    ensures (a ^ b) >> 1 == (a >> 1) ^ (b >> 1)
    ensures (a ^ b) & 1 == 1 <==> (a & 1 == 1) != (b & 1 == 1)
  {
  }

  lemma ValueHalves(c: bv32, n: nat)
    requires n > 0
    ensures Value(c, n) % 2 == (if c & 1 == 1 then 1 else 0) && Value(c, n) / 2 == Value(c >> 1, n - 1)
  {
  }

  lemma ValueUnfolds(c: bv32, n: nat)
    ensures Value(c, n + 1) == (if c & 1 == 1 then 1 else 0) + 2 * Value(c >> 1, n) && Value(c, 0) == 0
  {
  }

  // ---- the numbers that some words stand for ----

  lemma TwoBits(c: bv32, n: nat)
    ensures Value(c, n + 2) == (if c & 1 == 1 then 1 else 0) + (if c & 2 == 2 then 2 else 0) + 4 * Value(c >> 2, n)
  {
    ValueUnfolds(c, n + 1);
    ValueUnfolds(c >> 1, n);
    NextBit(c);
  }

  lemma NextBit(c: bv32)
    ensures (c >> 1) >> 1 == c >> 2 && ((c >> 1) & 1 == 1 <==> c & 2 == 2)
  {
  }

  function Digit(c: bv32): nat {
    (if c & 1 == 1 then 1 else 0) + (if c & 2 == 2 then 2 else 0) + (if c & 4 == 4 then 4 else 0) + if c & 8 == 8 then 8 else 0
  }

  lemma FourBits(c: bv32, n: nat)
    ensures Value(c, n + 4) == Digit(c) + 16 * Value(c >> 4, n)
  {
    hide Value;
    TwoBits(c, n + 2);
    TwoBits(c >> 2, n);
    NextTwoBits(c);
  }

  lemma NextTwoBits(c: bv32)
    ensures (c >> 2) >> 2 == c >> 4 && ((c >> 2) & 1 == 1 <==> c & 4 == 4) && ((c >> 2) & 2 == 2 <==> c & 8 == 8)
  {
  }

  lemma PolyValue()
    ensures Value(0x82f6_3b78, 32) == 0x82f6_3b78
  {
    hide Value;
    FourBits(0x82f6_3b78, 28);
    FourBits(0x82f_63b7, 24);
    FourBits(0x82_f63b, 20);
    FourBits(0x8_2f63, 16);
    FourBits(0x82f6, 12);
    FourBits(0x82f, 8);
    FourBits(0x82, 4);
    FourBits(0x8, 0);
    ValueUnfolds(0, 0);
  }

  lemma OnesValue()
    ensures Value(0xffff_ffff, 32) == 0xffff_ffff
  {
    hide Value;
    FourBits(0xffff_ffff, 28);
    FourBits(0xfff_ffff, 24);
    FourBits(0xff_ffff, 20);
    FourBits(0xf_ffff, 16);
    FourBits(0xffff, 12);
    FourBits(0xfff, 8);
    FourBits(0xff, 4);
    FourBits(0xf, 0);
    ValueUnfolds(0, 0);
  }

  lemma ZerosValue()
    ensures Value(0x8a91_36aa, 32) == 0x8a91_36aa
  {
    hide Value;
    FourBits(0x8a91_36aa, 28);
    FourBits(0x8a9_136a, 24);
    FourBits(0x8a_9136, 20);
    FourBits(0x8_a913, 16);
    FourBits(0x8a91, 12);
    FourBits(0x8a9, 8);
    FourBits(0x8a, 4);
    FourBits(0x8, 0);
    ValueUnfolds(0, 0);
  }

  // ---- the register ----

  /** The word has no bit from the n-th on. */
  predicate Fits(c: bv32, n: nat) {
    if n == 0 then c == 0 else Fits(c >> 1, n - 1)
  }

  lemma {:induction false} ValueNarrows(c: bv32, n: nat)
    requires Fits(c, n)
    ensures Value(c, n + 1) == Value(c, n)
    decreases n
  {
    if n == 0 {
      assert c == 0;
      ValueUnfolds(0, 0);
    } else {
      ValueNarrows(c >> 1, n - 1);
    }
  }

  lemma FourFewer(c: bv32, n: nat)
    ensures Fits(c, n + 4) == Fits(c >> 4, n)
  {
    OneByOne(c);
    assert Fits(c, n + 4) == Fits(c >> 1, n + 3);
    assert Fits(c >> 1, n + 3) == Fits(c >> 2, n + 2);
    assert Fits(c >> 2, n + 2) == Fits(c >> 3, n + 1);
  }

  lemma OneByOne(c: bv32)
    ensures (c >> 1) >> 1 == c >> 2 && (c >> 2) >> 1 == c >> 3 && (c >> 3) >> 1 == c >> 4
  {
  }

  lemma EightFewer(c: bv32, n: nat)
    ensures Fits(c, n + 8) == Fits(c >> 8, n)
  {
    hide Fits;
    FourFewer(c, n + 4);
    FourFewer(c >> 4, n);
    assert (c >> 4) >> 4 == c >> 8;
  }

  lemma AllFit(c: bv32)
    ensures Fits(c, 32)
  {
    hide Fits;
    EightFewer(c, 24);
    EightFewer(c >> 8, 16);
    HalfFits((c >> 8) >> 8);
    SixteenLeft(c);
  }

  lemma SixteenLeft(c: bv32)
    ensures (((c >> 8) >> 8) >> 8) >> 8 == 0
  {
  }

  lemma HalfFits(c: bv32)
    requires (c >> 8) >> 8 == 0
    ensures Fits(c, 16)
  {
    hide Fits;
    EightFewer(c, 8);
    EightFewer(c >> 8, 0);
    NoBits();
  }

  lemma NoBits()
    ensures Fits(0, 0)
  {
  }

  /** A word that has been shifted down has no top bit. */
  lemma ShiftedFits(c: bv32)
    ensures Fits(c >> 1, 31)
  {
    AllFit(c);
  }

  /** Stepping the word steps the register. */
  lemma WordStepIs(c: bv32)
    ensures Value(WordStep(c), 32) == BitStep(Value(c, 32))
  {
    hide Value, Xor;
    ValueUnfolds(c, 31);
    ShiftedFits(c);
    ValueNarrows(c >> 1, 31);
    PolyValue();
    ValueXor(c >> 1, 0x82f6_3b78, 32);
  }

  lemma WordByteIs(c: bv32)
    ensures Value(WordByte(c), 32) == Zeros(Value(c, 32), 8)
  {
    hide Value, WordStep, BitStep;
    var c1 := WordStep(c);
    var c2 := WordStep(c1);
    var c3 := WordStep(c2);
    var c4 := WordStep(c3);
    WordStepIs(c);
    WordStepIs(c1);
    WordStepIs(c2);
    WordStepIs(c3);
    WordStepIs(c4);
    WordStepIs(WordStep(c4));
    WordStepIs(WordStep(WordStep(c4)));
    WordStepIs(WordStep(WordStep(WordStep(c4))));
    FourSteps(Value(c, 32), 4);
    FourSteps(Value(c4, 32), 0);
  }

  lemma FourSteps(c: nat, n: nat)
    ensures Zeros(c, n + 4) == Zeros(BitStep(BitStep(BitStep(BitStep(c)))), n) && Zeros(c, 0) == c
  {
    hide BitStep;
    var c2 := BitStep(BitStep(c));
    assert Zeros(c, n + 4) == Zeros(BitStep(c), n + 3) == Zeros(c2, n + 2);
    assert Zeros(c2, n + 2) == Zeros(BitStep(c2), n + 1);
  }

  lemma {:induction false} WordBytesAre(c: bv32, n: nat)
    ensures Value(WordBytes(c, n), 32) == Raw(Value(c, 32), seq(n, _ => 0))
    decreases n
  {
    hide Value, WordByte, Zeros;
    if n > 0 {
      WordByteIs(c);
      XorZero(Value(c, 32));
      WordBytesAre(WordByte(c), n - 1);
      assert seq<Byte>(n, _ => 0)[1..] == seq<Byte>(n - 1, _ => 0);
    }
  }

  // ---- thirty-two zero bytes ----

  lemma EightBytes(c: bv32, n: nat)
    ensures WordBytes(c, n + 8)
         == WordBytes(WordByte(WordByte(WordByte(WordByte(WordByte(WordByte(WordByte(WordByte(c)))))))), n)
  {
    hide WordByte;
    var c4 := WordByte(WordByte(WordByte(WordByte(c))));
    FourBytes(c, n + 4);
    FourBytes(c4, n);
  }

  lemma FourBytes(c: bv32, n: nat)
    ensures WordBytes(c, n + 4) == WordBytes(WordByte(WordByte(WordByte(WordByte(c)))), n)
  {
    hide WordByte;
    var c2 := WordByte(WordByte(c));
    assert WordBytes(c, n + 4) == WordBytes(WordByte(c), n + 3) == WordBytes(c2, n + 2);
    assert WordBytes(c2, n + 2) == WordBytes(WordByte(c2), n + 1);
  }

  lemma Bytes1To8()
    ensures WordBytes(0xffff_ffff, 32) == WordBytes(0x73d7_4d75, 24)
  {
    assert WordByte(0xffff_ffff) == 0xad82_acae;
    assert WordByte(0xad82_acae) == 0xe9e_882d;
    assert WordByte(0xe9e_882d) == 0x9f9b_5c85;
    assert WordByte(0x9f9b_5c85) == 0xb798_b438;
    assert WordByte(0xb798_b438) == 0xba8d_89ca;
    assert WordByte(0xba8d_89ca) == 0xa8d5_8375;
    assert WordByte(0xa8d5_8375) == 0x44c1_9592;
    assert WordByte(0x44c1_9592) == 0x73d7_4d75;
    hide WordByte;
    EightBytes(0xffff_ffff, 24);
  }

  lemma Bytes9To16()
    ensures WordBytes(0x73d7_4d75, 24) == WordBytes(0xbd8f_6515, 16)
  {
    assert WordByte(0x73d7_4d75) == 0x441a_975c;
    assert WordByte(0x441a_975c) == 0x1c22_0f94;
    assert WordByte(0x1c22_0f94) == 0x552e_4907;
    assert WordByte(0x552e_4907) == 0xd49f_4aa2;
    assert WordByte(0xd49f_4aa2) == 0x43a4_5a1b;
    assert WordByte(0x43a4_5a1b) == 0x8994_c80e;
    assert WordByte(0x8994_c80e) == 0xacf1_2bef;
    assert WordByte(0xacf1_2bef) == 0xbd8f_6515;
    hide WordByte;
    EightBytes(0x73d7_4d75, 16);
  }

  lemma Bytes17To24()
    ensures WordBytes(0xbd8f_6515, 16) == WordBytes(0x7b04_1311, 8)
  {
    assert WordByte(0xbd8f_6515) == 0x2512_5c16;
    assert WordByte(0x2512_5c16) == 0x36da_32db;
    assert WordByte(0x36da_32db) == 0x4a6c_90a2;
    assert WordByte(0x4a6c_90a2) == 0x433a_a9c1;
    assert WordByte(0x433a_a9c1) == 0x31a5_9f6e;
    assert WordByte(0x31a5_9f6e) == 0xcd8f_89da;
    assert WordByte(0xcd8f_89da) == 0xb8fc_461a;
    assert WordByte(0xb8fc_461a) == 0x7b04_1311;
    hide WordByte;
    EightBytes(0xbd8f_6515, 8);
  }

  lemma Bytes25To32()
    ensures WordBytes(0x7b04_1311, 8) == WordBytes(0x756e_c955, 0)
  {
    assert WordByte(0x7b04_1311) == 0xe24e_407f;
    assert WordByte(0xe24e_407f) == 0x2f69_2669;
    assert WordByte(0x2f69_2669) == 0x195b_2188;
    assert WordByte(0x195b_2188) == 0x836_3896;
    assert WordByte(0x836_3896) == 0xb401_2dc7;
    assert WordByte(0xb401_2dc7) == 0x17f3_4302;
    assert WordByte(0x17f3_4302) == 0xe12c_83b4;
    assert WordByte(0xe12c_83b4) == 0x756e_c955;
    hide WordByte;
    EightBytes(0x7b04_1311, 0);
  }

  /** Thirty-two zero bytes have the checksum 0x8A9136AA. */
  lemma ZeroBytes()
    ensures Crc(0, seq(32, _ => 0)) == 0x8a91_36aa
  {
    hide Value, WordByte, Raw, Xor;
    Bytes1To8();
    Bytes9To16();
    Bytes17To24();
    Bytes25To32();
    var last: bv32 := 0x756e_c955;
    assert WordBytes(0xffff_ffff, 32) == last;
    WordBytesAre(0xffff_ffff, 32);
    OnesValue();
    XorZero(0xffff_ffff);
    ValueXor(last, 0xffff_ffff, 32);
    assert last ^ 0xffff_ffff == 0x8a91_36aa;
    ZerosValue();
  }
}
