/**
 * What CRC-32C is: the remainder of the message, as a polynomial over GF(2), modulo x^32 + 0x1EDC6F41 (section 12.1 of
 * RFC 3720). Nothing here refers to the register's feedback word or to how it is stepped.
 */
module CrcPolynomial {
  import opened Bytes
  import opened Crc32c

  /** x^32 + 0x1EDC6F41: bit i is the coefficient of x^i, and addition is exclusive or. */
  const GENERATOR: nat := 0x1_1EDC_6F41

  /** Product of polynomials. */
  function Product(a: nat, b: nat): nat
    decreases a
  {
    if a == 0 then 0 else Xor(if a % 2 == 1 then b else 0, 2 * Product(a / 2, b))
  }

  /** Product with x^n. */
  function TimesX(a: nat, n: nat): nat {
    a * Pow2(n)
  }

  /** The low n bits in the opposite order. */
  function Reflect(w: nat, n: nat): (r: nat)
    ensures r < Pow2(n)
  {
    if n == 0 then 0 else w % 2 * Pow2(n - 1) + Reflect(w / 2, n - 1)
  }

  /** The message as a polynomial: its first bit, the low bit of the first byte, has the highest power. */
  function Message(data: Bytes): nat
    decreases |data|
  {
    if data == [] then 0 else Xor(TimesX(Reflect(data[0], 8), 8 * (|data| - 1)), Message(data[1..]))
  }

  /** r is the remainder of a modulo the generator. */
  ghost predicate IsRemainder(r: nat, a: nat) {
    r < 0x1_0000_0000 && exists q :: a == Xor(Product(q, GENERATOR), r)
  }

  // ---- products ----

  lemma {:induction false} ProductAdds(a: nat, b: nat, g: nat)
    ensures Product(Xor(a, b), g) == Xor(Product(a, g), Product(b, g))
    decreases a + b
  {
    if a == 0 || b == 0 {
      XorZero(a);
      XorZero(b);
      XorZero(Product(a, g));
      XorZero(Product(b, g));
    } else {
      XorHalves(a, b);
      ProductAdds(a / 2, b / 2, g);
      var p, q := Product(a / 2, g), Product(b / 2, g);
      var x, y := if a % 2 == 1 then g else 0, if b % 2 == 1 then g else 0;
      ProductHalves(a, g);
      ProductHalves(b, g);
      ProductHalves(Xor(a, b), g);
      XorDoubles(p, q);
      XorRegroups(x, 2 * p, y, 2 * q);
      XorSelf(g);
      XorZero(g);
      XorZero(0);
    }
  }

  lemma ProductHalves(a: nat, g: nat)
    ensures Product(a, g) == Xor(if a % 2 == 1 then g else 0, 2 * Product(a / 2, g))
  {
    XorZero(0);
  }

  lemma XorDoubles(a: nat, b: nat)
    ensures Xor(2 * a, 2 * b) == 2 * Xor(a, b)
  {
    hide Xor;
    XorHalves(2 * a, 2 * b);
    SameHalves(Xor(2 * a, 2 * b), 2 * Xor(a, b));
  }

  lemma {:induction false} ProductShifts(a: nat, g: nat, n: nat)
    ensures Product(a * Pow2(n), g) == Product(a, g) * Pow2(n)
    decreases n
  {
    hide Xor, Product;
    if n > 0 {
      ProductShifts(a, g, n - 1);
      TimesPow2(a, n);
      TimesPow2(Product(a, g), n);
      ProductHalves(a * Pow2(n), g);
      XorZero(2 * Product(a * Pow2(n - 1), g));
    }
  }

  lemma {:induction false} XorShifts(a: nat, b: nat, n: nat)
    ensures Xor(a * Pow2(n), b * Pow2(n)) == Xor(a, b) * Pow2(n)
    decreases n
  {
    hide Xor;
    if n > 0 {
      XorShifts(a, b, n - 1);
      TimesPow2(a, n);
      TimesPow2(b, n);
      TimesPow2(Xor(a, b), n);
      XorDoubles(a * Pow2(n - 1), b * Pow2(n - 1));
    }
  }

  lemma SumTimesX(a: nat, b: nat, n: nat)
    ensures TimesX(Xor(a, b), n) == Xor(TimesX(a, n), TimesX(b, n))
  {
    hide Xor;
    XorShifts(a, b, n);
  }

  lemma TimesXTwice(a: nat, m: nat, n: nat)
    ensures TimesX(TimesX(a, m), n) == TimesX(a, m + n)
  {
    Pow2Add(m, n);
    Regroup(a, Pow2(m), Pow2(n));
  }

  lemma Regroup(a: nat, p: nat, q: nat)
    ensures a * p * q == a * (p * q)
  {
  }

  lemma TimesXOnce(a: nat, n: nat)
    ensures TimesX(a, 0) == a && TimesX(2 * a, n) == TimesX(a, n + 1)
  {
    TimesPow2(a, n + 1);
    Regroup(2, a, Pow2(n));
  }

  /** A product with the generator has a power of x from x^32 on, unless it is zero. */
  lemma {:induction false} ProductIsHigh(q: nat)
    requires q > 0
    ensures Product(q, GENERATOR) >= 0x1_0000_0000
  {
    ProductHalves(q, GENERATOR);
    if q == 1 {
      XorZero(GENERATOR);
    } else {
      ProductIsHigh(q / 2);
      var high := 2 * Product(q / 2, GENERATOR);
      Pow2Word();
      if q % 2 == 1 {
        XorIsHigh(GENERATOR, high, 33);
      } else {
        XorZero(high);
      }
    }
  }

  lemma {:induction false} XorIsHigh(a: nat, b: nat, n: nat)
    requires a < Pow2(n) <= b
    ensures Xor(a, b) >= Pow2(n)
    decreases n
  {
    XorHalves(a, b);
    if n > 0 {
      XorIsHigh(a / 2, b / 2, n - 1);
    } else {
      XorZero(b);
    }
  }

  /** There is only one remainder. */
  lemma RemainderIsUnique(r: nat, r': nat, a: nat)
    requires IsRemainder(r, a) && IsRemainder(r', a)
    ensures r == r'
  {
    hide Xor, Product;
    var q: nat :| a == Xor(Product(q, GENERATOR), r);
    var q': nat :| a == Xor(Product(q', GENERATOR), r');
    var p, p' := Product(q, GENERATOR), Product(q', GENERATOR);
    ProductAdds(q, q', GENERATOR);
    XorRegroups(p, r, p', r');
    XorSelf(a);
    SameIfZero(Xor(p, p'), Xor(r, r'));
    XorWord(r, r');
    if Xor(q, q') > 0 {
      ProductIsHigh(Xor(q, q'));
    } else {
      assert Product(0, GENERATOR) == 0 by { NoProduct(); }
      SameIfZero(r, r');
    }
  }

  lemma NoProduct()
    ensures Product(0, GENERATOR) == 0
  {
  }

  lemma SameIfZero(a: nat, b: nat)
    requires Xor(a, b) == 0
    ensures a == b
  {
    XorTwice(a, b);
    XorZero(b);
  }

  // ---- equal up to a multiple of the generator ----

  ghost predicate Congruent(a: nat, b: nat) {
    exists q :: a == Xor(Product(q, GENERATOR), b)
  }

  lemma CongruentSelf(a: nat)
    ensures Congruent(a, a)
  {
    NoProduct();
    XorZero(a);
    assert a == Xor(Product(0, GENERATOR), a);
  }

  lemma CongruentBy(a: nat, q: nat, b: nat)
    requires a == Xor(Product(q, GENERATOR), b)
    ensures Congruent(a, b)
  {
  }

  lemma CongruentTransitive(a: nat, b: nat, c: nat)
    requires Congruent(a, b) && Congruent(b, c)
    ensures Congruent(a, c)
  {
    hide Xor, Product;
    var q: nat :| a == Xor(Product(q, GENERATOR), b);
    var q': nat :| b == Xor(Product(q', GENERATOR), c);
    ProductAdds(q, q', GENERATOR);
    XorAssociates(Product(q, GENERATOR), Product(q', GENERATOR), c);
    CongruentBy(a, Xor(q, q'), c);
  }

  lemma CongruentShifts(a: nat, b: nat, n: nat)
    requires Congruent(a, b)
    ensures Congruent(TimesX(a, n), TimesX(b, n))
  {
    hide Xor, Product;
    var q: nat :| a == Xor(Product(q, GENERATOR), b);
    SumTimesX(Product(q, GENERATOR), b, n);
    ProductShifts(q, GENERATOR, n);
    CongruentBy(TimesX(a, n), TimesX(q, n), TimesX(b, n));
  }

  lemma CongruentAdds(a: nat, b: nat, c: nat)
    requires Congruent(a, b)
    ensures Congruent(Xor(a, c), Xor(b, c))
  {
    hide Xor, Product;
    var q: nat :| a == Xor(Product(q, GENERATOR), b);
    XorAssociates(Product(q, GENERATOR), b, c);
    CongruentBy(Xor(a, c), q, Xor(b, c));
  }

  // ---- reflection ----

  lemma {:induction false} ReflectWider(w: nat, n: nat)
    requires w < Pow2(n)
    ensures Reflect(w, n + 1) == 2 * Reflect(w, n)
    decreases n
  {
    if n > 0 {
      ReflectWider(w / 2, n - 1);
      TimesPow2(w % 2, n);
    }
  }

  lemma {:induction false} ReflectWiderBy(w: nat, n: nat, k: nat)
    requires w < Pow2(n)
    ensures Reflect(w, n + k) == TimesX(Reflect(w, n), k)
    decreases k
  {
    hide Reflect;
    if k == 0 {
      TimesXOnce(Reflect(w, n), 0);
    } else {
      ReflectWiderBy(w, n, k - 1);
      Pow2Grows(n, n + k - 1);
      ReflectWider(w, n + k - 1);
      TimesPow2(Reflect(w, n), k);
    }
  }

  /** Words put together from a high bit and low bits add part by part. */
  lemma JoinAdds(a: nat, x: nat, b: nat, y: nat, n: nat)
    requires x < Pow2(n) && y < Pow2(n)
    ensures Xor(a * Pow2(n) + x, b * Pow2(n) + y) == Xor(a, b) * Pow2(n) + Xor(x, y)
  {
    hide Xor, Pow2;
    XorBound(x, y, n);
    XorDisjoint(a, x, n);
    XorDisjoint(b, y, n);
    XorDisjoint(Xor(a, b), Xor(x, y), n);
    XorRegroups(a * Pow2(n), x, b * Pow2(n), y);
    XorShifts(a, b, n);
  }

  lemma {:induction false} ReflectAdds(a: nat, b: nat, n: nat)
    ensures Reflect(Xor(a, b), n) == Xor(Reflect(a, n), Reflect(b, n))
    decreases n
  {
    hide Xor, Pow2;
    if n == 0 {
      XorZero(0);
    } else {
      XorHalves(a, b);
      ReflectAdds(a / 2, b / 2, n - 1);
      JoinAdds(a % 2, Reflect(a / 2, n - 1), b % 2, Reflect(b / 2, n - 1), n - 1);
      XorOfBits(a % 2, b % 2);
    }
  }

  lemma XorOfBits(a: nat, b: nat)
    requires a < 2 && b < 2
    ensures Xor(a, b) == if a == b then 0 else 1
  {
    XorZero(a);
    XorZero(b);
    XorSelf(a);
  }

  /** A word is determined by its reflection. */
  lemma {:induction false} ReflectIsInjective(a: nat, b: nat, n: nat)
    requires a < Pow2(n) && b < Pow2(n) && Reflect(a, n) == Reflect(b, n)
    ensures a == b
    decreases n
  {
    if n > 0 {
      HalfBelow(a, n);
      HalfBelow(b, n);
      SameParts(a % 2, Reflect(a / 2, n - 1), b % 2, Reflect(b / 2, n - 1), Pow2(n - 1));
      ReflectIsInjective(a / 2, b / 2, n - 1);
      SameHalves(a, b);
    }
  }

  lemma SameParts(a: nat, x: nat, b: nat, y: nat, p: nat)
    requires a < 2 && b < 2 && x < p && y < p && a * p + x == b * p + y
    ensures a == b && x == y
  {
    assert a * p == (if a == 1 then p else 0) && b * p == if b == 1 then p else 0;
  }

  lemma {:induction false} ReflectSplits(high: nat, low: nat, m: nat, k: nat)
    requires low < Pow2(m)
    ensures Reflect(high * Pow2(m) + low, m + k) == Reflect(low, m) * Pow2(k) + Reflect(high, k)
    decreases m
  {
    hide Xor;
    if m > 0 {
      var h := high * Pow2(m - 1);
      TimesPow2(high, m);
      HalfBelow(low, m);
      EvenPlus(h, low);
      ReflectSplits(high, low / 2, m - 1, k);
      Pow2Add(m - 1, k);
      BitTimes(low % 2, Pow2(m - 1), Reflect(low / 2, m - 1), Pow2(k));
    }
  }

  lemma BitTimes(bit: nat, p: nat, low: nat, q: nat)
    ensures (bit * p + low) * q == bit * (p * q) + low * q
  {
  }

  lemma PolyReflects()
    ensures Reflect(POLY, 32) == 0x1EDC_6F41
  {
    Pow2Word();
    PolyBytes();
    ReflectSplits(0x82, 0xf6, 8, 8);
    ReflectSplits(0x82f6, 0x3b, 8, 16);
    ReflectSplits(0x82f63b, 0x78, 8, 24);
    Pow2Add(8, 16);
  }

  lemma PolyBytes()
    ensures Reflect(0x82, 8) == 0x41 && Reflect(0xf6, 8) == 0x6f && Reflect(0x3b, 8) == 0xdc && Reflect(0x78, 8) == 0x1e
  {
    Digits();
    hide Reflect;
    assert Pow2(4) == 16;
    ReflectSplits(0x8, 0x2, 4, 4);
    ReflectSplits(0xf, 0x6, 4, 4);
    ReflectSplits(0x3, 0xb, 4, 4);
    ReflectSplits(0x7, 0x8, 4, 4);
  }

  lemma Digits()
    ensures Reflect(0x8, 4) == 1 && Reflect(0x2, 4) == 4 && Reflect(0xf, 4) == 0xf && Reflect(0x6, 4) == 6
    ensures Reflect(0x3, 4) == 0xc && Reflect(0xb, 4) == 0xd && Reflect(0x7, 4) == 0xe
  {
    hide Reflect;
    ReflectsDigit(0x8, 0, 0, 0, 1);
    ReflectsDigit(0x2, 0, 1, 0, 0);
    ReflectsDigit(0xf, 1, 1, 1, 1);
    ReflectsDigit(0x6, 0, 1, 1, 0);
    ReflectsDigit(0x3, 1, 1, 0, 0);
    ReflectsDigit(0xb, 1, 1, 0, 1);
    ReflectsDigit(0x7, 1, 1, 1, 0);
  }

  lemma ReflectsDigit(w: nat, b0: nat, b1: nat, b2: nat, b3: nat)
    requires b0 < 2 && b1 < 2 && b2 < 2 && b3 < 2 && w == b0 + 2 * b1 + 4 * b2 + 8 * b3
    ensures Reflect(w, 4) == 8 * b0 + 4 * b1 + 2 * b2 + b3
  {
    hide Reflect, Pow2;
    var w2 := b2 + 2 * b3;
    var w1 := b1 + 2 * w2;
    assert w == b0 + 2 * w1;
    ReflectsBit(b0, w1, 3);
    ReflectsBit(b1, w2, 2);
    ReflectsBit(b2, b3, 1);
    ReflectsBit(b3, 0, 0);
    SmallPowers();
  }

  lemma SmallPowers()
    ensures Pow2(0) == 1 && Pow2(1) == 2 && Pow2(2) == 4 && Pow2(3) == 8
  {
  }

  lemma ReflectsBit(bit: nat, rest: nat, n: nat)
    requires bit < 2
    ensures Reflect(bit + 2 * rest, n + 1) == bit * Pow2(n) + Reflect(rest, n) && Reflect(rest, 0) == 0
  {
    Doubled(bit, rest);
  }

  // ---- the register ----

  /** One step of the register is a multiplication by x. */
  lemma StepReflects(c: nat)
    requires c < 0x1_0000_0000
    ensures Congruent(Reflect(BitStep(c), 32), 2 * Reflect(c, 32)) && BitStep(c) < 0x1_0000_0000
  {
    hide Xor, Reflect, Pow2, Product, Congruent;
    Pow2Word();
    LowBit(c, 32);
    if c % 2 == 0 {
      CongruentSelf(2 * Reflect(c, 32));
    } else {
      OddStepReflects(c);
    }
  }

  lemma OddStepReflects(c: nat)
    requires c < 0x1_0000_0000 && c % 2 == 1
    ensures Congruent(Reflect(Xor(c / 2, POLY), 32), 2 * Reflect(c, 32)) && Xor(c / 2, POLY) < 0x1_0000_0000
  {
    hide Xor, Reflect, Pow2, Product, Congruent;
    Pow2Word();
    var low := 2 * Reflect(c / 2, 31);
    LowBit(c, 32);
    XorWord(c / 2, POLY);
    ReflectAdds(c / 2, POLY, 32);
    PolyReflects();
    WrapsAround(low);
    CongruentBy(Xor(low, 0x1EDC_6F41), 1, 0x1_0000_0000 + low);
  }

  /** The low bit becomes the highest power, and the rest moves up by one. */
  lemma LowBit(c: nat, n: nat)
    requires n > 0 && c < Pow2(n)
    ensures var low := 2 * Reflect(c / 2, n - 1);
            2 * Reflect(c, n) == c % 2 * Pow2(n) + low && Reflect(c / 2, n) == low && low < Pow2(n)
  {
    HalfBelow(c, n);
    ReflectWider(c / 2, n - 1);
    TimesPow2(c % 2, n);
  }

  /** x^32 is replaced by the rest of the generator. */
  lemma WrapsAround(low: nat)
    requires low < 0x1_0000_0000
    ensures Xor(low, 0x1EDC_6F41) == Xor(Product(1, GENERATOR), 0x1_0000_0000 + low)
  {
    Pow2Word();
    OneTimes();
    hide Xor, Pow2, Product;
    XorDisjoint(1, low, 32);
    XorDisjoint(1, 0x1EDC_6F41, 32);
    var one := 0x1_0000_0000;
    XorRegroups(one, 0x1EDC_6F41, one, low);
    XorSelf(one);
    XorZero(Xor(0x1EDC_6F41, low));
    XorCommutes(low, 0x1EDC_6F41);
  }

  lemma OneTimes()
    ensures Product(1, GENERATOR) == GENERATOR
  {
    XorZero(GENERATOR);
  }

  lemma {:induction false} ZerosReflect(c: nat, n: nat)
    requires c < 0x1_0000_0000
    ensures Congruent(Reflect(Zeros(c, n), 32), TimesX(Reflect(c, 32), n)) && Zeros(c, n) < 0x1_0000_0000
    decreases n
  {
    hide Congruent, Reflect, BitStep, TimesX;
    var r := Reflect(c, 32);
    if n == 0 {
      TimesXOnce(r, 0);
      CongruentSelf(r);
    } else {
      var r' := Reflect(BitStep(c), 32);
      StepReflects(c);
      ZerosReflect(BitStep(c), n - 1);
      CongruentShifts(r', 2 * r, n - 1);
      TimesXOnce(r, n - 1);
      CongruentTransitive(Reflect(Zeros(c, n), 32), TimesX(r', n - 1), TimesX(r, n));
    }
  }

  /** A message byte comes in above x^31. */
  lemma ByteReflects(c: nat, b: Byte)
    requires c < 0x1_0000_0000
    ensures Congruent(Reflect(ByteStep(c, b), 32), Xor(TimesX(Reflect(c, 32), 8), TimesX(Reflect(b, 8), 32)))
    ensures ByteStep(c, b) < 0x1_0000_0000
  {
    hide Congruent, Reflect, Xor, Zeros, Pow2, TimesX;
    Pow2Word();
    XorWord(c, b);
    ZerosReflect(Xor(c, b), 8);
    ReflectAdds(c, b, 32);
    ReflectWiderBy(b, 8, 24);
    SumTimesX(Reflect(c, 32), Reflect(b, 32), 8);
    TimesXTwice(Reflect(b, 8), 24, 8);
  }

  lemma {:induction false} RawReflects(c: nat, data: Bytes)
    requires c < 0x1_0000_0000
    ensures Raw(c, data) < 0x1_0000_0000
    ensures Congruent(Reflect(Raw(c, data), 32), Xor(TimesX(Reflect(c, 32), 8 * |data|), TimesX(Message(data), 32)))
    decreases |data|
  {
    hide Congruent, Reflect, Xor, Pow2, ByteStep, TimesX;
    var r := Reflect(c, 32);
    if data == [] {
      CongruentSelf(r);
      XorZero(r);
      TimesXOnce(r, 0);
      NoProductWithX();
    } else {
      var rest, n, first := data[1..], 8 * (|data| - 1), Reflect(data[0], 8);
      var c' := ByteStep(c, data[0]);
      var sum := Xor(TimesX(r, 8), TimesX(first, 32));
      ByteReflects(c, data[0]);
      RawReflects(c', rest);
      CongruentShifts(Reflect(c', 32), sum, n);
      CongruentAdds(TimesX(Reflect(c', 32), n), TimesX(sum, n), TimesX(Message(rest), 32));
      MessageGrows(r, first, Message(rest), n);
      CongruentTransitive(Reflect(Raw(c, data), 32), Xor(TimesX(Reflect(c', 32), n), TimesX(Message(rest), 32)),
                          Xor(TimesX(r, 8 * |data|), TimesX(Message(data), 32)));
    }
  }

  lemma NoProductWithX()
    ensures TimesX(0, 32) == 0
  {
  }

  lemma MessageGrows(r: nat, first: nat, rest: nat, n: nat)
    ensures Xor(TimesX(Xor(TimesX(r, 8), TimesX(first, 32)), n), TimesX(rest, 32))
         == Xor(TimesX(r, n + 8), TimesX(Xor(TimesX(first, n), rest), 32))
  {
    hide Xor, TimesX;
    SumTimesX(TimesX(r, 8), TimesX(first, 32), n);
    SumTimesX(TimesX(first, n), rest, 32);
    TimesXTwice(r, 8, n);
    TimesXTwice(first, 32, n);
    TimesXTwice(first, n, 32);
    XorAssociates(TimesX(r, n + 8), TimesX(first, n + 32), TimesX(rest, 32));
  }

  // ---- the checksum ----

  /** The message times x^32, with the complemented seed added to its first 32 bits. */
  function Dividend(crc: Word, data: Bytes): nat {
    Xor(TimesX(Reflect(Xor(crc, 0xffff_ffff), 32), 8 * |data|), TimesX(Message(data), 32))
  }

  /**
   * The checksum, complemented and read with its low bit first, is the remainder of that polynomial modulo
   * x^32 + 0x1EDC6F41, and no other word is.
   */
  lemma CrcIsRemainder(crc: Word, data: Bytes, v: Word)
    ensures v == Crc(crc, data) <==> IsRemainder(Reflect(Xor(v, 0xffff_ffff), 32), Dividend(crc, data))
  {
    hide Xor, Reflect, Raw, Congruent, IsRemainder, TimesX, Pow2;
    Pow2Word();
    var seed := Xor(crc, 0xffff_ffff);
    XorWord(crc, 0xffff_ffff);
    RawReflects(seed, data);
    XorTwice(Raw(seed, data), 0xffff_ffff);
    XorTwice(v, 0xffff_ffff);
    XorWord(v, 0xffff_ffff);
    CongruentIsRemainder(Reflect(Raw(seed, data), 32), Dividend(crc, data));
    if IsRemainder(Reflect(Xor(v, 0xffff_ffff), 32), Dividend(crc, data)) {
      RemainderIsUnique(Reflect(Xor(v, 0xffff_ffff), 32), Reflect(Raw(seed, data), 32), Dividend(crc, data));
      ReflectIsInjective(Xor(v, 0xffff_ffff), Raw(seed, data), 32);
    }
  }

  lemma CongruentIsRemainder(r: nat, a: nat)
    requires Congruent(r, a) && r < 0x1_0000_0000
    ensures IsRemainder(r, a)
  {
    hide Xor, Product;
    var q: nat :| r == Xor(Product(q, GENERATOR), a);
    XorCommutes(Product(q, GENERATOR), a);
    XorTwice(a, Product(q, GENERATOR));
    XorCommutes(r, Product(q, GENERATOR));
  }
}
