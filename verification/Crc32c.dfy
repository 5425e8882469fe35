/** CRC-32C (section 12.1 of RFC 3720): the bytewise definition, and the two fast forms that must equal it (stl_crc.c). */
module Crc32c {
  import opened Bytes
  import opened Coding

  /** Machine words are the integers they stand for; shifts and masks are division and remainder. */
  type Word = x: int | 0 <= x < 0x1_0000_0000

  const POLY: Word := 0x82f63b78
  const ONES: Word := 0xffffffff

  // ---- exclusive or ----

  function Xor(a: nat, b: nat): nat
    decreases a
  {
    if a == 0 then b
    else if b == 0 then a
    else (if a % 2 == b % 2 then 0 else 1) + 2 * Xor(a / 2, b / 2)
  }

  lemma XorHalves(a: nat, b: nat)
    ensures Xor(a, b) % 2 == if a % 2 == b % 2 then 0 else 1
    ensures Xor(a, b) / 2 == Xor(a / 2, b / 2)
  {
    if a == 0 || b == 0 {
      XorZero(a);
      XorZero(b);
      XorZero(a / 2);
      XorZero(b / 2);
    } else {
      XorUnfolds(a, b, Xor(a / 2, b / 2));
    }
  }

  lemma XorZero(a: nat)
    ensures Xor(a, 0) == a && Xor(0, a) == a
  {
  }

  lemma XorUnfolds(a: nat, b: nat, rest: nat)
    requires a != 0 && b != 0 && rest == Xor(a / 2, b / 2)
    ensures Xor(a, b) % 2 == if a % 2 == b % 2 then 0 else 1
    ensures Xor(a, b) / 2 == rest
  {
    var bit := if a % 2 == b % 2 then 0 else 1;
    assert Xor(a, b) == bit + 2 * rest;
    Doubled(bit, rest);
  }

  lemma Doubled(bit: nat, rest: nat)
    requires bit < 2
    ensures (bit + 2 * rest) % 2 == bit && (bit + 2 * rest) / 2 == rest
  {
  }

  lemma SameHalves(a: nat, b: nat)
    requires a % 2 == b % 2 && a / 2 == b / 2
    ensures a == b
  {
  }

  lemma {:induction false} XorCommutes(a: nat, b: nat)
    ensures Xor(a, b) == Xor(b, a)
    decreases a
  {
    if a != 0 && b != 0 {
      XorCommutes(a / 2, b / 2);
    }
  }

  lemma {:induction false} XorSelf(a: nat)
    ensures Xor(a, a) == 0
  {
    if a != 0 {
      XorSelf(a / 2);
    }
  }

  lemma {:induction false} XorAssociates(a: nat, b: nat, c: nat)
    ensures Xor(Xor(a, b), c) == Xor(a, Xor(b, c))
    decreases a + b + c
  {
    if a == 0 || b == 0 || c == 0 {
      XorZero(a);
      XorZero(b);
      XorZero(Xor(a, b));
    } else {
      XorAssociates(a / 2, b / 2, c / 2);
      var l, r := Xor(a, b), Xor(b, c);
      XorHalves(a, b);
      XorHalves(b, c);
      XorJoins(l, c, a, r);
    }
  }

  lemma XorJoins(p: nat, q: nat, r: nat, s: nat)
    requires (p % 2 == q % 2) == (r % 2 == s % 2)
    requires Xor(p / 2, q / 2) == Xor(r / 2, s / 2)
    ensures Xor(p, q) == Xor(r, s)
  {
    XorHalves(p, q);
    XorHalves(r, s);
    SameHalves(Xor(p, q), Xor(r, s));
  }

  lemma XorRegroups(p: nat, q: nat, r: nat, s: nat)
    ensures Xor(Xor(p, q), Xor(r, s)) == Xor(Xor(p, r), Xor(q, s))
  {
    hide Xor;
    XorAssociates(p, q, Xor(r, s));
    XorAssociates(q, r, s);
    XorCommutes(q, r);
    XorAssociates(r, q, s);
    XorAssociates(p, r, Xor(q, s));
  }

  lemma XorTwice(a: nat, b: nat)
    ensures Xor(Xor(a, b), b) == a
  {
    XorAssociates(a, b, b);
    XorSelf(b);
    XorZero(a);
  }

  function Pow2(n: nat): (r: nat)
    ensures r > 0
  {
    if n == 0 then 1 else 2 * Pow2(n - 1)
  }

  lemma {:induction false} XorBound(a: nat, b: nat, n: nat)
    requires a < Pow2(n) && b < Pow2(n)
    ensures Xor(a, b) < Pow2(n)
    decreases n
  {
    if a != 0 && b != 0 {
      XorBound(a / 2, b / 2, n - 1);
    }
  }

  lemma Pow2Add(m: nat, n: nat)
    ensures Pow2(m + n) == Pow2(m) * Pow2(n)
  {
    if m > 0 {
      Pow2Add(m - 1, n);
    }
  }

  lemma Pow2Word()
    ensures Pow2(8) == 0x100 && Pow2(16) == 0x1_0000 && Pow2(32) == 0x1_0000_0000
  {
    assert Pow2(4) == 16;
    assert Pow2(8) == 0x100;
    Pow2Add(8, 8);
    Pow2Add(16, 16);
  }

  lemma XorWord(a: Word, b: Word)
    ensures Xor(a, b) < 0x1_0000_0000
  {
    var n := 32;
    Pow2Word();
    XorBound(a, b, n);
  }

  /** Words without common one bits: exclusive or is addition. */
  lemma {:induction false} XorDisjoint(high: nat, low: nat, n: nat)
    requires low < Pow2(n)
    ensures Xor(high * Pow2(n), low) == high * Pow2(n) + low
    decreases n
  {
    if n > 0 {
      var h := high * Pow2(n - 1);
      TimesPow2(high, n);
      HalfBelow(low, n);
      XorDisjoint(high, low / 2, n - 1);
      XorHalves(2 * h, low);
      EvenPlus(h, low);
      EvenPlus(h, 0);
      SameHalves(Xor(2 * h, low), 2 * h + low);
    }
  }

  lemma TimesPow2(h: nat, n: nat)
    requires n > 0
    ensures h * Pow2(n) == 2 * (h * Pow2(n - 1))
  {
    var p := Pow2(n - 1);
    assert h * (2 * p) == 2 * (h * p);
  }

  lemma HalfBelow(low: nat, n: nat)
    requires n > 0 && low < Pow2(n)
    ensures low / 2 < Pow2(n - 1)
  {
  }

  lemma EvenPlus(h: nat, low: nat)
    ensures (2 * h + low) % 2 == low % 2 && (2 * h + low) / 2 == h + low / 2
  {
  }

  // ---- the register ----

  /** One zero bit through the register. */
  function BitStep(c: nat): nat {
    if c % 2 == 1 then Xor(c / 2, POLY) else c / 2
  }

  function Zeros(c: nat, bits: nat): nat
    decreases bits, c
  {
    if bits == 0 then c else Zeros(BitStep(c), bits - 1)
  }

  /** One message byte. */
  function ByteStep(c: nat, b: Byte): nat {
    Zeros(Xor(c, b), 8)
  }

  function Raw(c: nat, data: Bytes): nat
    decreases |data|
  {
    if data == [] then c else Raw(ByteStep(c, data[0]), data[1..])
  }

  lemma {:induction false} ZerosBound(c: nat, bits: nat)
    requires c < 0x1_0000_0000
    ensures Zeros(c, bits) < 0x1_0000_0000
    decreases bits
  {
    if bits > 0 {
      XorWord(c / 2, POLY);
      ZerosBound(BitStep(c), bits - 1);
    }
  }

  lemma {:induction false} RawBound(c: nat, data: Bytes)
    requires c < 0x1_0000_0000
    ensures Raw(c, data) < 0x1_0000_0000
    decreases |data|
  {
    if data != [] {
      XorWord(c, data[0]);
      ZerosBound(Xor(c, data[0]), 8);
      RawBound(ByteStep(c, data[0]), data[1..]);
    }
  }

  /** The checksum continued from `crc`, one byte at a time. */
  function Crc(crc: Word, data: Bytes): Word {
    XorWord(crc, ONES);
    RawBound(Xor(crc, ONES), data);
    XorWord(Raw(Xor(crc, ONES), data), ONES);
    Xor(Raw(Xor(crc, ONES), data), ONES)
  }

  // ---- linearity ----

  lemma BitStepLinear(a: nat, b: nat)
    ensures BitStep(Xor(a, b)) == Xor(BitStep(a), BitStep(b))
  {
    var p, q, x, y := a % 2 == 1, b % 2 == 1, a / 2, b / 2;
    BitStepForm(a, p, x);
    BitStepForm(b, q, y);
    XorHalves(a, b);
    BitStepForm(Xor(a, b), p != q, Xor(x, y));
    FeedbackLinear(p, q, x, y);
  }

  lemma BitStepForm(c: nat, odd: bool, half: nat)
    requires odd == (c % 2 == 1) && half == c / 2
    ensures BitStep(c) == if odd then Xor(half, POLY) else half
  {
  }

  lemma FeedbackLinear(p: bool, q: bool, x: nat, y: nat)
    ensures (if p != q then Xor(Xor(x, y), POLY) else Xor(x, y))
         == Xor(if p then Xor(x, POLY) else x, if q then Xor(y, POLY) else y)
  {
    hide Xor;
    if p && q {
      XorRegroups(x, POLY, y, POLY);
      XorSelf(POLY);
      XorZero(Xor(x, y));
    } else if p {
      XorAssociates(x, POLY, y);
      XorCommutes(POLY, y);
      XorAssociates(x, y, POLY);
    } else if q {
      XorAssociates(x, y, POLY);
    }
  }

  lemma {:induction false} ZerosLinear(a: nat, b: nat, bits: nat)
    ensures Zeros(Xor(a, b), bits) == Xor(Zeros(a, bits), Zeros(b, bits))
    decreases bits
  {
    if bits > 0 {
      BitStepLinear(a, b);
      ZerosLinear(BitStep(a), BitStep(b), bits - 1);
    }
  }

  lemma {:induction false} ZerosAdd(c: nat, m: nat, n: nat)
    ensures Zeros(c, m + n) == Zeros(Zeros(c, m), n)
    decreases m
  {
    if m > 0 {
      ZerosAdd(BitStep(c), m - 1, n);
    }
  }

  lemma {:induction false} ZerosOfZero(bits: nat)
    ensures Zeros(0, bits) == 0
  {
    if bits > 0 {
      ZerosOfZero(bits - 1);
    }
  }

  lemma EvenStep(h: nat)
    ensures BitStep(2 * h) == h
  {
  }

  /** Zero low bits just shift out. */
  lemma {:induction false} ZerosShiftOut(y: nat, n: nat)
    ensures Zeros(y * Pow2(n), n) == y
    decreases n
  {
    if n > 0 {
      var h := y * Pow2(n - 1);
      TimesPow2(y, n);
      EvenStep(h);
      ZerosShiftOut(y, n - 1);
    }
  }

  lemma {:induction false} RawAppend(c: nat, a: Bytes, b: Bytes)
    ensures Raw(c, a + b) == Raw(Raw(c, a), b)
    decreases |a|
  {
    if a == [] {
      assert a + b == b;
    } else {
      assert (a + b)[1..] == a[1..] + b;
      RawAppend(ByteStep(c, a[0]), a[1..], b);
    }
  }

  lemma ByteStepLinear(a: nat, b: nat, d: Byte)
    ensures ByteStep(Xor(a, b), d) == Xor(ByteStep(a, d), Zeros(b, 8))
  {
    hide Xor, Zeros;
    XorAssociates(a, b, d);
    XorCommutes(b, d);
    XorAssociates(a, d, b);
    ZerosLinear(Xor(a, d), b, 8);
  }

  /** A difference in the register travels through any message as if the message were zeros. */
  lemma {:induction false} RawLinear(a: nat, b: nat, data: Bytes)
    ensures Raw(Xor(a, b), data) == Xor(Raw(a, data), Zeros(b, 8 * |data|))
    decreases |data|
  {
    hide Xor;
    if data != [] {
      hide Zeros;
      hide ByteStep;
      var rest := data[1..];
      ByteStepLinear(a, b, data[0]);
      RawLinear(ByteStep(a, data[0]), Zeros(b, 8), rest);
      ZerosBytes(b, |rest|);
    }
  }

  lemma ZerosBytes(b: nat, n: nat)
    ensures Zeros(Zeros(b, 8), 8 * n) == Zeros(b, 8 * (n + 1))
  {
    ZerosAdd(b, 8, 8 * n);
  }

  /** CRCs chain over concatenation. */
  lemma CrcChains(crc: Word, a: Bytes, b: Bytes)
    ensures Crc(Crc(crc, a), b) == Crc(crc, a + b)
  {
    hide Xor, Raw;
    RawAppend(Xor(crc, ONES), a, b);
    XorTwice(Raw(Xor(crc, ONES), a), ONES);
  }

  lemma Shifted(r: nat, data: Bytes)
    ensures Raw(r, data) == Xor(Zeros(r, 8 * |data|), Raw(0, data))
  {
    RawLinear(0, r, data);
    XorCommutes(Raw(0, data), Zeros(r, 8 * |data|));
  }

  /** Three equal stretches checksummed apart recombine exactly. */
  lemma ThreeWay(c: nat, x: Bytes, y: Bytes, z: Bytes)
    requires |x| == |y| == |z|
    ensures Raw(c, x + y + z)
         == Xor(Zeros(Xor(Zeros(Raw(c, x), 8 * |x|), Raw(0, y)), 8 * |x|), Raw(0, z))
  {
    hide Xor, Zeros;
    RawAppend(c, x + y, z);
    RawAppend(c, x, y);
    Shifted(Raw(c, x), y);
    Shifted(Raw(c, x + y), z);
  }

  // ---- matrices over GF(2) ----

  /** mat times vec: row j of mat is the image of bit j. */
  function Times(mat: seq<nat>, vec: nat): nat
    decreases |mat|
  {
    if mat == [] then 0
    else Xor(if vec % 2 == 1 then mat[0] else 0, Times(mat[1..], vec / 2))
  }

  /** Row j of `mat` is what `bits` zero bits do to bit j. */
  ghost predicate Represents(mat: seq<nat>, bits: nat) {
    |mat| == 32 && forall j :: 0 <= j < 32 ==> mat[j] == Zeros(Pow2(j), bits)
  }

  /** Peeling the low bit of a shifted vector. */
  lemma Peel(vec: nat, i: nat)
    ensures vec * Pow2(i) == Xor((vec % 2) * Pow2(i), (vec / 2) * Pow2(i + 1))
  {
    PeelBit(vec / 2, vec % 2, i);
    XorDisjoint(vec / 2, (vec % 2) * Pow2(i), i + 1);
    XorCommutes((vec / 2) * Pow2(i + 1), (vec % 2) * Pow2(i));
  }

  lemma PeelBit(half: nat, bit: nat, i: nat)
    requires bit < 2
    ensures bit * Pow2(i) < Pow2(i + 1)
    ensures (2 * half + bit) * Pow2(i) == half * Pow2(i + 1) + bit * Pow2(i)
  {
    var p := Pow2(i);
    assert bit == 0 || bit == 1;
    assert (2 * half + bit) * p == half * (2 * p) + bit * p;
  }

  function Raised(vec: nat, i: nat): nat {
    vec * Pow2(i)
  }

  lemma {:induction false} TimesFrom(mat: seq<nat>, bits: nat, i: nat, vec: nat)
    requires Represents(mat, bits) && i <= 32 && vec < Pow2(32 - i)
    ensures Times(mat[i..], vec) == Zeros(Raised(vec, i), bits)
    decreases 32 - i
  {
    hide Xor;
    if i == 32 {
      hide Zeros;
      assert vec == 0;
      ZerosOfZero(bits);
    } else {
      hide Pow2, Zeros;
      HalfFits(vec, 32 - i);
      TimesFrom(mat, bits, i + 1, vec / 2);
      TimesStep(mat[i], Times(mat[i + 1..], vec / 2), vec, i, bits);
      TimesUnfold(mat[i..], vec);
      assert mat[i..][1..] == mat[i + 1..];
    }
  }

  lemma TimesUnfold(mat: seq<nat>, vec: nat)
    requires mat != []
    ensures Times(mat, vec) == Xor(if vec % 2 == 1 then mat[0] else 0, Times(mat[1..], vec / 2))
  {
    hide Xor;
  }

  lemma HalfFits(vec: nat, n: nat)
    requires n > 0 && vec < Pow2(n)
    ensures vec / 2 < Pow2(n - 1)
  {
  }

  lemma TimesStep(row: nat, rest: nat, vec: nat, i: nat, bits: nat)
    requires row == Zeros(Pow2(i), bits) && rest == Zeros((vec / 2) * Pow2(i + 1), bits)
    ensures Xor(if vec % 2 == 1 then row else 0, rest) == Zeros(vec * Pow2(i), bits)
  {
    hide Xor, Zeros;
    Peel(vec, i);
    ZerosLinear((vec % 2) * Pow2(i), (vec / 2) * Pow2(i + 1), bits);
    BitRow(vec % 2, row, Pow2(i), bits);
  }

  lemma BitRow(bit: nat, row: nat, p: nat, bits: nat)
    requires bit < 2 && row == Zeros(p, bits)
    ensures (if bit == 1 then row else 0) == Zeros(bit * p, bits)
  {
    ZerosOfZero(bits);
    assert bit == 0 || bit == 1;
  }

  /** Multiplying by a matrix that represents `bits` zero bits is feeding that many zero bits. */
  lemma TimesIsZeros(mat: seq<nat>, bits: nat, vec: Word)
    requires Represents(mat, bits)
    ensures Times(mat, vec) == Zeros(vec, bits)
  {
    Pow2Word();
    TimesFrom(mat, bits, 0, vec);
    assert mat[0..] == mat && Raised(vec, 0) == vec;
  }

  lemma TimesZero(mat: seq<nat>)
    ensures Times(mat, 0) == 0
  {
    if mat != [] {
      TimesZero(mat[1..]);
    }
  }

  /** gf2_matrix_times. */
  method MatrixTimes(mat: array<Word>, vec: Word) returns (sum: Word)
    requires mat.Length == 32
    ensures sum == Times(mat[..], vec)
  {
    hide Xor;
    sum := 0;
    var v, i := vec, 0;
    Pow2Word();
    XorZero(Times(mat[..], vec));
    assert mat[0..] == mat[..];
    while v != 0
      invariant 0 <= i <= 32 && 0 <= v < Pow2(32 - i)
      invariant Times(mat[..], vec) == Xor(sum, Times(mat[i..], v))
      decreases 32 - i
    {
      assert mat[i..][1..] == mat[i + 1..];
      XorWord(sum, mat[i]);
      TakeRow(sum, mat[i..], v);
      HalfFits(v, 32 - i);
      if v % 2 == 1 {
        sum := Xor(sum, mat[i]);
      }
      v := v / 2;
      i := i + 1;
    }
    TimesZero(mat[i..]);
    XorZero(sum);
  }

  lemma TakeRow(sum: nat, rows: seq<nat>, v: nat)
    requires rows != []
    ensures Xor(sum, Times(rows, v)) == Xor(if v % 2 == 1 then Xor(sum, rows[0]) else sum, Times(rows[1..], v / 2))
  {
    XorAssociates(sum, rows[0], Times(rows[1..], v / 2));
  }

  /** gf2_matrix_square: a matrix for n zero bits becomes one for 2n. */
  method MatrixSquare(square: array<Word>, mat: array<Word>, ghost bits: nat)
    requires square != mat && square.Length == 32 && mat.Length == 32
    requires Represents(mat[..], bits)
    modifies square
    ensures Represents(square[..], 2 * bits)
  {
    hide Zeros, Times;
    for n := 0 to 32
      invariant Represents(mat[..], bits)
      invariant forall j :: 0 <= j < n ==> square[j] == Zeros(Pow2(j), 2 * bits)
    {
      square[n] := MatrixTimes(mat, mat[n]);
      TimesIsZeros(mat[..], bits, mat[n]);
      assert mat[..][n] == Zeros(Pow2(n), bits);
      ZerosAdd(Pow2(n), bits, bits);
    }
  }

  /** The largest power of two that is at most len, and 1 for 0. */
  function FloorPow2(len: nat): (r: nat)
    ensures r > 0
  {
    if len < 2 then 1 else 2 * FloorPow2(len / 2)
  }

  lemma FloorPow2Exact(k: nat)
    ensures FloorPow2(Pow2(k)) == Pow2(k)
  {
    if k > 0 {
      FloorPow2Exact(k - 1);
    }
  }

  lemma OneBit()
    ensures Zeros(Pow2(0), 1) == POLY
  {
    assert Zeros(1, 1) == Zeros(BitStep(1), 0);
  }

  lemma ShiftedBit(j: nat)
    requires j > 0
    ensures BitStep(Pow2(j)) == Pow2(j - 1) && Zeros(Pow2(j), 1) == Pow2(j - 1)
  {
    assert Zeros(Pow2(j), 1) == Zeros(BitStep(Pow2(j)), 0);
  }

  lemma Pow2Fits(n: nat)
    requires n < 32
    ensures Pow2(n) < 0x1_0000_0000
  {
    var all := 32;
    Pow2Word();
    Pow2Grows(n + 1, all);
  }

  /** The operator for one zero bit. */
  method OneBitOperator(odd: array<Word>)
    requires odd.Length == 32
    modifies odd
    ensures Represents(odd[..], 1)
  {
    hide Xor, Zeros;
    OneBit();
    odd[0] := POLY;
    var row := 1;
    for n := 1 to 32
      invariant row == Pow2(n - 1)
      invariant forall j :: 0 <= j < n ==> odd[j] == Zeros(Pow2(j), 1)
    {
      ShiftedBit(n);
      Pow2Fits(n);
      odd[n] := row;
      row := row * 2;
    }
  }

  lemma {:induction false} Pow2Grows(m: nat, n: nat)
    requires m <= n
    ensures Pow2(m) <= Pow2(n)
    decreases n
  {
    if m < n {
      Pow2Grows(m, n - 1);
    }
  }

  /** crc32_zeros_op: repeated squaring reaches the operator for FloorPow2(len) zero bytes. */
  method ZerosOperator(even: array<Word>, len: nat)
    requires even.Length == 32
    modifies even
    ensures Represents(even[..], 8 * FloorPow2(len))
  {
    hide Zeros, FloorPow2;
    var odd := new Word[32];
    OneBitOperator(odd);
    MatrixSquare(even, odd, 1);
    MatrixSquare(odd, even, 2);
    ghost var bits: nat := 4;
    var left := len;
    while true
      invariant Represents(odd[..], bits) && Owes(bits, left, len)
      decreases left
    {
      MatrixSquare(even, odd, bits);
      HalvesFloor(bits, left, len);
      left := left / 2;
      if left == 0 {
        return;
      }
      MatrixSquare(odd, even, 2 * bits);
      HalvesFloor(2 * bits, left, len);
      bits := 4 * bits;
      left := left / 2;
      if left == 0 {
        break;
      }
    }
    for n := 0 to 32
      invariant Represents(odd[..], bits)
      invariant forall j :: 0 <= j < n ==> even[j] == odd[j]
    {
      even[n] := odd[n];
    }
    assert even[..] == odd[..];
  }

  /** What `bits` zero bits still have to be multiplied by, with `left` of `len` remaining. */
  ghost predicate Owes(bits: nat, left: nat, len: nat) {
    2 * (bits * FloorPow2(left)) == 8 * FloorPow2(len)
  }

  lemma HalvesFloor(bits: nat, left: nat, len: nat)
    requires Owes(bits, left, len)
    ensures left < 2 ==> 2 * bits == 8 * FloorPow2(len)
    ensures left >= 2 ==> Owes(2 * bits, left / 2, len)
    ensures left < 2 <==> left / 2 == 0
  {
    if left >= 2 {
      MoveTwo(bits, FloorPow2(left / 2));
    }
  }

  lemma MoveTwo(a: nat, b: nat)
    ensures a * (2 * b) == (2 * a) * b
  {
  }

  // ---- the three-way form ----

  const K8: nat := 0x100
  const K16: nat := 0x1_0000
  const K24: nat := 0x100_0000

  /** The i-th byte of a word. */
  function ByteAt(w: nat, i: nat): Byte {
    if i == 0 then w % 256 else ByteAt(w / 256, i - 1)
  }

  lemma WordBytes(w: Word)
    ensures w == ByteAt(w, 3) * K24 + ByteAt(w, 2) * K16 + ByteAt(w, 1) * K8 + ByteAt(w, 0)
    ensures ByteAt(w, 1) == (w / K8) % 256 && ByteAt(w, 2) == (w / K16) % 256 && ByteAt(w, 3) == (w / K24) % 256
  {
    assert w / K16 == (w / 256) / 256;
    assert w / K24 == ((w / 256) / 256) / 256;
    assert ByteAt(w, 1) == (w / 256) % 256;
    assert ByteAt(w, 2) == ((w / 256) / 256) % 256;
    assert ByteAt(w, 3) == (((w / 256) / 256) / 256) % 256;
  }

  lemma BytesXor(x0: Byte, x1: Byte, x2: Byte, x3: Byte)
    ensures x3 * K24 + x2 * K16 + x1 * K8 + x0 == Xor(Xor(Xor(x0, x1 * K8), x2 * K16), x3 * K24)
  {
    hide Xor;
    Pow2Word();
    Pow2Add(16, 8);
    XorDisjoint(x1, x0, 8);
    XorCommutes(x0, x1 * K8);
    var low16 := x1 * K8 + x0;
    XorDisjoint(x2, low16, 16);
    XorCommutes(low16, x2 * K16);
    var low24 := x2 * K16 + low16;
    XorDisjoint(x3, low24, 24);
    XorCommutes(low24, x3 * K24);
  }

  /** The register split into its bytes, each carried separately. */
  lemma ZerosByBytes(w: Word, bits: nat)
    ensures Zeros(w, bits)
         == Xor(Xor(Xor(Zeros(ByteAt(w, 0), bits), Zeros(ByteAt(w, 1) * K8, bits)),
                    Zeros(ByteAt(w, 2) * K16, bits)), Zeros(ByteAt(w, 3) * K24, bits))
  {
    hide Xor, Zeros, ByteAt;
    WordBytes(w);
    ZerosOfParts(ByteAt(w, 0), ByteAt(w, 1), ByteAt(w, 2), ByteAt(w, 3), bits);
  }

  lemma ZerosOfParts(x0: Byte, x1: Byte, x2: Byte, x3: Byte, bits: nat)
    ensures Zeros(x3 * K24 + x2 * K16 + x1 * K8 + x0, bits)
         == Xor(Xor(Xor(Zeros(x0, bits), Zeros(x1 * K8, bits)), Zeros(x2 * K16, bits)), Zeros(x3 * K24, bits))
  {
    hide Xor, Zeros;
    BytesXor(x0, x1, x2, x3);
    ZerosLinear(Xor(Xor(x0, x1 * K8), x2 * K16), x3 * K24, bits);
    ZerosLinear(Xor(x0, x1 * K8), x2 * K16, bits);
    ZerosLinear(x0, x1 * K8, bits);
  }

  /** Column m of the tables: what `bits` zero bits do to the value m in each byte position. */
  ghost predicate Column(t: array2<Word>, bits: nat, m: int)
    requires t.Length0 == 4 && t.Length1 == 256
    reads t
  {
    0 <= m < 256 ==>
      && t[0, m] == Zeros(m, bits) && t[1, m] == Zeros(m * K8, bits)
      && t[2, m] == Zeros(m * K16, bits) && t[3, m] == Zeros(m * K24, bits)
  }

  /** Four 256-entry tables that apply `bits` zero bits to a register byte by byte. */
  ghost predicate ShiftTable(t: array2<Word>, bits: nat)
    reads t
  {
    t.Length0 == 4 && t.Length1 == 256 && forall m :: 0 <= m < 256 ==> Column(t, bits, m)
  }

  method Apply(op: array<Word>, w: Word, ghost bits: nat) returns (r: Word)
    requires Represents(op[..], bits)
    ensures r == Zeros(w, bits)
  {
    r := MatrixTimes(op, w);
    TimesIsZeros(op[..], bits, w);
  }

  method FillColumn(zeros: array2<Word>, op: array<Word>, n: nat, ghost bits: nat)
    requires zeros.Length0 == 4 && zeros.Length1 == 256 && n < 256 && Represents(op[..], bits)
    modifies zeros
    ensures Column(zeros, bits, n)
    ensures forall t, m :: 0 <= t < 4 && 0 <= m < 256 && m != n ==> zeros[t, m] == old(zeros[t, m])
  {
    var r0 := Apply(op, n, bits);
    var r1 := Apply(op, n * K8, bits);
    var r2 := Apply(op, n * K16, bits);
    var r3 := Apply(op, n * K24, bits);
    zeros[0, n] := r0;
    zeros[1, n] := r1;
    zeros[2, n] := r2;
    zeros[3, n] := r3;
  }

  /** crc32_zeros. */
  method BuildShiftTable(zeros: array2<Word>, len: nat)
    requires zeros.Length0 == 4 && zeros.Length1 == 256
    modifies zeros
    ensures ShiftTable(zeros, 8 * FloorPow2(len))
  {
    var op := new Word[32];
    ZerosOperator(op, len);
    ghost var bits := 8 * FloorPow2(len);
    for n := 0 to 256
      invariant Represents(op[..], bits)
      invariant forall m :: 0 <= m < n ==> Column(zeros, bits, m)
    {
      label before:
      FillColumn(zeros, op, n, bits);
      forall m | 0 <= m < n ensures Column(zeros, bits, m) {
        assert old@before(Column(zeros, bits, m));
      }
    }
  }

  /** crc32_shift. */
  function Shift(zeros: array2<Word>, crc: Word): nat
    requires zeros.Length0 == 4 && zeros.Length1 == 256
    reads zeros
  {
    Xor(Xor(Xor(zeros[0, ByteAt(crc, 0)], zeros[1, ByteAt(crc, 1)]), zeros[2, ByteAt(crc, 2)]), zeros[3, ByteAt(crc, 3)])
  }

  lemma ShiftIsZeros(zeros: array2<Word>, bits: nat, crc: Word)
    requires ShiftTable(zeros, bits)
    ensures Shift(zeros, crc) == Zeros(crc, bits)
  {
    assert Column(zeros, bits, ByteAt(crc, 0)) && Column(zeros, bits, ByteAt(crc, 1));
    assert Column(zeros, bits, ByteAt(crc, 2)) && Column(zeros, bits, ByteAt(crc, 3));
    ZerosByBytes(crc, bits);
  }

  const LONG := 2048
  const SHORT := 256

  /** The two tables of the three-way form. */
  ghost predicate HardwareTables(long: array2<Word>, short: array2<Word>)
    reads long, short
  {
    ShiftTable(long, 8 * LONG) && ShiftTable(short, 8 * SHORT)
  }

  /** crc32_init_hw: 2048 and 256 are powers of two, so the operators are exactly for those lengths. */
  method InitHardware(long: array2<Word>, short: array2<Word>)
    requires long != short
    requires long.Length0 == 4 && long.Length1 == 256 && short.Length0 == 4 && short.Length1 == 256
    modifies long, short
    ensures HardwareTables(long, short)
  {
    Pow2Word();
    Pow2Add(8, 3);
    assert Pow2(3) == 8;
    FloorPow2Exact(11);
    FloorPow2Exact(8);
    BuildShiftTable(long, LONG);
    BuildShiftTable(short, SHORT);
  }

  /** The three running checksums over stretches of `size` bytes, eight at a time. */
  method Interleaved(crc: Word, x: Bytes, y: Bytes, z: Bytes) returns (crc0: Word, crc1: Word, crc2: Word)
    requires |x| == |y| == |z| && |x| % 8 == 0
    ensures crc0 == Raw(crc, x) && crc1 == Raw(0, y) && crc2 == Raw(0, z)
  {
    hide Xor, Zeros, ByteStep;
    crc0, crc1, crc2 := crc, 0, 0;
    var next := 0;
    while next < |x|
      invariant 0 <= next <= |x| && next % 8 == 0
      invariant crc0 == Raw(crc, x[..next]) && crc1 == Raw(0, y[..next]) && crc2 == Raw(0, z[..next])
    {
      crc0 := Crc64Step(crc0, x[next..next + 8], crc, x, next);
      crc1 := Crc64Step(crc1, y[next..next + 8], 0, y, next);
      crc2 := Crc64Step(crc2, z[next..next + 8], 0, z, next);
      next := next + 8;
    }
    assert x[..next] == x && y[..next] == y && z[..next] == z;
  }

  /** One round of the three-way loop. */
  method ThreeWayRound(table: array2<Word>, size: nat, crc: Word, buf: Bytes, start: nat) returns (r: Word)
    requires size % 8 == 0 && size > 0 && start + 3 * size <= |buf| && ShiftTable(table, 8 * size)
    ensures r == Raw(crc, buf[start..start + 3 * size])
  {
    hide Raw;
    var x := buf[start..start + size];
    var y := buf[start + size..start + size + size];
    var z := buf[start + size + size..start + size + 2 * size];
    var crc0, crc1, crc2 := Interleaved(crc, x, y, z);
    r := Recombine(table, size, crc0, crc1, crc2, crc, x, y, z);
    JoinThree(buf, start, size);
  }

  lemma JoinThree(buf: Bytes, start: nat, size: nat)
    requires start + 3 * size <= |buf|
    ensures buf[start..start + size] + buf[start + size..start + size + size]
              + buf[start + size + size..start + size + 2 * size]
         == buf[start..start + 3 * size]
  {
    var b, c, d := start + size, start + size + size, start + 3 * size;
    assert buf[start..b] + buf[b..c] == buf[start..c];
    assert buf[start..c] + buf[c..d] == buf[start..d];
  }

  /** Two shifts put the three partial checksums together. */
  method Recombine(table: array2<Word>, size: nat, c0: Word, c1: Word, c2: Word,
                   ghost crc: Word, ghost x: Bytes, ghost y: Bytes, ghost z: Bytes) returns (r: Word)
    requires ShiftTable(table, 8 * size) && |x| == |y| == |z| == size
    requires c0 == Raw(crc, x) && c1 == Raw(0, y) && c2 == Raw(0, z)
    ensures r == Raw(crc, x + y + z)
  {
    hide Xor, Zeros;
    ShiftIsZeros(table, 8 * size, c0);
    ZerosBound(c0, 8 * size);
    XorWord(Zeros(c0, 8 * size), c1);
    var c01: Word := Xor(Shift(table, c0), c1);
    ShiftIsZeros(table, 8 * size, c01);
    ZerosBound(c01, 8 * size);
    XorWord(Zeros(c01, 8 * size), c2);
    r := Xor(Shift(table, c01), c2);
    ThreeWay(crc, x, y, z);
  }

  /** _mm_crc32_u64: eight message bytes; here also extending a running prefix of `whole` by them. */
  method Crc64Step(crc: Word, bytes: Bytes, ghost seed: Word, ghost whole: Bytes, ghost done: nat) returns (r: Word)
    requires |bytes| == 8 && done + 8 <= |whole| && bytes == whole[done..done + 8]
    requires crc == Raw(seed, whole[..done])
    ensures r == Raw(seed, whole[..done + 8])
  {
    hide Raw;
    RawBound(crc, bytes);
    RawAppend(seed, whole[..done], bytes);
    assert whole[..done] + bytes == whole[..done + 8];
    r := Raw(crc, bytes);
  }

  /** One more message byte after a prefix. */
  method ByteMore(crc: Word, buf: Bytes, i: nat, ghost seed: Word) returns (r: Word)
    requires i < |buf| && crc == Raw(seed, buf[..i])
    ensures r == Raw(seed, buf[..i + 1])
  {
    RawAppend(seed, buf[..i], [buf[i]]);
    assert buf[..i] + [buf[i]] == buf[..i + 1];
    assert Raw(crc, [buf[i]]) == ByteStep(crc, buf[i]);
    RawBound(crc, [buf[i]]);
    r := ByteStep(crc, buf[i]);
  }

  /** Bytes up to the first eight-byte boundary. */
  method LeadingBytes(seed: Word, buf: Bytes, addr: nat) returns (r: Word, next: nat)
    ensures next <= |buf| && r == Raw(seed, buf[..next])
    ensures next == |buf| || (addr + next) % 8 == 0
  {
    hide Zeros, Xor;
    r, next := seed, 0;
    while next < |buf| && (addr + next) % 8 != 0
      invariant next <= |buf| && r == Raw(seed, buf[..next])
    {
      r := ByteMore(r, buf, next, seed);
      next := next + 1;
    }
  }

  /** As many three-way rounds as fit. */
  method ThreeWayRounds(table: array2<Word>, size: nat, crc: Word, buf: Bytes, start: nat, ghost seed: Word)
    returns (r: Word, next: nat)
    requires size % 8 == 0 && size > 0 && ShiftTable(table, 8 * size)
    requires start <= |buf| && crc == Raw(seed, buf[..start])
    ensures start <= next <= |buf| && r == Raw(seed, buf[..next])
    ensures |buf| - next < 3 * size
  {
    hide Zeros;
    r, next := crc, start;
    while |buf| - next >= size * 3
      invariant start <= next <= |buf| && r == Raw(seed, buf[..next])
    {
      ghost var before := next;
      r := ThreeWayRound(table, size, r, buf, next);
      next := next + 3 * size;
      RawAppend(seed, buf[..before], buf[before..next]);
      assert buf[..before] + buf[before..next] == buf[..next];
    }
  }

  /** Whole eight-byte units, then the trailing bytes. */
  method TrailingBytes(crc: Word, buf: Bytes, start: nat, ghost seed: Word) returns (r: Word)
    requires start <= |buf| && crc == Raw(seed, buf[..start])
    ensures r == Raw(seed, buf)
  {
    hide Zeros;
    r := crc;
    var next := start;
    while |buf| - next >= 8
      invariant start <= next <= |buf| && r == Raw(seed, buf[..next])
    {
      r := Crc64Step(r, buf[next..next + 8], seed, buf, next);
      next := next + 8;
    }
    while next < |buf|
      invariant start <= next <= |buf| && r == Raw(seed, buf[..next])
    {
      r := ByteMore(r, buf, next, seed);
      next := next + 1;
    }
    assert buf[..|buf|] == buf;
  }

  /** crc32_hw on a buffer that starts at address `addr`. */
  method CrcHardware(crc: Word, buf: Bytes, addr: nat, long: array2<Word>, short: array2<Word>) returns (r: Word)
    requires HardwareTables(long, short)
    ensures r == Crc(crc, buf)
  {
    hide Xor, Zeros;
    XorWord(crc, ONES);
    var seed: Word := Xor(crc, ONES);
    var crc0, next := LeadingBytes(seed, buf, addr);
    crc0, next := ThreeWayRounds(long, LONG, crc0, buf, next, seed);
    crc0, next := ThreeWayRounds(short, SHORT, crc0, buf, next, seed);
    crc0 := TrailingBytes(crc0, buf, next, seed);
    XorWord(crc0, ONES);
    r := Xor(crc0, ONES);
  }

  // ---- slicing by eight ----

  lemma ZerosOfHighByte(x: Byte, n: nat, bits: nat)
    requires n <= bits
    ensures Zeros(x * Pow2(n), bits) == Zeros(x, bits - n)
  {
    ZerosAdd(x * Pow2(n), n, bits - n);
    ZerosShiftOut(x, n);
  }

  /** A register split into bytes, each through only as many bits as it needs. */
  lemma ZerosBySlices(w: Word, bits: nat)
    requires bits >= 24
    ensures Zeros(w, bits)
         == Xor(Xor(Xor(Zeros(ByteAt(w, 0), bits), Zeros(ByteAt(w, 1), bits - 8)),
                    Zeros(ByteAt(w, 2), bits - 16)), Zeros(ByteAt(w, 3), bits - 24))
  {
    hide Xor, Zeros, ByteAt;
    ZerosByBytes(w, bits);
    Pow2Word();
    Pow2Add(16, 8);
    ZerosOfHighByte(ByteAt(w, 1), 8, bits);
    ZerosOfHighByte(ByteAt(w, 2), 16, bits);
    ZerosOfHighByte(ByteAt(w, 3), 24, bits);
  }

  /** Four bytes as a little-endian word. */
  function Word32(d: Bytes): Word
    requires |d| == 4
  {
    d[3] * K24 + d[2] * K16 + d[1] * K8 + d[0]
  }

  lemma Word32Bytes(d: Bytes)
    requires |d| == 4
    ensures ByteAt(Word32(d), 0) == d[0] && ByteAt(Word32(d), 1) == d[1]
    ensures ByteAt(Word32(d), 2) == d[2] && ByteAt(Word32(d), 3) == d[3]
  {
    var d1: nat, d2: nat, d3: nat := d[1], d[2], d[3];
    var w := Word32(d);
    SplitByte(d[0], d3 * K16 + d2 * K8 + d1);
    SplitByte(d[1], d3 * K8 + d2);
    SplitByte(d[2], d3);
    NextByte(w, d[0], d3 * K16 + d2 * K8 + d1);
    NextByte(w / 256, d[1], d3 * K8 + d2);
    NextByte(w / 256 / 256, d[2], d3);
    assert ByteAt(w, 3) == ByteAt(w / 256, 2) == ByteAt(w / 256 / 256, 1) == ByteAt(w / 256 / 256 / 256, 0);
    assert ByteAt(w, 2) == ByteAt(w / 256, 1) == ByteAt(w / 256 / 256, 0);
    assert ByteAt(w, 1) == ByteAt(w / 256, 0);
  }

  lemma NextByte(w: nat, low: Byte, high: nat)
    requires w == 256 * high + low
    ensures w % 256 == low && w / 256 == high
  {
  }

  lemma SplitByte(low: Byte, high: nat)
    ensures (256 * high + low) % 256 == low && (256 * high + low) / 256 == high
  {
  }

  /** Message bytes absorbed one at a time are absorbed all at once, each at its own position. */
  lemma AbsorbOne(y: nat, n: nat, d: Byte)
    ensures ByteStep(Zeros(y, n), d) == Zeros(Xor(y, d * Pow2(n)), n + 8)
  {
    ZerosLinear(y, d * Pow2(n), n);
    ZerosShiftOut(d, n);
    ZerosAdd(Xor(y, d * Pow2(n)), n, 8);
  }

  lemma AbsorbFour(c: nat, d: Bytes)
    requires |d| == 4
    ensures Raw(c, d) == Zeros(Xor(c, Word32(d)), 32)
  {
    hide Xor, Zeros;
    RawFour(c, d);
    AbsorbAll(c, d[0], d[1], d[2], d[3]);
    BytesXor(d[0], d[1], d[2], d[3]);
    XorMoves(c, d[0], d[1] * K8, d[2] * K16, d[3] * K24);
  }

  lemma XorMoves(c: nat, x0: nat, x1: nat, x2: nat, x3: nat)
    ensures Xor(Xor(Xor(Xor(c, x0), x1), x2), x3) == Xor(c, Xor(Xor(Xor(x0, x1), x2), x3))
  {
    XorAssociates(c, x0, x1);
    XorAssociates(c, Xor(x0, x1), x2);
    XorAssociates(c, Xor(Xor(x0, x1), x2), x3);
  }

  lemma AbsorbAll(c: nat, d0: Byte, d1: Byte, d2: Byte, d3: Byte)
    ensures ByteStep(ByteStep(ByteStep(ByteStep(c, d0), d1), d2), d3)
         == Zeros(Xor(Xor(Xor(Xor(c, d0), d1 * K8), d2 * K16), d3 * K24), 32)
  {
    hide Xor, Zeros;
    Pow2Word();
    Pow2Add(16, 8);
    AbsorbOne(Xor(c, d0), 8, d1);
    AbsorbOne(Xor(Xor(c, d0), d1 * K8), 16, d2);
    AbsorbOne(Xor(Xor(Xor(c, d0), d1 * K8), d2 * K16), 24, d3);
  }

  lemma RawFour(c: nat, d: Bytes)
    requires |d| == 4
    ensures Raw(c, d) == ByteStep(ByteStep(ByteStep(ByteStep(c, d[0]), d[1]), d[2]), d[3])
  {
    var r1 := ByteStep(c, d[0]);
    var r2 := ByteStep(r1, d[1]);
    var r3 := ByteStep(r2, d[2]);
    assert d[1..][1..] == d[2..] && d[2..][1..] == d[3..] && d[3..][1..] == [];
    assert Raw(r1, d[1..]) == Raw(r2, d[2..]);
    assert Raw(r2, d[2..]) == Raw(r3, d[3..]);
    assert Raw(r3, d[3..]) == ByteStep(r3, d[3]);
  }

  /** Table k carries a byte through k + 1 zero bytes. */
  ghost predicate SliceTable(t: array2<Word>)
    reads t
  {
    t.Length0 == 8 && t.Length1 == 256
    && forall k, m :: 0 <= k < 8 && 0 <= m < 256 ==> t[k, m] == Zeros(m, 8 * (k + 1))
  }

  lemma TableAdvance(entry: nat, m: Byte, k: nat)
    requires entry == Zeros(m, 8 * k) && entry < 0x1_0000_0000
    ensures Zeros(m, 8 * (k + 1)) == Xor(Zeros(entry % 256, 8), entry / 256)
  {
    hide Xor, Zeros;
    ZerosAdd(m, 8 * k, 8);
    ZerosEight(entry);
  }

  /** Eight zero bits: the low byte goes through, the rest just moves down. */
  lemma ZerosEight(w: nat)
    ensures Zeros(w, 8) == Xor(Zeros(w % 256, 8), w / 256)
  {
    var n := 8;
    assert Pow2(n) == 256 by { Pow2Word(); }
    ZerosOfSum(w / 256, w % 256, n);
  }

  lemma ZerosOfSum(high: nat, low: nat, n: nat)
    requires low < Pow2(n)
    ensures Zeros(high * Pow2(n) + low, n) == Xor(Zeros(low, n), high)
  {
    hide Xor, Zeros;
    XorDisjoint(high, low, n);
    XorCommutes(high * Pow2(n), low);
    ZerosLinear(low, high * Pow2(n), n);
    ZerosShiftOut(high, n);
  }

  method EightBits(n: Byte) returns (crc: Word)
    ensures crc == Zeros(n, 8)
  {
    crc := n;
    for bit := 0 to 8
      invariant Zeros(n, 8) == Zeros(crc, 8 - bit)
    {
      XorWord(crc / 2, POLY);
      crc := if crc % 2 == 1 then Xor(crc / 2, POLY) else crc / 2;
    }
    assert Zeros(crc, 0) == crc;
  }

  /** crc32_init_sw: the first table bit by bit, each further table from the one before. */
  method InitSoftware(table: array2<Word>)
    requires table.Length0 == 8 && table.Length1 == 256
    modifies table
    ensures SliceTable(table)
  {
    hide Xor, Zeros;
    for n := 0 to 256
      invariant forall m :: 0 <= m < n ==> table[0, m] == Zeros(m, 8)
    {
      table[0, n] := EightBits(n);
    }
    for n := 0 to 256
      invariant forall m :: 0 <= m < 256 ==> table[0, m] == Zeros(m, 8)
      invariant forall k, m :: 0 <= k < 8 && 0 <= m < n ==> table[k, m] == Zeros(m, 8 * (k + 1))
    {
      var crc: Word := table[0, n];
      for k := 1 to 8
        invariant forall m :: 0 <= m < 256 ==> table[0, m] == Zeros(m, 8)
        invariant forall k, m :: 0 <= k < 8 && 0 <= m < n ==> table[k, m] == Zeros(m, 8 * (k + 1))
        invariant forall j :: 0 <= j < k ==> table[j, n] == Zeros(n, 8 * (j + 1))
        invariant crc == Zeros(n, 8 * k)
      {
        TableAdvance(crc, n, k);
        ZerosBound(n, 8 * (k + 1));
        crc := Xor(table[0, crc % 256], crc / 256);
        table[k, n] := crc;
      }
    }
  }

  /** The eight lookups for a register and eight message bytes; the low four bytes are mixed with the register first. */
  function Lookups(table: array2<Word>, crc: Word, d: Bytes): nat
    requires table.Length0 == 8 && table.Length1 == 256 && |d| == 8
    reads table
  {
    var low := MixLow(crc, d);
    var a := Xor(Xor(Xor(table[7, ByteAt(low, 0)], table[6, ByteAt(low, 1)]), table[5, ByteAt(low, 2)]), table[4, ByteAt(low, 3)]);
    var b := Xor(Xor(Xor(table[3, d[4]], table[2, d[5]]), table[1, d[6]]), table[0, d[7]]);
    Xor(a, b)
  }

  function MixLow(crc: Word, d: Bytes): Word
    requires |d| == 8
  {
    XorWord(crc, Word32(d[..4]));
    Xor(crc, Word32(d[..4]))
  }

  lemma LookupsAreRaw(table: array2<Word>, crc: Word, d: Bytes)
    requires SliceTable(table) && |d| == 8
    ensures Lookups(table, crc, d) == Raw(crc, d)
  {
    hide Xor, Zeros, ByteAt, Raw;
    var low, high := MixLow(crc, d), Word32(d[4..]);
    ZerosBySlices(low, 64);
    ZerosBySlices(high, 32);
    Word32Bytes(d[4..]);
    assert Lookups(table, crc, d) == Xor(Zeros(low, 64), Zeros(high, 32));
    RawAppend(crc, d[..4], d[4..]);
    assert d == d[..4] + d[4..];
    AbsorbFour(crc, d[..4]);
    AbsorbFour(Zeros(low, 32), d[4..]);
    ZerosLinear(Zeros(low, 32), high, 32);
    ZerosAdd(low, 32, 32);
  }

  /** crc32_sw on a buffer that starts at address `addr`. */
  method CrcSoftware(crc: Word, buf: Bytes, addr: nat, table: array2<Word>) returns (r: Word)
    requires SliceTable(table)
    ensures r == Crc(crc, buf)
  {
    hide Xor, Zeros;
    XorWord(crc, ONES);
    var seed: Word := Xor(crc, ONES);
    var c: Word, next: nat := seed, 0;
    assert buf[..0] == [];
    while next < |buf| && (addr + next) % 8 != 0
      invariant next <= |buf| && c == Raw(seed, buf[..next])
    {
      c := TableByte(c, buf, next, table, seed);
      next := next + 1;
    }
    while |buf| - next >= 8
      invariant next <= |buf| && c == Raw(seed, buf[..next])
    {
      c := TableEight(c, buf, next, table, seed);
      next := next + 8;
    }
    while next < |buf|
      invariant next <= |buf| && c == Raw(seed, buf[..next])
    {
      c := TableByte(c, buf, next, table, seed);
      next := next + 1;
    }
    assert buf[..|buf|] == buf;
    XorWord(c, ONES);
    r := Xor(c, ONES);
  }

  method TableByte(crc: Word, buf: Bytes, i: nat, table: array2<Word>, ghost seed: Word) returns (r: Word)
    requires SliceTable(table) && i < |buf| && crc == Raw(seed, buf[..i])
    ensures r == Raw(seed, buf[..i + 1])
  {
    RawAppend(seed, buf[..i], [buf[i]]);
    assert buf[..i] + [buf[i]] == buf[..i + 1];
    assert Raw(crc, [buf[i]]) == ByteStep(crc, buf[i]);
    RawBound(crc, [buf[i]]);
    XorWord(crc, buf[i]);
    OneLookup(crc, buf[i]);
    r := Xor(table[0, Xor(crc, buf[i]) % 256], crc / 256);
  }

  /** One lookup is one byte: the message byte only meets the low byte of the register. */
  lemma OneLookup(crc: Word, d: Byte)
    ensures ByteStep(crc, d) == Xor(Zeros(Xor(crc, d) % 256, 8), crc / 256)
  {
    ZerosEight(Xor(crc, d));
    Pow2Word();
    XorHigh(crc, d, 8);
  }

  lemma {:induction false} XorHigh(a: nat, b: nat, n: nat)
    requires b < Pow2(n)
    ensures Xor(a, b) / Pow2(n) == a / Pow2(n)
    decreases n
  {
    if n > 0 {
      XorHalves(a, b);
      XorHigh(a / 2, b / 2, n - 1);
      DivDouble(Xor(a, b), Pow2(n - 1));
      DivDouble(a, Pow2(n - 1));
    } else {
      XorZero(a);
    }
  }

  lemma DivDouble(a: nat, p: nat)
    requires p > 0
    ensures a / (2 * p) == (a / 2) / p
  {
    var q := (a / 2) / p;
    var r := (a / 2) % p;
    assert a / 2 == p * q + r;
    assert a == (2 * p) * q + (2 * r + a % 2);
    ModUnique(a, 2 * p, q, 2 * r + a % 2);
  }

  method TableEight(crc: Word, buf: Bytes, i: nat, table: array2<Word>, ghost seed: Word) returns (r: Word)
    requires SliceTable(table) && i + 8 <= |buf| && crc == Raw(seed, buf[..i])
    ensures r == Raw(seed, buf[..i + 8])
  {
    var d := buf[i..i + 8];
    RawAppend(seed, buf[..i], d);
    assert buf[..i] + d == buf[..i + 8];
    LookupsAreRaw(table, crc, d);
    RawBound(crc, d);
    r := Lookups(table, crc, d);
  }

  // ---- masked checksums (util/crc32c.h) ----

  const MASK_DELTA: Word := 0xa282ead8

  /** The form a checksum is stored in: its low 15 bits moved to the top, and the whole shifted by a fixed amount. */
  function Mask(crc: Word): Word {
    (crc / 0x8000 + (crc % 0x8000) * 0x2_0000 + MASK_DELTA) % 0x1_0000_0000
  }

  function Unmask(masked: Word): Word {
    var rot := (masked - MASK_DELTA) % 0x1_0000_0000;
    rot / 0x2_0000 + (rot % 0x2_0000) * 0x8000
  }

  /** Some stored forms. */
  lemma MaskValues()
    ensures Mask(0) == 0xa282_ead8 && Mask(1) == 0xa284_ead8 && Mask(0x8000) == 0xa282_ead9
  {
  }

  lemma MaskRoundTrip(crc: Word)
    ensures Unmask(Mask(crc)) == crc
  {
    var high, low := crc / 0x8000, crc % 0x8000;
    var rot: Word := high + low * 0x2_0000;
    MaskShift(rot);
    assert rot / 0x2_0000 == low && rot % 0x2_0000 == high;
  }

  lemma MaskShift(rot: Word)
    ensures ((rot + MASK_DELTA) % 0x1_0000_0000 - MASK_DELTA) % 0x1_0000_0000 == rot
  {
  }
}
