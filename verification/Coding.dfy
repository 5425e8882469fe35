/** Fixed-width little-endian integers, varints and length-prefixed slices (util/coding.h, util/slice.c). */
module Coding {
  import opened Bytes

  const UINT32 := 0x1_0000_0000
  const UINT64 := 0x1_0000_0000_0000_0000

  function Pow(base: nat, n: nat): (r: nat)
    requires base > 0
    ensures r > 0
  {
    if n == 0 then 1 else base * Pow(base, n - 1)
  }

  /** The n low-order bytes of x, least significant first. */
  function Fixed(x: nat, n: nat): (r: Bytes)
    ensures |r| == n
  {
    if n == 0 then [] else [x % 256] + Fixed(x / 256, n - 1)
  }

  function FixedValue(b: Bytes): nat {
    if b == [] then 0 else b[0] + 256 * FixedValue(b[1..])
  }

  lemma {:induction false} FixedRoundTrip(x: nat, n: nat)
    ensures FixedValue(Fixed(x, n)) == x % Pow(256, n)
  {
    if n > 0 {
      FixedRoundTrip(x / 256, n - 1);
      var p := Pow(256, n - 1);
      assert Fixed(x, n)[1..] == Fixed(x / 256, n - 1);
      ModSplit(x, p);
    }
  }

  lemma ModSplit(x: nat, p: nat)
    requires p > 0
    ensures x % 256 + 256 * ((x / 256) % p) == x % (256 * p)
  {
    var q := x / 256;
    var a := q / p;
    var b := q % p;
    assert q == p * a + b;
    assert x == 256 * (p * a + b) + x % 256 == (256 * p) * a + (256 * b + x % 256);
    var r := 256 * b + x % 256;
    assert b <= p - 1;
    assert 0 <= r < 256 * p;
    ModUnique(x, 256 * p, a, r);
  }

  lemma ModUnique(x: nat, m: nat, a: nat, r: nat)
    requires m > 0 && x == m * a + r && r < m
    ensures x % m == r && x / m == a
  {
    var d := x / m - a;
    assert m * d == r - x % m by {
      assert x == m * (x / m) + x % m;
      assert m * (x / m) - m * a == m * d;
    }
    assert d == 0;
  }

  lemma FixedExact(x: nat, n: nat)
    requires x < Pow(256, n)
    ensures FixedValue(Fixed(x, n)) == x
  {
    FixedRoundTrip(x, n);
    ModUnique(x, Pow(256, n), 0, x);
  }

  lemma Fixed32RoundTrip(x: nat)
    requires x < UINT32
    ensures FixedValue(Fixed(x, 4)) == x
  {
    assert Pow(256, 4) == UINT32 by { PowUnroll4(); }
    FixedExact(x, 4);
  }

  lemma PowUnroll4()
    ensures Pow(256, 4) == UINT32 && Pow(256, 2) == 0x1_0000
  {
    assert Pow(256, 0) == 1;
    assert Pow(256, 1) == 256;
    assert Pow(256, 2) == 0x1_0000;
    assert Pow(256, 3) == 0x100_0000;
  }

  lemma Fixed64RoundTrip(x: nat)
    requires x < UINT64
    ensures FixedValue(Fixed(x, 8)) == x
  {
    PowUnroll4();
    assert Pow(256, 5) == 0x100_0000_0000;
    assert Pow(256, 6) == 0x1_0000_0000_0000;
    assert Pow(256, 7) == 0x100_0000_0000_0000;
    assert Pow(256, 8) == UINT64;
    FixedExact(x, 8);
  }

  /** Base-128 groups, least significant first, all but the last with the high bit set. */
  function Varint(x: nat): (r: Bytes)
    ensures |r| >= 1
  {
    if x < 128 then [x] else [128 + x % 128] + Varint(x / 128)
  }

  /** Reads at most `groups` bytes; None when they run out before a byte without the high bit. */
  function VarintRead(input: Bytes, groups: nat): (r: Option<(nat, Bytes)>)
    ensures r.Some? ==> |r.value.1| < |input| && input[|input| - |r.value.1|..] == r.value.1
  {
    if groups == 0 || input == [] then None
    else if input[0] < 128 then Some((input[0], input[1..]))
    else match VarintRead(input[1..], groups - 1)
      case None => None
      case Some((v, rest)) => Some((input[0] - 128 + 128 * v, rest))
  }

  lemma DivTwice(x: nat, a: nat, b: nat)
    requires a > 0 && b > 0
    ensures a * b > 0 && x / a / b == x / (a * b)
  {
    var q, r := x / a, x % a;
    var q', r' := q / b, q % b;
    Below(a, b, r', r);
    Composed(x, a, b, q, r, q', r');
    ModUnique(x, a * b, q', a * r' + r);
  }

  lemma Composed(x: nat, a: nat, b: nat, q: nat, r: nat, q': nat, r': nat)
    requires x == a * q + r && q == b * q' + r'
    ensures x == a * b * q' + (a * r' + r)
  {
    assert a * (b * q' + r') == a * (b * q') + a * r';
    assert a * (b * q') == a * b * q';
  }

  lemma Below(a: nat, b: nat, r': nat, r: nat)
    requires r' < b && r < a
    ensures a * r' + r < a * b
  {
    assert a * r' <= a * (b - 1);
  }

  /** Byte k of a fixed-width integer is its k-th base-256 digit, the lowest first. */
  lemma {:induction false} FixedDigits(x: nat, n: nat, k: nat)
    requires k < n
    ensures Fixed(x, n)[k] == x / Pow(256, k) % 256
    decreases k
  {
    if k > 0 {
      FixedDigits(x / 256, n - 1, k - 1);
      DivTwice(x, 256, Pow(256, k - 1));
    }
  }

  /** Byte k of a varint has the k-th base-128 digit, and the high bit exactly when another byte follows; none is wasted. */
  lemma {:induction false} VarintDigits(x: nat, k: nat)
    requires k < |Varint(x)|
    ensures Varint(x)[k] % 128 == x / Pow(128, k) % 128 && (Varint(x)[k] >= 128 <==> k < |Varint(x)| - 1)
    ensures k > 0 && k == |Varint(x)| - 1 ==> Varint(x)[k] > 0
    decreases k
  {
    if k > 0 {
      VarintDigits(x / 128, k - 1);
      DivTwice(x, 128, Pow(128, k - 1));
    }
  }

  lemma {:induction false} VarintReadsBack(x: nat, rest: Bytes, groups: nat)
    requires groups >= 1 && x < Pow(128, groups)
    ensures VarintRead(Varint(x) + rest, groups) == Some((x, rest))
  {
    var input := Varint(x) + rest;
    if x < 128 {
      assert input[1..] == rest;
    } else {
      assert Pow(128, 1) == 128 * Pow(128, 0);
      assert input[1..] == Varint(x / 128) + rest;
      VarintReadsBack(x / 128, rest, groups - 1);
    }
  }

  /** ldb_varint32_slurp: five groups, the result truncated to 32 bits. */
  function Varint32Slurp(input: Bytes): (r: Option<(nat, Bytes)>)
    ensures r.Some? ==> r.value.0 < UINT32 && |r.value.1| < |input|
  {
    match VarintRead(input, 5)
    case None => None
    case Some((v, rest)) => Some((v % UINT32, rest))
  }

  /** ldb_varint64_slurp: ten groups, the result truncated to 64 bits. */
  function Varint64Slurp(input: Bytes): (r: Option<(nat, Bytes)>)
    ensures r.Some? ==> r.value.0 < UINT64 && |r.value.1| < |input|
  {
    match VarintRead(input, 10)
    case None => None
    case Some((v, rest)) => Some((v % UINT64, rest))
  }

  lemma PowersOf128()
    ensures Pow(128, 5) == 0x8_0000_0000
    ensures Pow(128, 10) == 0x8_0000_0000 * 0x8_0000_0000
  {
    assert Pow(128, 1) == 128;
    assert Pow(128, 2) == 128 * 128;
    assert Pow(128, 3) == 128 * 128 * 128;
    assert Pow(128, 4) == 128 * 128 * 128 * 128;
    assert Pow(128, 5) == 0x8_0000_0000;
    assert Pow(128, 6) == 128 * 0x8_0000_0000;
    assert Pow(128, 7) == 128 * 128 * 0x8_0000_0000;
    assert Pow(128, 8) == 128 * 128 * 128 * 0x8_0000_0000;
    assert Pow(128, 9) == 128 * 128 * 128 * 128 * 0x8_0000_0000;
  }

  lemma Varint32RoundTrip(x: nat, rest: Bytes)
    requires x < UINT32
    ensures Varint32Slurp(Varint(x) + rest) == Some((x, rest))
  {
    hide Varint, VarintRead, Pow;
    var groups := 5;
    assert x < Pow(128, groups) by { PowersOf128(); }
    VarintReadsBack(x, rest, groups);
  }

  lemma Varint64RoundTrip(x: nat, rest: Bytes)
    requires x < UINT64
    ensures Varint64Slurp(Varint(x) + rest) == Some((x, rest))
  {
    hide Varint, VarintRead, Pow;
    var groups := 10;
    assert x < Pow(128, groups) by { PowersOf128(); }
    VarintReadsBack(x, rest, groups);
  }

  /** A slice on the wire: its length as a varint32, then its bytes. */
  function Slice(b: Bytes): (r: Bytes)
    ensures |r| > |b|
  {
    Varint(|b|) + b
  }

  function SliceSlurp(input: Bytes): (r: Option<(Bytes, Bytes)>)
    ensures r.Some? ==> |r.value.0| + |r.value.1| < |input| && |r.value.0| < UINT32
  {
    match Varint32Slurp(input)
    case None => None
    case Some((n, rest)) => if |rest| < n then None else Some((rest[..n], rest[n..]))
  }

  lemma SliceRoundTrip(b: Bytes, rest: Bytes)
    requires |b| < UINT32
    ensures SliceSlurp(Slice(b) + rest) == Some((b, rest))
  {
    assert Slice(b) + rest == Varint(|b|) + (b + rest);
    Varint32RoundTrip(|b|, b + rest);
    assert (b + rest)[..|b|] == b && (b + rest)[|b|..] == rest;
  }
}
