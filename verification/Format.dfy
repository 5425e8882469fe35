/** Internal keys on the wire and their comparator (dbformat.c). */
module Format {
  import opened Bytes
  import opened Coding
  import opened Mvcc

  const MAX_SEQUENCE := 0x100_0000_0000_0000 - 1

  /** pack_seqtype followed by ldb_pkey_export. */
  function ExportKey(key: Bytes, seqno: nat, kind: Kind): (r: Bytes)
    ensures |r| == |key| + 8
  {
    key + Fixed(Tag(seqno, kind), 8)
  }

  /** ldb_pkey_import; the value is (user key, sequence, type). */
  function ImportKey(x: Bytes): Option<(Bytes, nat, Kind)> {
    if |x| < 8 then None
    else
      var num := FixedValue(x[|x| - 8..]);
      if num % 256 > 1 then None
      else Some((x[..|x| - 8], num / 256, if num % 256 == 1 then Value else Deletion))
  }

  lemma TagBounds(seqno: nat, kind: Kind)
    requires seqno <= MAX_SEQUENCE
    ensures Tag(seqno, kind) < UINT64
    ensures Tag(seqno, kind) / 256 == seqno
    ensures Tag(seqno, kind) % 256 == if kind.Value? then 1 else 0
  {
  }

  lemma KeyRoundTrip(key: Bytes, seqno: nat, kind: Kind)
    requires seqno <= MAX_SEQUENCE
    ensures ImportKey(ExportKey(key, seqno, kind)) == Some((key, seqno, kind))
  {
    var x := ExportKey(key, seqno, kind);
    assert x[..|key|] == key && x[|key|..] == Fixed(Tag(seqno, kind), 8);
    TagBounds(seqno, kind);
    Fixed64RoundTrip(Tag(seqno, kind));
  }

  /** An internal key ends in its type, 1 for a value and 0 for a deletion, and the seven bytes of its sequence. */
  lemma KeyLayout(key: Bytes, seqno: nat, kind: Kind)
    ensures var x := ExportKey(key, seqno, kind);
            x[..|key|] == key && x[|key|] == (if kind.Value? then 1 else 0) && x[|key| + 1..] == Fixed(seqno, 7)
  {
    var x := ExportKey(key, seqno, kind);
    var tail := Fixed(Tag(seqno, kind), 8);
    assert x[|key|..] == tail && x[|key| + 1..] == tail[1..];
  }

  /** ldb_ikc_compare: user keys by the bytewise comparator, then the larger number first. */
  function CompareInternal(x: Bytes, y: Bytes): int
    requires |x| >= 8 && |y| >= 8
  {
    var r := Compare(x[..|x| - 8], y[..|y| - 8]);
    if r != 0 then r
    else
      var xn := FixedValue(x[|x| - 8..]);
      var yn := FixedValue(y[|y| - 8..]);
      if xn > yn then -1 else if xn < yn then 1 else 0
  }

  function KeyOf(e: Entry): (r: Bytes)
    ensures |r| >= 8
  {
    ExportKey(e.key, e.seqno, e.kind)
  }

  /** Comparing the encoded keys is comparing the entries in the internal order. */
  lemma CompareIsInternalOrder(a: Entry, b: Entry)
    requires a.seqno <= MAX_SEQUENCE && b.seqno <= MAX_SEQUENCE
    ensures CompareInternal(KeyOf(a), KeyOf(b)) < 0 <==> InternalLess(a, b)
    ensures CompareInternal(KeyOf(a), KeyOf(b)) > 0 <==> InternalLess(b, a)
    ensures CompareInternal(KeyOf(a), KeyOf(b)) == 0 <==> KeyOf(a) == KeyOf(b)
  {
    KeyRoundTrip(a.key, a.seqno, a.kind);
    KeyRoundTrip(b.key, b.seqno, b.kind);
    TagBounds(a.seqno, a.kind);
    TagBounds(b.seqno, b.kind);
    Fixed64RoundTrip(Tag(a.seqno, a.kind));
    Fixed64RoundTrip(Tag(b.seqno, b.kind));
    var x, y := KeyOf(a), KeyOf(b);
    assert x[..|x| - 8] == a.key && x[|x| - 8..] == Fixed(Tag(a.seqno, a.kind), 8);
    assert y[..|y| - 8] == b.key && y[|y| - 8..] == Fixed(Tag(b.seqno, b.kind), 8);
    LessIsTotal(a.key, b.key);
    CompareEqual(a.key, b.key);
    CompareSwap(a.key, b.key);
  }

  /** ldb_lkey_init: the memtable key of a lookup, a length-prefixed internal key. */
  function LookupKey(key: Bytes, s: nat): Bytes {
    Varint(|key| + 8) + ExportKey(key, s, Value)
  }

  /** The lookup key decodes to an internal key that sorts just before the versions of `key` numbered at most s. */
  lemma LookupKeySeeks(key: Bytes, s: nat, e: Entry)
    requires s <= MAX_SEQUENCE && e.seqno <= MAX_SEQUENCE && |key| + 8 < UINT32
    ensures SliceSlurp(LookupKey(key, s)) == Some((KeyOf(Probe(key, s)), []))
    ensures CompareInternal(KeyOf(e), KeyOf(Probe(key, s))) >= 0
       <==> Less(key, e.key) || (e.key == key && e.seqno <= s)
  {
    var internal := ExportKey(key, s, Value);
    SliceRoundTrip(internal, []);
    assert LookupKey(key, s) == Slice(internal) + [];
    CompareIsInternalOrder(e, Probe(key, s));
    ProbeSplits(key, s, e);
  }
}
