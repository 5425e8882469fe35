/** The write-ahead log as bytes: what the writer lays down and what a reader makes of any file (log_writer.c, log_reader.c). */
module LogFormat {
  import opened Bytes
  import opened Coding
  import Crc32c

  const BLOCK := 32768
  const HEADER := 7

  const FULL: Byte := 1
  const FIRST: Byte := 2
  const MIDDLE: Byte := 3
  const LAST: Byte := 4
  const EOF_CODE: Byte := 5
  const BAD_CODE: Byte := 6

  // ---- writing ----

  /** Checksum of the type and payload, length, type; then the payload. */
  function Physical(t: Byte, payload: Bytes): (r: Bytes)
    requires |payload| < 0x1_0000
    ensures |r| == HEADER + |payload|
  {
    Fixed(Checksum(t, payload), 4) + LengthBytes(|payload|) + [t] + payload
  }

  function LengthBytes(n: nat): (r: Bytes)
    requires n < 0x1_0000
    ensures |r| == 2
  {
    [n % 256, n / 256]
  }

  /** The checksum of the type byte, extended over the payload, masked for storage. */
  function Checksum(t: Byte, payload: Bytes): Crc32c.Word {
    Crc32c.Mask(Crc32c.Crc(Crc32c.Crc(0, [t]), payload))
  }

  function Zeroes(n: nat): (r: Bytes)
    ensures |r| == n
  {
    seq(n, i => 0)
  }

  function Padding(offset: nat): (r: nat)
    requires offset <= BLOCK
    ensures r < HEADER
  {
    if BLOCK - offset < HEADER then BLOCK - offset else 0
  }

  function Start(offset: nat): (r: nat)
    requires offset <= BLOCK
    ensures r + HEADER <= BLOCK
  {
    if BLOCK - offset < HEADER then 0 else offset
  }

  /** How much of the data the next fragment takes. */
  function Take(offset: nat, data: Bytes): (r: nat)
    requires offset <= BLOCK
    ensures r <= |data| && Start(offset) + HEADER + r <= BLOCK
  {
    var avail := BLOCK - Start(offset) - HEADER;
    if |data| < avail then |data| else avail
  }

  function FragmentType(begin: bool, end: bool): (t: Byte)
    ensures 1 <= t <= 4
  {
    if begin && end then FULL else if begin then FIRST else if end then LAST else MIDDLE
  }

  /** The bytes for one record, or for the rest of one, written at a block offset. */
  function Encode(offset: nat, data: Bytes, begin: bool): (r: Bytes)
    requires offset <= BLOCK
    ensures |r| >= HEADER
    decreases |data|, BLOCK - offset
  {
    var n := Take(offset, data);
    var end := n == |data|;
    var here := Zeroes(Padding(offset)) + Physical(FragmentType(begin, end), data[..n]);
    if end then here
    else here + Encode(Start(offset) + HEADER + n, data[n..], false)
  }

  /**
   * A physical record on disk: four bytes of masked CRC-32C of the type and the payload, two of length, the type, which is
   * 1 for a whole record and 2, 3 and 4 for the first, a middle and the last part of one; then the payload.
   */
  lemma PhysicalLayout(begin: bool, end: bool, payload: Bytes)
    requires |payload| < 0x1_0000
    ensures var t := if begin then if end then 1 else 2 else if end then 4 else 3;
            var r := Physical(FragmentType(begin, end), payload);
            && FixedValue(r[..4]) == Crc32c.Mask(Crc32c.Crc(0, [t] + payload))
            && r[4] == |payload| % 256 && r[5] == |payload| / 256 && r[6] == t && r[7..] == payload
  {
    var t := FragmentType(begin, end);
    hide Crc32c.Crc, Crc32c.Mask;
    Crc32c.CrcChains(0, [t], payload);
    Fixed32RoundTrip(Checksum(t, payload));
    var r := Physical(t, payload);
    assert r[..4] == Fixed(Checksum(t, payload), 4) && r[7..] == payload;
  }

  /** Where a header no longer fits before the next multiple of 32768, zeros go up to there. */
  lemma WritePads(p: nat, data: Bytes)
    requires p % 32768 > 32761
    ensures |Write(p, data)| > 32768 - p % 32768
    ensures forall k :: 0 <= k < 32768 - p % 32768 ==> Write(p, data)[k] == 0
  {
    hide Physical;
    var r := Write(p, data);
    assert |Zeroes(Padding(p % BLOCK))| == 32768 - p % 32768;
  }

  /** A full block offset and a fresh one write the same bytes. */
  lemma EncodeWraps(data: Bytes, begin: bool)
    ensures Encode(BLOCK, data, begin) == Encode(0, data, begin)
  {
    assert Zeroes(Padding(BLOCK)) == Zeroes(Padding(0)) == [];
    assert Take(BLOCK, data) == Take(0, data) && Start(BLOCK) == Start(0);
  }

  /** All the records, from file offset p on. */
  function WriteFrom(p: nat, records: seq<Bytes>): Bytes
    decreases |records|
  {
    if records == [] then []
    else Write(p, records[0]) + WriteFrom(p + |Write(p, records[0])|, records[1..])
  }

  function Write(p: nat, data: Bytes): Bytes {
    Encode(p % BLOCK, data, true)
  }

  // ---- reading ----

  datatype Phys = Fragment(t: Byte, data: Bytes) | Bad(report: Option<nat>) | Eof

  /** Where the block that holds offset p ends, if it is a whole block. */
  function BlockEnd(p: nat): (e: nat)
    ensures p < e <= p + BLOCK && e % BLOCK == 0
  {
    (p / BLOCK + 1) * BLOCK
  }

  function Min(a: int, b: int): int {
    if a < b then a else b
  }

  /** The payload length a header at p states. */
  function LengthAt(f: Bytes, p: nat): (n: nat)
    requires p + HEADER <= |f|
    ensures n < 0x1_0000
  {
    var high: nat := f[p + 5];
    f[p + 4] + 256 * high
  }

  /** Checksum test of the physical record of payload length n at p. */
  predicate ChecksumOk(f: Bytes, p: nat, n: nat)
    requires p + HEADER + n <= |f|
  {
    var stored := FixedValue(f[p..p + 4]);
    stored < 0x1_0000_0000 && Crc32c.Unmask(stored) == Crc32c.Crc(0, f[p + 6..p + HEADER + n])
  }

  /** read_physical_record at file offset p, and the offset it leaves the reader at. */
  function NextPhys(f: Bytes, p: nat): (r: (Phys, nat))
    ensures !r.0.Eof? ==> p < r.1 <= |f|
    decreases |f| - p
  {
    var e := BlockEnd(p);
    var end := Min(e, |f|);
    if end - p < HEADER then
      if e <= |f| then NextPhys(f, e) else (Eof, p)
    else
      var n := LengthAt(f, p);
      var t := f[p + 6];
      if p + HEADER + n > end then
        if e <= |f| then (Bad(Some(end - p)), end) else (Eof, p)
      else if t == 0 && n == 0 then (Bad(None), end)
      else if !ChecksumOk(f, p, n) then (Bad(Some(end - p)), end)
      else (Fragment(t, f[p + HEADER..p + HEADER + n]), p + HEADER + n)
  }

  /** What a caller of the reader observes: returned records, and reports of dropped bytes. */
  datatype Out = Record(data: Bytes) | Drop(bytes: nat)

  function DropOpen(open: Option<Bytes>): seq<Out> {
    if open.Some? && open.value != [] then [Drop(|open.value|)] else []
  }

  function OpenSize(open: Option<Bytes>): nat {
    if open.Some? then |open.value| else 0
  }

  /** The bytes that reading one physical record itself reports dropped. */
  function Report(phys: Phys): seq<nat> {
    if phys.Bad? && phys.report.Some? then [phys.report.value] else []
  }

  function Drops(sizes: seq<nat>): seq<Out> {
    seq(|sizes|, i requires 0 <= i < |sizes| => Drop(sizes[i]))
  }

  /** The effect of one physical record on the open fragmented record: what is observed, what is open next, end of log? */
  function Absorb(phys: Phys, open: Option<Bytes>): (seq<Out>, Option<Bytes>, bool) {
    match phys
    case Eof => ([], None, true)
    case Bad(_) => (if open.Some? then [Drop(|open.value|)] else [], None, false)
    case Fragment(t, d) =>
      if t == FULL then (DropOpen(open) + [Record(d)], None, false)
      else if t == FIRST then (DropOpen(open), Some(d), false)
      else if t == MIDDLE then
        if open.None? then ([Drop(|d|)], None, false) else ([], Some(open.value + d), false)
      else if t == LAST then
        if open.None? then ([Drop(|d|)], None, false) else ([Record(open.value + d)], None, false)
      else if t == EOF_CODE then ([], None, true)
      else if t == BAD_CODE then (if open.Some? then [Drop(|open.value|)] else [], None, false)
      else ([Drop(|d| + OpenSize(open))], None, false)
  }

  /** Everything a caller observes from offset p until the reader says the log has ended. */
  function Trace(f: Bytes, p: nat, open: Option<Bytes>): seq<Out>
    decreases |f| - p
  {
    var (phys, q) := NextPhys(f, p);
    var (out, next, done) := Absorb(phys, open);
    if done || phys.Eof? then out else Drops(Report(phys)) + out + Trace(f, q, next)
  }

  function Records(records: seq<Bytes>): seq<Out> {
    seq(|records|, i requires 0 <= i < |records| => Record(records[i]))
  }

  // ---- one fragment ----

  lemma Within(f: Bytes, p: nat, r: Bytes, a: nat, b: nat)
    requires p + |r| <= |f| && f[p..p + |r|] == r && a <= b <= |r|
    ensures f[p + a..p + b] == r[a..b]
    ensures forall i :: a <= i < b ==> f[p + i] == r[i]
  {
    forall i | a <= i < b ensures f[p + i] == r[i] {
      assert f[p..p + |r|][i] == r[i];
    }
  }

  lemma BlockEndIs(p: nat)
    ensures BlockEnd(p) - p == BLOCK - p % BLOCK
  {
  }

  lemma PhysicalParts(t: Byte, d: Bytes)
    requires |d| < 0x1_0000
    ensures var x := Physical(t, d);
            && x[4] == |d| % 256 && x[5] == |d| / 256 && x[6] == t
            && x[HEADER..] == d && x[6..] == [t] + d
            && x[..4] == Fixed(Crc32c.Mask(Crc32c.Crc(0, [t] + d)), 4)
  {
    hide Crc32c.Crc, Crc32c.Mask;
    Crc32c.CrcChains(0, [t], d);
  }

  lemma StoredChecksum(f: Bytes, p: nat, t: Byte, d: Bytes)
    requires |d| < 0x1_0000 && p + HEADER + |d| <= |f|
    requires f[p..p + HEADER + |d|] == Physical(t, d)
    ensures ChecksumOk(f, p, |d|)
  {
    hide Crc32c.Crc, Crc32c.Mask, Crc32c.Unmask, Physical;
    var x, crc := f[p..p + HEADER + |d|], Crc32c.Crc(0, [t] + d);
    PhysicalParts(t, d);
    assert f[p..p + 4] == x[..4];
    assert f[p + 6..p + HEADER + |d|] == x[6..];
    Fixed32RoundTrip(Crc32c.Mask(crc));
    Crc32c.MaskRoundTrip(crc);
  }

  lemma StatedLength(f: Bytes, p: nat, d: Bytes)
    requires p + HEADER <= |f| && |d| < 0x1_0000
    requires f[p + 4] == |d| % 256 && f[p + 5] == |d| / 256
    ensures LengthAt(f, p) == |d|
  {
  }

  lemma AcceptsHeader(f: Bytes, p: nat, n: nat)
    requires p % BLOCK + HEADER + n <= BLOCK && p + HEADER + n <= |f|
    requires LengthAt(f, p) == n && f[p + 6] >= 1 && ChecksumOk(f, p, n)
    ensures NextPhys(f, p) == (Fragment(f[p + 6], f[p + HEADER..p + HEADER + n]), p + HEADER + n)
  {
    hide ChecksumOk, LengthAt;
    BlockEndIs(p);
  }

  lemma HeaderFacts(f: Bytes, p: nat, t: Byte, d: Bytes)
    requires |d| < 0x1_0000 && p + HEADER + |d| <= |f|
    requires f[p..p + HEADER + |d|] == Physical(t, d)
    ensures LengthAt(f, p) == |d| && f[p + 6] == t && f[p + HEADER..p + HEADER + |d|] == d
  {
    hide LengthAt, Physical;
    var x := f[p..p + HEADER + |d|];
    PhysicalParts(t, d);
    Within(f, p, x, 0, HEADER);
    StatedLength(f, p, d);
    Within(f, p, x, HEADER, |x|);
    assert x[HEADER..|x|] == x[HEADER..];
  }

  /** A physical record that lies within one block is read back whole. */
  lemma ReadsFragment(f: Bytes, p: nat, t: Byte, d: Bytes)
    requires 1 <= t && p % BLOCK + HEADER + |d| <= BLOCK && p + HEADER + |d| <= |f|
    requires f[p..p + HEADER + |d|] == Physical(t, d)
    ensures NextPhys(f, p) == (Fragment(t, d), p + HEADER + |d|)
  {
    hide LengthAt, Physical, NextPhys, ChecksumOk, BlockEnd;
    HeaderFacts(f, p, t, d);
    StoredChecksum(f, p, t, d);
    AcceptsHeader(f, p, |d|);
  }

  lemma StopsShort(f: Bytes, p: nat, n: nat)
    requires p % BLOCK + HEADER + n <= BLOCK && p <= |f| < p + HEADER + n
    requires p + HEADER <= |f| ==> LengthAt(f, p) == n
    ensures NextPhys(f, p).0 == Eof
  {
    hide ChecksumOk, LengthAt;
    BlockEndIs(p);
  }

  /** A physical record cut short by the end of the file reads as the end of the log. */
  lemma CutFragment(f: Bytes, p: nat, t: Byte, d: Bytes)
    requires p % BLOCK + HEADER + |d| <= BLOCK && p <= |f| < p + HEADER + |d|
    requires f[p..] == Physical(t, d)[..|f| - p]
    ensures NextPhys(f, p).0 == Eof
  {
    hide ChecksumOk, LengthAt, Physical, NextPhys;
    if |f| - p >= HEADER {
      PhysicalParts(t, d);
      assert f[p + 4] == f[p..][4] && f[p + 5] == f[p..][5];
      StatedLength(f, p, d);
    }
    StopsShort(f, p, |d|);
  }

  /** The first bytes of an encoding: padding, then one physical record. */
  lemma EncodeParts(offset: nat, data: Bytes, begin: bool)
    requires offset <= BLOCK
    ensures var n := Take(offset, data);
            var pad := Padding(offset);
            var r := Encode(offset, data, begin);
            && n < 0x1_0000 && |r| >= pad + HEADER + n
            && r[pad..pad + HEADER + n] == Physical(FragmentType(begin, n == |data|), data[..n])
            && (n == |data| ==> |r| == pad + HEADER + n)
            && (n < |data| ==> r[pad + HEADER + n..] == Encode(Start(offset) + HEADER + n, data[n..], false))
  {
    hide Physical, Take, Start, Padding, FragmentType, Zeroes;
  }

  // ---- whole records ----

  lemma PadSkips(f: Bytes, p: nat)
    requires Padding(p % BLOCK) > 0 || p % BLOCK + HEADER <= BLOCK
    requires p + Padding(p % BLOCK) <= |f|
    ensures NextPhys(f, p).0 == NextPhys(f, p + Padding(p % BLOCK)).0
    ensures !NextPhys(f, p).0.Eof? ==> NextPhys(f, p) == NextPhys(f, p + Padding(p % BLOCK))
    ensures (p + Padding(p % BLOCK)) % BLOCK == Start(p % BLOCK)
  {
    hide ChecksumOk, LengthAt;
    BlockEndIs(p);
    if Padding(p % BLOCK) > 0 {
      assert p + Padding(p % BLOCK) == BlockEnd(p);
    }
  }

  lemma TraceAfterPad(f: Bytes, p: nat, open: Option<Bytes>)
    requires p + Padding(p % BLOCK) <= |f|
    ensures Trace(f, p, open) == Trace(f, p + Padding(p % BLOCK), open)
  {
    PadSkips(f, p);
  }

  /** The offset reached after a fragment, as a block offset, up to the wrap. */
  lemma Advance(p: nat, offset: nat, n: nat)
    requires offset == p % BLOCK && offset + HEADER + n <= BLOCK
    ensures (p + HEADER + n) % BLOCK == (if offset + HEADER + n == BLOCK then 0 else offset + HEADER + n)
  {
  }

  lemma EncodeAt(p: nat, offset: nat, data: Bytes, n: nat)
    requires offset == p % BLOCK && offset + HEADER + n <= BLOCK
    ensures Encode(offset + HEADER + n, data, false) == Encode((p + HEADER + n) % BLOCK, data, false)
  {
    Advance(p, offset, n);
    EncodeWraps(data, false);
  }

  function Joined(open: Option<Bytes>, data: Bytes): Bytes {
    if open.Some? then open.value + data else data
  }

  lemma JoinedSplits(open: Option<Bytes>, data: Bytes, n: nat)
    requires n <= |data|
    ensures Joined(Some(Joined(open, data[..n])), data[n..]) == Joined(open, data)
  {
    assert data == data[..n] + data[n..];
  }

  /** A fragment that takes nothing fills its block, and the next one takes something. */
  function Stalls(p: nat, data: Bytes): nat {
    if Take(p % BLOCK, data) == 0 then 1 else 0
  }

  lemma Progress(p: nat, q: nat, data: Bytes, n: nat)
    requires n == Take(p % BLOCK, data) < |data| && q == p + Padding(p % BLOCK)
    ensures q % BLOCK == Start(p % BLOCK)
    ensures n == 0 ==> Stalls(p, data) == 1 && Stalls(q + HEADER + n, data) == 0
    ensures Encode(Start(p % BLOCK) + HEADER + n, data[n..], false)
         == Encode((q + HEADER + n) % BLOCK, data[n..], false)
  {
    hide Encode;
    EncodeAt(q, Start(p % BLOCK), data[n..], n);
    Advance(q, Start(p % BLOCK), n);
  }

  /** One fragment joins the open record, and the last one completes it. */
  lemma JoinsFragment(f: Bytes, q: nat, begin: bool, end: bool, d: Bytes, open: Option<Bytes>, next: nat)
    requires (open.Some? <==> !begin) && NextPhys(f, q) == (Fragment(FragmentType(begin, end), d), next)
    ensures end ==> Trace(f, q, open) == [Record(Joined(open, d))] + Trace(f, next, None)
    ensures !end ==> Trace(f, q, open) == Trace(f, next, Some(Joined(open, d)))
  {
    hide NextPhys;
    assert Drops([]) == [];
  }

  /** Reading the first physical record of an encoding, and where that leaves the open record. */
  lemma ReadsFirst(f: Bytes, p: nat, data: Bytes, begin: bool, open: Option<Bytes>)
    requires open.Some? <==> !begin
    requires var n := Take(p % BLOCK, data);
             var q := p + Padding(p % BLOCK);
             q + HEADER + n <= |f| && f[q..q + HEADER + n] == Physical(FragmentType(begin, n == |data|), data[..n])
    ensures var n := Take(p % BLOCK, data);
            var q := p + Padding(p % BLOCK) + HEADER + n;
            && (n == |data| ==> Trace(f, p, open) == [Record(Joined(open, data))] + Trace(f, q, None))
            && (n < |data| ==> Trace(f, p, open) == Trace(f, q, Some(Joined(open, data[..n]))))
  {
    hide Physical, NextPhys, Trace, Joined, FragmentType;
    var n := Take(p % BLOCK, data);
    var q := p + Padding(p % BLOCK);
    TraceAfterPad(f, p, open);
    PadSkips(f, p);
    ReadsFragment(f, q, FragmentType(begin, n == |data|), data[..n]);
    JoinsFragment(f, q, begin, n == |data|, data[..n], open, q + HEADER + n);
    assert n == |data| ==> data[..n] == data;
  }

  /** An encoded record, or the rest of one, reads back as that record and nothing else. */
  lemma {:induction false} ReadsEncoded(f: Bytes, p: nat, data: Bytes, begin: bool, open: Option<Bytes>)
    requires open.Some? <==> !begin
    requires var r := Encode(p % BLOCK, data, begin); p + |r| <= |f| && f[p..p + |r|] == r
    ensures Trace(f, p, open)
         == [Record(Joined(open, data))] + Trace(f, p + |Encode(p % BLOCK, data, begin)|, None)
    decreases |data|, Stalls(p, data)
  {
    hide Physical, Encode, NextPhys, Trace, Take, Padding, Start, FragmentType, Joined;
    var r := Encode(p % BLOCK, data, begin);
    var n, pad := Take(p % BLOCK, data), Padding(p % BLOCK);
    var q := p + pad;
    EncodeParts(p % BLOCK, data, begin);
    Within(f, p, r, pad, pad + HEADER + n);
    ReadsFirst(f, p, data, begin, open);
    if n < |data| {
      Progress(p, q, data, n);
      Within(f, p, r, pad + HEADER + n, |r|);
      assert r[pad + HEADER + n..|r|] == r[pad + HEADER + n..];
      var next := Some(Joined(open, data[..n]));
      ReadsEncoded(f, q + HEADER + n, data[n..], false, next);
      JoinedSplits(open, data, n);
    }
  }

  /** A file that ends within the first physical record of an encoding reads as the end of the log. */
  lemma CutFirst(f: Bytes, p: nat, data: Bytes, begin: bool, open: Option<Bytes>)
    requires var n := Take(p % BLOCK, data);
             var q := p + Padding(p % BLOCK);
             && p <= |f| < q + HEADER + n
             && (q <= |f| ==> f[q..] == Physical(FragmentType(begin, n == |data|), data[..n])[..|f| - q])
    ensures Trace(f, p, open) == []
  {
    hide Physical, NextPhys, FragmentType;
    var n := Take(p % BLOCK, data);
    var q := p + Padding(p % BLOCK);
    if |f| < q {
      CutPadding(f, p);
    } else {
      PadSkips(f, p);
      StartFits(p % BLOCK, data);
      CutFragment(f, q, FragmentType(begin, n == |data|), data[..n]);
    }
  }

  /** A record cut short by the end of the file is silently ignored. */
  lemma {:induction false} CutEncoded(f: Bytes, p: nat, data: Bytes, begin: bool, open: Option<Bytes>)
    requires open.Some? <==> !begin
    requires var r := Encode(p % BLOCK, data, begin); p <= |f| < p + |r| && f[p..] == r[..|f| - p]
    ensures Trace(f, p, open) == []
    decreases |data|, Stalls(p, data)
  {
    hide Physical, Encode, Take, Start, FragmentType, NextPhys, Padding, Trace;
    var r := Encode(p % BLOCK, data, begin);
    var n, pad := Take(p % BLOCK, data), Padding(p % BLOCK);
    var q := p + pad;
    EncodeParts(p % BLOCK, data, begin);
    var x := r[pad..pad + HEADER + n];
    if |f| < q + HEADER + n {
      if q <= |f| {
        CutTail(f, p, r, pad);
        assert r[pad..][..|f| - q] == x[..|f| - q];
      }
      CutFirst(f, p, data, begin, open);
    } else {
      var k := pad + HEADER + n;
      CutTail(f, p, r, k);
      assert f[q..q + HEADER + n] == x by { CutHead(f, p, r, pad, k); }
      ReadsFirst(f, p, data, begin, open);
      Progress(p, q, data, n);
      assert r[k..] == Encode((p + k) % BLOCK, data[n..], false);
      CutEncoded(f, p + k, data[n..], false, Some(Joined(open, data[..n])));
    }
  }

  lemma CutTail(f: Bytes, p: nat, r: Bytes, k: nat)
    requires p <= |f| < p + |r| && f[p..] == r[..|f| - p] && p + k <= |f|
    ensures f[p + k..] == r[k..][..|f| - p - k]
  {
    forall i | k <= i < |f| - p ensures f[p + i] == r[i] {
      assert f[p..][i] == r[..|f| - p][i];
    }
  }

  lemma CutHead(f: Bytes, p: nat, r: Bytes, a: nat, b: nat)
    requires p <= |f| < p + |r| && f[p..] == r[..|f| - p] && a <= b && p + b <= |f|
    ensures f[p + a..p + b] == r[a..b]
  {
    forall i | a <= i < b ensures f[p + i] == r[i] {
      assert f[p..][i] == r[..|f| - p][i];
    }
  }

  lemma StartFits(offset: nat, data: Bytes)
    requires offset <= BLOCK
    ensures Start(offset) + HEADER + Take(offset, data) <= BLOCK
  {
  }

  lemma CutPadding(f: Bytes, p: nat)
    requires p <= |f| < p + Padding(p % BLOCK)
    ensures NextPhys(f, p).0 == Eof
  {
    BlockEndIs(p);
  }

  // ---- whole logs ----

  /** How many of the records, written from p on, end at or before the file does. */
  function Complete(p: nat, records: seq<Bytes>, size: nat): (k: nat)
    ensures k <= |records|
    decreases |records|
  {
    if records == [] || size < p + |Write(p, records[0])| then 0
    else 1 + Complete(p + |Write(p, records[0])|, records[1..], size)
  }

  lemma {:induction false} ReadsPrefix(f: Bytes, p: nat, records: seq<Bytes>)
    requires p <= |f| && f[p..] <= WriteFrom(p, records)
    ensures Trace(f, p, None) == Records(records[..Complete(p, records, |f|)])
    decreases |records|
  {
    hide Encode, NextPhys, Trace;
    var k := Complete(p, records, |f|);
    if records == [] {
      TraceAtEnd(f);
    } else {
      var r := Write(p, records[0]);
      var rest := WriteFrom(p + |r|, records[1..]);
      assert WriteFrom(p, records) == r + rest;
      if |f| < p + |r| {
        assert f[p..] == r[..|f| - p];
        CutEncoded(f, p, records[0], true, None);
      } else {
        assert f[p..p + |r|] == r;
        assert f[p + |r|..] <= rest;
        ReadsEncoded(f, p, records[0], true, None);
        ReadsPrefix(f, p + |r|, records[1..]);
        assert records[..k] == [records[0]] + records[1..][..k - 1];
      }
    }
  }

  lemma TraceAtEnd(f: Bytes)
    ensures Trace(f, |f|, None) == []
  {
    BlockEndIs(|f|);
  }

  lemma {:induction false} CompleteAll(p: nat, records: seq<Bytes>, size: nat)
    requires size >= p + |WriteFrom(p, records)|
    ensures Complete(p, records, size) == |records|
    decreases |records|
  {
    if records != [] {
      CompleteAll(p + |Write(p, records[0])|, records[1..], size);
    }
  }

  /** Reading back a log returns its records, in order, with no corruption reported. */
  lemma LogRoundTrip(records: seq<Bytes>)
    ensures Trace(WriteFrom(0, records), 0, None) == Records(records)
  {
    var f := WriteFrom(0, records);
    assert f[0..] == f;
    ReadsPrefix(f, 0, records);
    CompleteAll(0, records, |f|);
    assert records[..|records|] == records;
  }

  /** A log cut at any byte returns exactly the records that were complete by then, with no corruption reported. */
  lemma CrashPrefix(records: seq<Bytes>, size: nat)
    requires size <= |WriteFrom(0, records)|
    ensures Trace(WriteFrom(0, records)[..size], 0, None) == Records(records[..Complete(0, records, size)])
  {
    var f := WriteFrom(0, records)[..size];
    assert f[0..] == f;
    ReadsPrefix(f, 0, records);
  }

  /** Appending to a log continues it exactly as one writer would have written it. */
  lemma {:induction false} ReopenContinues(p: nat, a: seq<Bytes>, b: seq<Bytes>)
    ensures WriteFrom(p, a + b) == WriteFrom(p, a) + WriteFrom(p + |WriteFrom(p, a)|, b)
    decreases |a|
  {
    hide Write;
    if a == [] {
      assert a + b == b;
    } else {
      var n := |Write(p, a[0])|;
      assert (a + b)[1..] == a[1..] + b;
      ReopenContinues(p + n, a[1..], b);
    }
  }
}
