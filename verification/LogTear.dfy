/** Writing on after a torn record: what a reader makes of a log that was cut and then appended to (log_writer.c, db_impl.c). */
module LogTear {
  import opened Bytes
  import opened LogFormat
  import opened LogReader
  import opened LogDamage

  /** Where the physical record starts that a cut at `size` falls strictly inside, among those of one record. */
  function TearIn(p: nat, data: Bytes, size: nat): (r: Option<nat>)
    decreases |data|, Stalls(p, data)
  {
    var n, q := Take(p % BLOCK, data), p + Padding(p % BLOCK);
    if q < size < q + HEADER + n then Some(q)
    else if n < |data| then
      Progress(p, q, data, n);
      TearIn(q + HEADER + n, data[n..], size)
    else None
  }

  /** The same among all records written from p on; None when the cut is between physical records or in padding. */
  function Tear(p: nat, records: seq<Bytes>, size: nat): Option<nat>
    decreases |records|
  {
    if records == [] then None
    else
      var here := TearIn(p, records[0], size);
      if here.Some? then here else Tear(p + |Write(p, records[0])|, records[1..], size)
  }

  /** The log is cut at `size`, reopened at that length, and the records b are appended. */
  function Continued(a: seq<Bytes>, size: nat, b: seq<Bytes>): Bytes
    requires size <= |WriteFrom(0, a)|
  {
    WriteFrom(0, a)[..size] + WriteFrom(size, b)
  }

  /** How many of the records written from p on start before offset e. */
  function StartingBefore(e: nat, p: nat, records: seq<Bytes>): (k: nat)
    ensures k <= |records|
    decreases |records|
  {
    if records == [] || p + Padding(p % BLOCK) >= e then 0
    else 1 + StartingBefore(e, p + |Write(p, records[0])|, records[1..])
  }

  // ---- where the tear is ----

  lemma {:induction false} TearInIs(p: nat, data: Bytes, begin: bool, size: nat)
    requires TearIn(p, data, size).Some?
    ensures var q := TearIn(p, data, size).value;
            p <= q < size < BlockEnd(q) && q % BLOCK + HEADER <= BLOCK && size < p + |Encode(p % BLOCK, data, begin)|
    decreases |data|, Stalls(p, data)
  {
    hide Encode, Physical, Take, Start, Padding;
    var n, q := Take(p % BLOCK, data), p + Padding(p % BLOCK);
    EncodeParts(p % BLOCK, data, begin);
    StartHere(p, data);
    BlockEndIs(q);
    if !(q < size < q + HEADER + n) {
      Progress(p, q, data, n);
      TearInIs(q + HEADER + n, data[n..], false, size);
    }
  }

  /** A cut past a record, or before it, is not in it. */
  lemma NotTorn(p: nat, data: Bytes, size: nat)
    requires size <= p || p + |Write(p, data)| <= size
    ensures TearIn(p, data, size).None?
  {
    if TearIn(p, data, size).Some? {
      TearInIs(p, data, true, size);
    }
  }

  lemma {:induction false} NoLaterTear(p: nat, records: seq<Bytes>, size: nat)
    requires size <= p
    ensures Tear(p, records, size).None?
    decreases |records|
  {
    if records != [] {
      NotTorn(p, records[0], size);
      NoLaterTear(p + |Write(p, records[0])|, records[1..], size);
    }
  }

  // ---- a cut between physical records ----

  /** The first fragment of a record makes the reader forget an unfinished one. */
  lemma ForgetsOpen(g: Bytes, q: nat, t: Byte, d: Bytes, open: Option<Bytes>)
    requires NextPhys(g, q) == (Fragment(t, d), q + HEADER + |d|) && (t == FULL || t == FIRST)
    ensures Read(g, q, open) == Read(g, q, None)
  {
    hide NextPhys, RecordsOf, Absorb, DropOpen, Trace;
    var rest := (if t == FULL then [Record(d)] else []) + Trace(g, q + HEADER + |d|, if t == FULL then None else Some(d));
    DropsThenReads(g, q, t, d, open);
    DropsThenReads(g, q, t, d, None);
    RecordsOfAppend(DropOpen(open), rest);
    RecordsOfAppend(DropOpen(None), rest);
    DroppedRecords(open);
    DroppedRecords(None);
  }

  lemma DroppedRecords(open: Option<Bytes>)
    ensures RecordsOf(DropOpen(open)) == []
  {
    hide RecordsOf;
    NoRecord(DropOpen(open));
  }

  lemma DropsThenReads(g: Bytes, q: nat, t: Byte, d: Bytes, open: Option<Bytes>)
    requires NextPhys(g, q) == (Fragment(t, d), q + HEADER + |d|) && (t == FULL || t == FIRST)
    ensures Trace(g, q, open)
         == DropOpen(open) + ((if t == FULL then [Record(d)] else [])
                              + Trace(g, q + HEADER + |d|, if t == FULL then None else Some(d)))
  {
    hide NextPhys, Trace, DropOpen;
    TraceUnfolds(g, q, open);
  }

  /** Where the records appended at `size` begin, an unfinished record is forgotten and they are read back. */
  lemma ReadsAppended(g: Bytes, size: nat, b: seq<Bytes>, open: Option<Bytes>)
    requires size <= |g| && g[size..] == WriteFrom(size, b) && b != []
    ensures Read(g, size, open) == b
  {
    hide Encode, NextPhys, Trace, RecordsOf, Physical;
    var w := Write(size, b[0]);
    var n, pad := Take(size % BLOCK, b[0]), Padding(size % BLOCK);
    var t := FragmentType(true, n == |b[0]|);
    EncodeParts(size % BLOCK, b[0], true);
    assert g[size..size + |w|] == w;
    Within(g, size, w, pad, pad + HEADER + n);
    TraceAfterPad(g, size, open);
    TraceAfterPad(g, size, None);
    StartHere(size, b[0]);
    ReadsFragment(g, size + pad, t, b[0][..n]);
    ForgetsOpen(g, size + pad, t, b[0][..n], open);
    ReadsPrefix(g, size, b);
    CompleteAll(size, b, |g|);
    assert b[..|b|] == b;
    RecordsSurvive(b);
  }

  /** In the padding before a fragment, reading on is reading from any later byte of it. */
  lemma PaddingReads(g: Bytes, p: nat, size: nat, open: Option<Bytes>)
    requires p <= size <= p + Padding(p % BLOCK) <= |g|
    ensures Trace(g, p, open) == Trace(g, size, open)
  {
    hide Trace, NextPhys;
    var q := p + Padding(p % BLOCK);
    TraceAfterPad(g, p, open);
    if p < size < q {
      BlockEndIs(p);
      BlockEndIs(size);
      assert q == BlockEnd(p) == BlockEnd(size);
      TraceAfterPad(g, size, open);
    }
  }

  /** The log goes on with something that has room for a header at its start. */
  ghost predicate GoesOn(g: Bytes, size: nat) {
    size + Padding(size % BLOCK) + HEADER <= |g|
  }

  lemma PaddingFits(g: Bytes, p: nat, size: nat)
    requires p <= size <= p + Padding(p % BLOCK) && GoesOn(g, size)
    ensures p + Padding(p % BLOCK) <= |g|
  {
    BlockEndIs(p);
    BlockEndIs(size);
  }

  /** Where the reader stands, when it has read what the cut left of a record. */
  lemma {:induction false} ReadsUpToCut(g: Bytes, p: nat, data: Bytes, begin: bool, size: nat, open: Option<Bytes>)
    returns (left: Option<Bytes>)
    requires open.Some? <==> !begin
    requires var r := Encode(p % BLOCK, data, begin);
             p <= size <= |g| && size < p + |r| && g[p..size] == r[..size - p]
    requires GoesOn(g, size)
    ensures Trace(g, p, open) == Trace(g, Resume(TearIn(p, data, size), size), left)
    decreases |data|, Stalls(p, data)
  {
    hide Physical, Encode, NextPhys, Trace, Take, Start, FragmentType, Joined, Padding;
    var r := Encode(p % BLOCK, data, begin);
    var n, pad := Take(p % BLOCK, data), Padding(p % BLOCK);
    var q := p + pad;
    left := open;
    EncodeParts(p % BLOCK, data, begin);
    if size <= q {
      PaddingFits(g, p, size);
      PaddingReads(g, p, size, open);
      NotYet(p, data, size);
    } else if size < q + HEADER + n {
      TraceAfterPad(g, p, open);
    } else {
      var k := pad + HEADER + n;
      Sliced(g, p, size, r, pad, k);
      ReadsFirst(g, p, data, begin, open);
      Progress(p, q, data, n);
      Sliced(g, p, size, r, k, size - p);
      left := ReadsUpToCut(g, p + k, data[n..], false, size, Some(Joined(open, data[..n])));
    }
  }

  /** The reader comes to the torn physical record, or to the end of what was kept. */
  function Resume(tear: Option<nat>, size: nat): nat {
    if tear.Some? then tear.value else size
  }

  lemma {:induction false} NotYet(p: nat, data: Bytes, size: nat)
    requires size <= p + Padding(p % BLOCK)
    ensures TearIn(p, data, size).None?
    decreases |data|, Stalls(p, data)
  {
    hide Encode, Take, Start;
    var n, q := Take(p % BLOCK, data), p + Padding(p % BLOCK);
    if n < |data| {
      Progress(p, q, data, n);
      NotYet(q + HEADER + n, data[n..], size);
    }
  }

  lemma Sliced(g: Bytes, p: nat, size: nat, r: Bytes, a: nat, b: nat)
    requires p <= size <= |g| && size - p <= |r| && g[p..size] == r[..size - p] && a <= b <= size - p
    ensures g[p + a..p + b] == r[a..b] && r[a..b] == r[a..][..b - a]
  {
    forall i | a <= i < b ensures g[p + i] == r[i] {
      assert g[p..size][i] == r[..size - p][i];
    }
  }

  /** Reading the records before the cut. */
  lemma {:induction false} ReadsWhole(g: Bytes, p: nat, a: seq<Bytes>, size: nat) returns (left: Option<Bytes>)
    requires var f := WriteFrom(p, a); p <= size <= |g| && size <= p + |f| && g[p..size] == f[..size - p]
    requires GoesOn(g, size)
    ensures Read(g, p, None) == a[..Complete(p, a, size)] + Read(g, Resume(Tear(p, a, size), size), left)
    decreases |a|
  {
    hide Encode, NextPhys, Trace, RecordsOf, TearIn;
    left := None;
    if a != [] {
      var w := Write(p, a[0]);
      var rest := WriteFrom(p + |w|, a[1..]);
      assert WriteFrom(p, a) == w + rest;
      if size < p + |w| {
        assert g[p..size] == w[..size - p];
        NoLaterTear(p + |w|, a[1..], size);
        left := ReadsUpToCut(g, p, a[0], true, size, None);
      } else {
        NotTorn(p, a[0], size);
        assert g[p..p + |w|] == w && g[p + |w|..size] == rest[..size - p - |w|] by {
          Sliced(g, p, size, w + rest, 0, |w|);
          Sliced(g, p, size, w + rest, |w|, size - p);
        }
        ReadsEncoded(g, p, a[0], true, None);
        left := ReadsWhole(g, p + |w|, a[1..], size);
        RecordsOfFirst(a[0], Trace(g, p + |w|, None));
        var k := Complete(p + |w|, a[1..], size);
        assert a[..1 + k] == [a[0]] + a[1..][..k];
      }
    }
  }

  // ---- a cut inside a physical record ----

  /** From the torn record at q on, the rest of its block is not trusted. */
  ghost function TornBlock(q: nat): nat -> nat {
    b => if b == q / BLOCK then q else (b + 1) * BLOCK
  }

  lemma WithinBlock(q: nat, i: nat)
    requires q <= i < BlockEnd(q)
    ensures i / BLOCK == q / BLOCK && BlockEnd(i) == BlockEnd(q)
  {
    BlockEndIs(q);
    BlockOf(q, i - q);
  }

  lemma CleanAfter(q: nat, i: nat)
    requires q < i
    ensures Clean(TornBlock(q), i) <==> BlockEnd(q) <= i
  {
    if i < BlockEnd(q) {
      WithinBlock(q, i);
    } else {
      BlockEndIs(i);
      LaterBlock(q, i);
    }
  }

  lemma LaterBlock(q: nat, i: nat)
    requires BlockEnd(q) <= i
    ensures i / BLOCK > q / BLOCK
  {
  }

  lemma TornIsDamaged(g: Bytes, q: nat)
    requires Rejected(g, q)
    ensures Damaged(g, g, TornBlock(q))
  {
    hide NextPhys;
    var cut := TornBlock(q);
    forall b: nat ensures b * BLOCK <= cut(b) {
      BlockBelow(q, b);
    }
    forall b: nat | cut(b) + HEADER <= Min((b + 1) * BLOCK, |g|) ensures cut(b) == q {
    }
  }

  lemma BlockBelow(q: nat, b: nat)
    ensures b == q / BLOCK ==> b * BLOCK <= q
  {
  }

  /** Everything appended in the torn block is misread, everything after it is read. */
  lemma {:induction false} AppendedAligned(q: nat, p: nat, data: Bytes)
    requires q < p
    ensures Aligned(TornBlock(q), p, data)
    decreases |data|, Stalls(p, data)
  {
    hide Encode, Clean;
    var n, r := Take(p % BLOCK, data), p + Padding(p % BLOCK);
    CleanAfter(q, r);
    StartHere(p, data);
    BlockEndIs(r);
    OtherBlock(q, r);
    if n < |data| {
      Progress(p, r, data, n);
      AppendedAligned(q, r + HEADER + n, data[n..]);
    }
  }

  lemma OtherBlock(q: nat, r: nat)
    requires q < r
    ensures BlockEnd(q) <= r ==> TornBlock(q)(r / BLOCK) == BlockEnd(r)
  {
    if BlockEnd(q) <= r {
      LaterBlock(q, r);
    }
  }

  lemma {:induction false} AllAppendedAligned(q: nat, p: nat, records: seq<Bytes>)
    requires q < p
    ensures AllAligned(TornBlock(q), p, records)
    decreases |records|
  {
    hide Aligned;
    if records != [] {
      AppendedAligned(q, p, records[0]);
      AllAppendedAligned(q, p + |Write(p, records[0])|, records[1..]);
    }
  }

  lemma {:induction false} IntactAfter(q: nat, p: nat, data: Bytes)
    requires q < p
    ensures Intact(TornBlock(q), p, data) <==> BlockEnd(q) <= p + Padding(p % BLOCK)
    decreases |data|, Stalls(p, data)
  {
    hide Encode, Clean;
    var n, r := Take(p % BLOCK, data), p + Padding(p % BLOCK);
    CleanAfter(q, r);
    if n < |data| {
      Progress(p, r, data, n);
      IntactAfter(q, r + HEADER + n, data[n..]);
    }
  }

  lemma {:induction false} SurvivorsAre(q: nat, p: nat, records: seq<Bytes>)
    requires q < p
    ensures Survivors(TornBlock(q), p, records) == records[StartingBefore(BlockEnd(q), p, records)..]
    decreases |records|
  {
    hide Intact, Padding, Write, Encode, TornBlock, BlockEnd;
    if records != [] {
      var next := p + |Write(p, records[0])|;
      IntactAfter(q, p, records[0]);
      SurvivorsAre(q, next, records[1..]);
      PaddedFirst(p, records[0]);
      if BlockEnd(q) <= p + Padding(p % BLOCK) {
        NoneBefore(BlockEnd(q), next, records[1..]);
        assert records == [records[0]] + records[1..];
      }
    }
  }

  lemma PaddedFirst(p: nat, data: Bytes)
    ensures |Write(p, data)| >= Padding(p % BLOCK) + HEADER
  {
    hide Encode, Padding;
    EncodeParts(p % BLOCK, data, true);
  }

  lemma NoneBefore(e: nat, p: nat, records: seq<Bytes>)
    requires e <= p
    ensures StartingBefore(e, p, records) == 0
  {
  }

  /** Past a torn physical record that the reader rejects. */
  lemma ReadsPastTear(g: Bytes, q: nat, size: nat, b: seq<Bytes>, open: Option<Bytes>)
    requires Rejected(g, q) && q < size < BlockEnd(q) && q % BLOCK + HEADER <= BLOCK
    requires GoesOn(g, size) && g[size..] == WriteFrom(size, b)
    ensures Read(g, q, open) == b[StartingBefore(BlockEnd(q), size, b)..]
  {
    hide NextPhys, Trace, RecordsOf, Rejected, Aligned, BlockEnd, TornBlock;
    var cut := TornBlock(q);
    TornIsDamaged(g, q);
    RoomForHeader(g, q, size);
    SkipsBlock(g, q, open);
    AllAppendedAligned(q, size, b);
    TornStep(g, q, size);
    RecordsStep(g, g, cut, size, b, Min(BlockEnd(q), |g|));
    SurvivorsAre(q, size, b);
  }

  lemma RoomForHeader(g: Bytes, q: nat, size: nat)
    requires q < size && q % BLOCK + HEADER <= BLOCK && GoesOn(g, size)
    ensures q + HEADER <= Min(BlockEnd(q), |g|)
  {
    BlockEndIs(q);
  }

  lemma TornStep(g: Bytes, q: nat, size: nat)
    requires q < size < BlockEnd(q)
    ensures InStep(TornBlock(q), |g|, size, Min(BlockEnd(q), |g|))
  {
    WithinBlock(q, size);
  }

  // ---- the theorems ----

  lemma AppendGoesOn(a: seq<Bytes>, size: nat, b: seq<Bytes>)
    requires size <= |WriteFrom(0, a)| && b != []
    ensures GoesOn(Continued(a, size, b), size)
  {
    hide Encode;
    EncodeParts(size % BLOCK, b[0], true);
  }

  /** A tear is found inside the part that was kept. */
  lemma {:induction false} TearIs(p: nat, a: seq<Bytes>, size: nat)
    requires Tear(p, a, size).Some?
    ensures var q := Tear(p, a, size).value; p <= q < size < BlockEnd(q) && q % BLOCK + HEADER <= BLOCK
    decreases |a|
  {
    hide TearIn, Encode;
    if TearIn(p, a[0], size).Some? {
      TearInIs(p, a[0], true, size);
    } else {
      TearIs(p + |Write(p, a[0])|, a[1..], size);
    }
  }

  /**
   * What a reader makes of any log that was cut, reopened at its length and appended to: all that was whole before the
   * cut; and of what was appended everything, if the cut was between physical records, and otherwise, when the
   * reader's tests reject the torn record, exactly what starts after the torn record's block.
   */
  lemma ContinuedReads(a: seq<Bytes>, size: nat, b: seq<Bytes>)
    requires size <= |WriteFrom(0, a)|
    requires Tear(0, a, size).Some? ==> Rejected(Continued(a, size, b), Tear(0, a, size).value)
    ensures var lost := if Tear(0, a, size).Some? then StartingBefore(BlockEnd(Tear(0, a, size).value), size, b) else 0;
            Read(Continued(a, size, b), 0, None) == a[..Complete(0, a, size)] + b[lost..]
  {
    hide Encode, NextPhys, Trace, RecordsOf, Tear, Rejected, BlockEnd;
    var g := Continued(a, size, b);
    var kept := a[..Complete(0, a, size)];
    if b == [] {
      assert g == WriteFrom(0, a)[..size];
      CrashPrefix(a, size);
      RecordsSurvive(kept);
      assert kept + [] == kept;
    } else {
      AppendGoesOn(a, size, b);
      assert g[0..size] == WriteFrom(0, a)[..size] && g[size..] == WriteFrom(size, b);
      var left := ReadsWhole(g, 0, a, size);
      if Tear(0, a, size).Some? {
        TearIs(0, a, size);
        ReadsPastTear(g, Tear(0, a, size).value, size, b, left);
      } else {
        ReadsAppended(g, size, b, left);
      }
    }
  }

  /**
   * What is appended at the reopened length reads back exactly when the cut was not inside a physical record, or left
   * no room for a header in its block, so that the writer started the next one.
   */
  lemma AppendsReadBack(a: seq<Bytes>, size: nat, b: seq<Bytes>)
    requires size <= |WriteFrom(0, a)| && b != []
    requires Tear(0, a, size).Some? ==> Rejected(Continued(a, size, b), Tear(0, a, size).value)
    ensures Read(Continued(a, size, b), 0, None) == a[..Complete(0, a, size)] + b
            <==> Tear(0, a, size).None? || BLOCK - size % BLOCK < HEADER
  {
    hide Encode, Read, Tear, Rejected;
    ContinuedReads(a, size, b);
    var kept := a[..Complete(0, a, size)];
    if Tear(0, a, size).Some? {
      var q := Tear(0, a, size).value;
      TearIs(0, a, size);
      StartsInBlock(q, size);
      var lost := StartingBefore(BlockEnd(q), size, b);
      assert lost == 0 <==> BLOCK - size % BLOCK < HEADER;
      assert lost == 0 ==> b[lost..] == b;
      assert lost > 0 ==> |kept + b[lost..]| < |kept + b|;
    } else {
      assert b[0..] == b;
    }
  }

  lemma StartsInBlock(q: nat, size: nat)
    requires q < size < BlockEnd(q)
    ensures size + Padding(size % BLOCK) >= BlockEnd(q) <==> BLOCK - size % BLOCK < HEADER
  {
    BlockEndIs(size);
    WithinBlock(q, size);
  }

  /**
   * A log cut right after the header of its only record, then continued: the header claims more bytes than there are,
   * so the reader takes the appended record for the rest of the torn one and sees an empty log, with nothing reported.
   */
  lemma TornTailLoses(d: Bytes, lost: Bytes)
    requires |lost| + HEADER < |d| <= BLOCK - HEADER
    ensures Complete(0, [d], HEADER) == 0
    ensures Trace(Continued([d], HEADER, [lost]), 0, None) == []
  {
    hide Physical, Encode, NextPhys;
    var g := Continued([d], HEADER, [lost]);
    OneRecordBytes(0, d);
    OneRecordBytes(HEADER, lost);
    PhysicalParts(FULL, d);
    assert g[4] == Physical(FULL, d)[4] && g[5] == Physical(FULL, d)[5];
    StatedLength(g, 0, d);
    StopsShort(g, 0, |d|);
    assert WriteFrom(0, [d]) == Write(0, d) + WriteFrom(|Write(0, d)|, []);
  }

  lemma OneRecordBytes(p: nat, d: Bytes)
    requires p % BLOCK + HEADER + |d| <= BLOCK
    ensures Write(p, d) == Physical(FULL, d) && WriteFrom(p, [d]) == Physical(FULL, d)
  {
    hide Physical, Encode;
    OneFragmentBytes(p % BLOCK, d);
  }

  // ---- writing on after a failed append ----

  /**
   * emit_physical_record advances its block offset even when the append fails (log_writer.c:103), so what follows a
   * failed append stands elsewhere in its block than the writer believes. A reader that stands at a physical record
   * accepts it exactly when it lies within one block there.
   */
  lemma ReadsIffWithin(f: Bytes, p: nat, t: Byte, d: Bytes)
    requires 1 <= t && |d| < 0x1_0000 && p + HEADER + |d| <= |f|
    requires f[p..p + HEADER + |d|] == Physical(t, d)
    ensures NextPhys(f, p) == (Fragment(t, d), p + HEADER + |d|) <==> p % BLOCK + HEADER + |d| <= BLOCK
  {
    hide Physical, NextPhys, BlockEnd;
    if p % BLOCK + HEADER + |d| <= BLOCK {
      ReadsFragment(f, p, t, d);
    } else {
      HeaderFacts(f, p, t, d);
      BlockEndIs(p);
      CrossesBlock(f, p, |d|);
    }
  }

  lemma CrossesBlock(f: Bytes, p: nat, n: nat)
    requires p + HEADER + n <= |f| && p + HEADER + n > BlockEnd(p) && LengthAt(f, p) == n
    ensures var r := NextPhys(f, p); r.0.Fragment? && r.1 == p + HEADER + n ==> |r.0.data| < n
  {
    hide ChecksumOk, LengthAt;
    var e := BlockEnd(p);
    if e - p < HEADER {
      SkipsTrailer(f, p);
      AtBlockStart(f, e);
    }
  }

  lemma AtBlockStart(f: Bytes, e: nat)
    requires e % BLOCK == 0 && e <= |f|
    ensures var r := NextPhys(f, e); r.0.Fragment? ==> r.1 == e + HEADER + |r.0.data|
  {
    hide ChecksumOk, LengthAt;
    BlockEndIs(e);
  }

  /**
   * The first append fails with nothing written; the writer takes its block for 107 bytes further than it is. The second
   * record fills what it takes for the block. The third, acknowledged like it, lies across a block boundary and is
   * dropped. The fourth lies within one block, but the reader, which goes on in the middle of the third, does not come
   * to it.
   */
  lemma SkewLoses(failed: Bytes, kept: Bytes, lost: Bytes, missed: Bytes)
    requires |failed| == 100 && |kept| == BLOCK - (HEADER + 100) - HEADER && |lost| == 101 && |missed| == 10
    ensures var o := |Encode(0, failed, true)|;
            var w := Encode(o, kept, true);
            var x := Encode(o + |w|, lost, true);
            var f := w + x + Encode(|x|, missed, true);
            && Trace(w + x, 0, None) == [Record(kept), Drop(107)]
            && Trace(f, 0, None) == [Record(kept), Drop(107)]
            && NextPhys(f, |w + x|) == (Fragment(FULL, missed), |f|)
  {
    hide Physical, Encode, Trace, NextPhys;
    OneFragmentBytes(0, failed);
    OneFragmentBytes(HEADER + 100, kept);
    OneFragmentBytes(0, lost);
    OneFragmentBytes(HEADER + 101, missed);
    EncodeWraps(lost, true);
    var first := Physical(FULL, kept) + Physical(FULL, lost);
    AcrossBlocks(kept, lost, []);
    assert first + [] == first;
    AcrossBlocks(kept, lost, Physical(FULL, missed));
    var f := first + Physical(FULL, missed);
    assert f[|first|..|f|] == Physical(FULL, missed);
    ReadsFragment(f, |first|, FULL, missed);
  }

  /** What stands at the boundary is one byte of the record that crosses it, and at most one short physical record. */
  lemma AcrossBlocks(kept: Bytes, lost: Bytes, tail: Bytes)
    requires |kept| == BLOCK - (HEADER + 100) - HEADER && |lost| == 101
    requires tail == [] || exists d: Bytes :: |d| == 10 && tail == Physical(FULL, d)
    ensures Trace(Physical(FULL, kept) + Physical(FULL, lost) + tail, 0, None) == [Record(kept), Drop(107)]
  {
    hide Physical, NextPhys, Trace, Absorb, BlockEnd, LengthAt;
    var p := HEADER + |kept|;
    var f := Physical(FULL, kept) + Physical(FULL, lost) + tail;
    assert f[0..p] == Physical(FULL, kept) && f[p..p + HEADER + |lost|] == Physical(FULL, lost);
    ReadsFragment(f, 0, FULL, kept);
    ReadsFull(f, 0, kept, p);
    HeaderFacts(f, p, FULL, lost);
    BlockEndIs(p);
    TooLong(f, p, |lost|);
    ReadsBad(f, p, 107, BLOCK);
    EndsAtBoundary(f, tail);
    ReadsEnd(f, BLOCK);
  }

  lemma EndsAtBoundary(f: Bytes, tail: Bytes)
    requires |f| == BLOCK + 1 + |tail| && f[BLOCK + 1..] == tail
    requires tail == [] || exists d: Bytes :: |d| == 10 && tail == Physical(FULL, d)
    ensures NextPhys(f, BLOCK).0 == Eof
  {
    hide Physical, NextPhys, LengthAt, BlockEnd;
    BlockEndIs(BLOCK);
    if tail == [] {
      EndsShort(f, BLOCK);
    } else {
      var d: Bytes :| |d| == 10 && tail == Physical(FULL, d);
      PhysicalParts(FULL, d);
      assert f[BLOCK + 5] == tail[4] == 10;
      LongLength(f, BLOCK);
      StopsShort(f, BLOCK, LengthAt(f, BLOCK));
    }
  }

  lemma LongLength(f: Bytes, p: nat)
    requires p + HEADER <= |f| && f[p + 5] == 10
    ensures 2560 <= LengthAt(f, p) < 2816
  {
  }

  lemma ReadsFull(f: Bytes, p: nat, d: Bytes, q: nat)
    requires NextPhys(f, p) == (Fragment(FULL, d), q)
    ensures Trace(f, p, None) == [Record(d)] + Trace(f, q, None)
  {
    hide NextPhys, Trace;
    TraceUnfolds(f, p, None);
  }

  lemma ReadsBad(f: Bytes, p: nat, n: nat, q: nat)
    requires NextPhys(f, p) == (Bad(Some(n)), q)
    ensures Trace(f, p, None) == [Drop(n)] + Trace(f, q, None)
  {
    hide NextPhys, Trace;
    TraceUnfolds(f, p, None);
    assert Drops([n]) == [Drop(n)];
  }

  lemma ReadsEnd(f: Bytes, p: nat)
    requires NextPhys(f, p).0 == Eof
    ensures Trace(f, p, None) == []
  {
    hide NextPhys, Trace;
    TraceUnfolds(f, p, None);
  }

  lemma OneFragmentBytes(offset: nat, d: Bytes)
    requires offset + HEADER + |d| <= BLOCK
    ensures Encode(offset, d, true) == Physical(FULL, d)
  {
    hide Physical;
    assert d[..|d|] == d && Zeroes(0) == [];
  }

  lemma TooLong(f: Bytes, p: nat, n: nat)
    requires p + HEADER <= BlockEnd(p) <= |f| && LengthAt(f, p) == n && p + HEADER + n > BlockEnd(p)
    ensures NextPhys(f, p) == (Bad(Some(BlockEnd(p) - p)), BlockEnd(p))
  {
    hide ChecksumOk, LengthAt;
  }
}
