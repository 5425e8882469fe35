/** Resynchronisation: what the reader returns from a log some of whose blocks are damaged from some point on. */
module LogDamage {
  import opened Bytes
  import opened LogFormat
  import opened LogReader

  /** In block b, bytes at or after cut(b) are no longer trusted. */
  predicate Clean(cut: nat -> nat, i: nat) {
    i < cut(i / BLOCK)
  }

  /** The reader's own tests reject what now stands at q. */
  predicate Rejected(g: Bytes, q: nat) {
    !NextPhys(g, q).0.Fragment?
  }

  /** g is f with everything from cut(b) on in block b replaced by bytes the reader rejects. */
  ghost predicate Damaged(f: Bytes, g: Bytes, cut: nat -> nat) {
    && |f| == |g|
    && (forall b: nat :: b * BLOCK <= cut(b))
    && (forall i :: 0 <= i < |f| && Clean(cut, i) ==> g[i] == f[i])
    && (forall b: nat :: cut(b) + HEADER <= Min((b + 1) * BLOCK, |f|) ==> Rejected(g, cut(b)))
  }

  /** Damage in a block starts between physical records. */
  predicate Aligned(cut: nat -> nat, p: nat, data: Bytes)
    decreases |data|, Stalls(p, data)
  {
    var n, q := Take(p % BLOCK, data), p + Padding(p % BLOCK);
    && (Clean(cut, q) ==> q + HEADER + n <= cut(q / BLOCK))
    && (n < |data| ==> (Progress(p, q, data, n); Aligned(cut, q + HEADER + n, data[n..])))
  }

  predicate AllAligned(cut: nat -> nat, p: nat, records: seq<Bytes>)
    decreases |records|
  {
    records != [] ==> Aligned(cut, p, records[0]) && AllAligned(cut, p + |Write(p, records[0])|, records[1..])
  }

  /** Every fragment of the record is where nothing was damaged. */
  predicate Intact(cut: nat -> nat, p: nat, data: Bytes)
    decreases |data|, Stalls(p, data)
  {
    var n, q := Take(p % BLOCK, data), p + Padding(p % BLOCK);
    && Clean(cut, q)
    && (n < |data| ==> (Progress(p, q, data, n); Intact(cut, q + HEADER + n, data[n..])))
  }

  function Survivors(cut: nat -> nat, p: nat, records: seq<Bytes>): seq<Bytes>
    decreases |records|
  {
    if records == [] then []
    else
      (if Intact(cut, p, records[0]) then [records[0]] else [])
      + Survivors(cut, p + |Write(p, records[0])|, records[1..])
  }

  /** The reader at r has kept up with the writer at p, or has given up on the block p is in. */
  ghost predicate InStep(cut: nat -> nat, size: nat, p: nat, r: nat) {
    (r == p && p <= cut(p / BLOCK)) || (cut(p / BLOCK) <= p && r == Min(BlockEnd(p), size))
  }

  ghost function Read(g: Bytes, r: nat, open: Option<Bytes>): seq<Bytes> {
    RecordsOf(Trace(g, r, open))
  }

  // ---- one fragment ----

  lemma BlockOf(q: nat, n: nat)
    requires q % BLOCK + n < BLOCK
    ensures (q + n) / BLOCK == q / BLOCK
  {
  }

  lemma BlockStart(p: nat)
    requires p % BLOCK == 0
    ensures (p / BLOCK) * BLOCK == p
  {
  }

  /** After padding, the reader is either exactly at the next fragment or has given up on its block. */
  lemma StepsOverPadding(f: Bytes, g: Bytes, cut: nat -> nat, p: nat, r: nat, open: Option<Bytes>)
    requires Damaged(f, g, cut) && InStep(cut, |g|, p, r) && p + Padding(p % BLOCK) <= |f|
    ensures var q := p + Padding(p % BLOCK);
            || (Trace(g, r, open) == Trace(g, q, open) && q <= cut(q / BLOCK))
            || (q == p && cut(q / BLOCK) <= q && r == Min(BlockEnd(q), |g|))
  {
    hide NextPhys, Trace;
    var q := p + Padding(p % BLOCK);
    if q > p {
      assert q == BlockEnd(p);
      BlockStart(q);
      TraceAfterPad(g, p, open);
    }
  }

  /** A fragment whose bytes are untouched is read as it was written. */
  lemma ReadsClean(f: Bytes, g: Bytes, cut: nat -> nat, q: nat, t: Byte, d: Bytes)
    requires Damaged(f, g, cut) && 1 <= t && q % BLOCK + HEADER + |d| <= BLOCK && q + HEADER + |d| <= |f|
    requires f[q..q + HEADER + |d|] == Physical(t, d)
    requires Clean(cut, q) && q + HEADER + |d| <= cut(q / BLOCK)
    ensures NextPhys(g, q) == (Fragment(t, d), q + HEADER + |d|)
  {
    hide NextPhys, Physical;
    forall i | q <= i < q + HEADER + |d| ensures g[i] == f[i] {
      BlockOf(q, i - q);
      assert Clean(cut, i);
    }
    assert g[q..q + HEADER + |d|] == f[q..q + HEADER + |d|];
    ReadsFragment(g, q, t, d);
  }

  lemma RejectedWhere(g: Bytes, q: nat)
    requires Rejected(g, q) && q + HEADER <= Min(BlockEnd(q), |g|)
    ensures NextPhys(g, q).0.Bad? ==> NextPhys(g, q).1 == Min(BlockEnd(q), |g|)
    ensures NextPhys(g, q).0.Eof? ==> |g| < BlockEnd(q)
  {
    hide ChecksumOk, LengthAt;
  }

  lemma NothingAtEnd(g: Bytes, open: Option<Bytes>)
    ensures Trace(g, |g|, open) == []
  {
    BlockEndIs(|g|);
  }

  /** At the damage the reader drops the rest of the block and whatever record was open. */
  lemma SkipsBlock(g: Bytes, q: nat, open: Option<Bytes>)
    requires Rejected(g, q) && q + HEADER <= Min(BlockEnd(q), |g|)
    ensures Read(g, q, open) == Read(g, Min(BlockEnd(q), |g|), None)
  {
    hide NextPhys, RecordsOf;
    RejectedWhere(g, q);
    TraceUnfolds(g, q, open);
    var (phys, next) := NextPhys(g, q);
    var (out, _, _) := Absorb(phys, open);
    if phys.Eof? {
      NothingAtEnd(g, None);
    } else {
      NoRecord(Drops(Report(phys)));
      NoRecord(out);
      RecordsOfAppend(Drops(Report(phys)) + out, Trace(g, next, None));
      RecordsOfAppend(Drops(Report(phys)), out);
    }
  }

  lemma NoRecord(out: seq<Out>)
    requires |out| <= 1 && forall o :: o in out ==> o.Drop?
    ensures RecordsOf(out) == []
  {
    if out != [] {
      assert out[0] in out && out[1..] == [];
    }
  }

  /** The effect of one fragment on what is read. */
  lemma AbsorbsFragment(g: Bytes, q: nat, t: Byte, d: Bytes, open: Option<Bytes>)
    requires NextPhys(g, q) == (Fragment(t, d), q + HEADER + |d|) && 1 <= t <= 4
    requires (t == FULL || t == FIRST) ==> open == None
    ensures var q' := q + HEADER + |d|;
            && (t == FULL ==> Read(g, q, open) == [d] + Read(g, q', None))
            && (t == FIRST ==> Read(g, q, open) == Read(g, q', Some(d)))
            && (t == MIDDLE && open.Some? ==> Read(g, q, open) == Read(g, q', Some(open.value + d)))
            && (t == LAST && open.Some? ==> Read(g, q, open) == [open.value + d] + Read(g, q', None))
            && ((t == MIDDLE || t == LAST) && open.None? ==> Read(g, q, open) == Read(g, q', None))
  {
    hide NextPhys, RecordsOf;
    TraceUnfolds(g, q, open);
    var (out, next, _) := Absorb(Fragment(t, d), open);
    var rest := Trace(g, q + HEADER + |d|, next);
    assert Trace(g, q, open) == out + rest;
    RecordsOfAppend(out, rest);
    if out == [] || out[0].Drop? {
      NoRecord(out);
    } else {
      RecordsOfFirst(out[0].data, []);
      assert out == [out[0]] + [];
      assert RecordsOf([]) == [] by { NoRecord([]); }
    }
  }

  // ---- one record ----

  /** What the reader has open in the middle of a record: its first part if all of it was intact, nothing otherwise. */
  ghost predicate OpenFits(good: bool, begin: bool, open: Option<Bytes>) {
    (begin ==> good) && (if good then (open.Some? <==> !begin) else open.None?)
  }

  /** Reading an untouched fragment. */
  lemma CleanStep(g: Bytes, q: nat, data: Bytes, n: nat, begin: bool, open: Option<Bytes>, good: bool)
    requires OpenFits(good, begin, open) && n <= |data|
    requires NextPhys(g, q) == (Fragment(FragmentType(begin, n == |data|), data[..n]), q + HEADER + n)
    ensures n < |data| ==> Read(g, q, open) == Read(g, q + HEADER + n, if good then Some(Joined(open, data[..n])) else None)
    ensures n == |data| ==> Read(g, q, open) == (if good then [Joined(open, data)] else []) + Read(g, q + HEADER + n, None)
  {
    hide NextPhys, Read;
    AbsorbsFragment(g, q, FragmentType(begin, n == |data|), data[..n], open);
    assert n == |data| ==> data[..n] == data;
    assert [] + Read(g, q + HEADER + n, None) == Read(g, q + HEADER + n, None);
  }

  /** Coming to a fragment that was damaged, or staying where its block was given up. */
  lemma LostStep(f: Bytes, g: Bytes, cut: nat -> nat, q: nat, r: nat, open: Option<Bytes>)
    requires Damaged(f, g, cut) && !Clean(cut, q) && q % BLOCK + HEADER <= BLOCK && q + HEADER <= |f|
    requires || (Trace(g, r, open) == Trace(g, q, open) && q <= cut(q / BLOCK))
             || (r == Min(BlockEnd(q), |g|) && open == None)
    ensures Read(g, r, open) == Read(g, Min(BlockEnd(q), |g|), None)
  {
    hide NextPhys, Trace, RecordsOf;
    if !(r == Min(BlockEnd(q), |g|) && open == None) {
      var b: nat := q / BLOCK;
      assert q == cut(b);
      BlockEndIs(q);
      SkipsBlock(g, q, open);
    }
  }

  /** One fragment moves writer and reader on together. */
  lemma FragmentStep(f: Bytes, g: Bytes, cut: nat -> nat, p: nat, data: Bytes, begin: bool,
                     r: nat, open: Option<Bytes>, good: bool)
    returns (r': nat, open': Option<Bytes>, good': bool)
    requires Damaged(f, g, cut) && InStep(cut, |g|, p, r) && OpenFits(good, begin, open) && Aligned(cut, p, data)
    requires r != p ==> open == None
    requires var n, q := Take(p % BLOCK, data), p + Padding(p % BLOCK);
             q + HEADER + n <= |f| && f[q..q + HEADER + n] == Physical(FragmentType(begin, n == |data|), data[..n])
    ensures var n, q := Take(p % BLOCK, data), p + Padding(p % BLOCK);
            && InStep(cut, |g|, q + HEADER + n, r') && (r' != q + HEADER + n ==> open' == None)
            && good' == (good && Clean(cut, q))
            && (n < |data| ==> OpenFits(good', false, open') && Read(g, r, open) == Read(g, r', open')
                               && (good' ==> open' == Some(Joined(open, data[..n]))))
            && (n == |data| ==> Read(g, r, open) == (if good' then [Joined(open, data)] else []) + Read(g, r', None))
  {
    hide NextPhys, Physical, Trace, Read, Joined, Damaged, InStep, BlockEnd, Padding, Take, FragmentType, Encode;
    var n, q := Take(p % BLOCK, data), p + Padding(p % BLOCK);
    good' := good && Clean(cut, q);
    open' := if good' then Some(Joined(open, data[..n])) else None;
    StepsOverPadding(f, g, cut, p, r, open);
    StartHere(p, data);
    AfterFragment(cut, q, n, |g|, f, g);
    if Clean(cut, q) {
      ReadsClean(f, g, cut, q, FragmentType(begin, n == |data|), data[..n]);
      CleanStep(g, q, data, n, begin, open, good);
      r' := q + HEADER + n;
      assert Read(g, r, open) == Read(g, q, open) by { SameRead(g, r, q, open); }
    } else {
      r' := Min(BlockEnd(q), |g|);
      SameSize(f, g, cut);
      LostStep(f, g, cut, q, r, open);
    }
  }

  lemma SameRead(g: Bytes, r: nat, q: nat, open: Option<Bytes>)
    requires Trace(g, r, open) == Trace(g, q, open)
    ensures Read(g, r, open) == Read(g, q, open)
  {
    hide Trace, RecordsOf;
  }

  lemma StartHere(p: nat, data: Bytes)
    ensures (p + Padding(p % BLOCK)) % BLOCK + HEADER + Take(p % BLOCK, data) <= BLOCK
  {
  }

  lemma AfterFragment(cut: nat -> nat, q: nat, n: nat, size: nat, f: Bytes, g: Bytes)
    requires Damaged(f, g, cut) && size == |g| && q % BLOCK + HEADER + n <= BLOCK && q + HEADER + n <= |f|
    ensures Clean(cut, q) && q + HEADER + n <= cut(q / BLOCK) ==> InStep(cut, size, q + HEADER + n, q + HEADER + n)
    ensures !Clean(cut, q) ==> InStep(cut, size, q + HEADER + n, Min(BlockEnd(q), size))
  {
    var e := q + HEADER + n;
    BlockEndIs(q);
    if q % BLOCK + HEADER + n == BLOCK {
      assert e % BLOCK == 0;
      BlockStart(e);
    } else {
      BlockOf(q, HEADER + n);
    }
  }

  lemma {:induction false} RecordStep(f: Bytes, g: Bytes, cut: nat -> nat, p: nat, data: Bytes, begin: bool,
                                      r: nat, open: Option<Bytes>, good: bool) returns (r': nat)
    requires Damaged(f, g, cut) && InStep(cut, |g|, p, r) && OpenFits(good, begin, open) && Aligned(cut, p, data)
    requires r != p ==> open == None
    requires var e := Encode(p % BLOCK, data, begin); p + |e| <= |f| && f[p..p + |e|] == e
    ensures InStep(cut, |g|, p + |Encode(p % BLOCK, data, begin)|, r')
    ensures Read(g, r, open)
         == (if good && Intact(cut, p, data) then [Joined(open, data)] else []) + Read(g, r', None)
    decreases |data|, Stalls(p, data)
  {
    hide Physical, Encode, NextPhys, Trace, Take, Padding, Start, FragmentType, Joined, RecordsOf, Damaged, InStep, Clean;
    var e := Encode(p % BLOCK, data, begin);
    var n, pad := Take(p % BLOCK, data), Padding(p % BLOCK);
    var q := p + pad;
    EncodeParts(p % BLOCK, data, begin);
    Within(f, p, e, pad, pad + HEADER + n);
    var open', good';
    r', open', good' := FragmentStep(f, g, cut, p, data, begin, r, open, good);
    if n < |data| {
      Progress(p, q, data, n);
      Within(f, p, e, pad + HEADER + n, |e|);
      assert e[pad + HEADER + n..|e|] == e[pad + HEADER + n..];
      r' := RecordStep(f, g, cut, q + HEADER + n, data[n..], false, r', open', good');
      JoinedSplits(open, data, n);
    }
  }

  // ---- whole logs ----

  lemma {:induction false} RecordsStep(f: Bytes, g: Bytes, cut: nat -> nat, p: nat, records: seq<Bytes>, r: nat)
    requires Damaged(f, g, cut) && InStep(cut, |g|, p, r) && AllAligned(cut, p, records)
    requires p <= |f| && f[p..] == WriteFrom(p, records)
    ensures Read(g, r, None) == Survivors(cut, p, records)
    decreases |records|
  {
    hide Encode, NextPhys, RecordsOf, Aligned, Intact, Damaged;
    if records == [] {
      assert r == |g| by {
        assert |f| == |g| by { SameSize(f, g, cut); }
        BlockEndIs(p);
      }
      NothingAtEnd(g, None);
      assert RecordsOf([]) == [] by { NoRecord([]); }
    } else {
      hide InStep, Trace;
      var w := Write(p, records[0]);
      assert f[p..p + |w|] == w;
      assert f[p + |w|..] == WriteFrom(p + |w|, records[1..]);
      var r' := RecordStep(f, g, cut, p, records[0], true, r, None, true);
      RecordsStep(f, g, cut, p + |w|, records[1..], r');
    }
  }

  lemma SameSize(f: Bytes, g: Bytes, cut: nat -> nat)
    requires Damaged(f, g, cut)
    ensures |f| == |g|
  {
  }

  /**
   * From a log whose blocks are damaged from some physical record on, the reader returns exactly the records
   * all of whose fragments are intact, in order; fragments of different records are never joined.
   */
  lemma Resynchronises(records: seq<Bytes>, g: Bytes, cut: nat -> nat)
    requires Damaged(WriteFrom(0, records), g, cut) && AllAligned(cut, 0, records)
    ensures RecordsOf(Trace(g, 0, None)) == Survivors(cut, 0, records)
  {
    var f := WriteFrom(0, records);
    assert f[0..] == f;
    assert InStep(cut, |g|, 0, 0);
    RecordsStep(f, g, cut, 0, records, 0);
  }
}
