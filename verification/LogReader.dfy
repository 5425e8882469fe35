/** The log reader: one block buffered at a time, fragments reassembled, damage reported (log_reader.c). */
module LogReader {
  import opened Bytes
  import opened LogFormat
  import Crc32c

  lemma DropsAppend(a: seq<nat>, b: seq<nat>)
    ensures Drops(a + b) == Drops(a) + Drops(b)
  {
  }

  lemma NoDrops()
    ensures Drops([]) == []
  {
  }

  lemma EndOfBlock(p: nat, block: nat)
    requires block * BLOCK <= p < (block + 1) * BLOCK
    ensures BlockEnd(p) == (block + 1) * BLOCK
  {
    assert p / BLOCK == block;
  }

  /** The reader's window on the file: an unread part of one block, and the rest of the file after it. */
  ghost predicate Window(file: Bytes, src: Bytes, buffer: Bytes, eof: bool, blocks: nat) {
    var end := |file| - |src|;
    var p := end - |buffer|;
    && blocks * BLOCK <= end && 0 <= p
    && src == file[end..] && buffer == file[p..end]
    && (!eof ==> end == blocks * BLOCK && |buffer| <= BLOCK && (buffer != [] ==> blocks > 0))
    && (eof ==> src == [] && blocks * BLOCK <= p && |file| < (blocks + 1) * BLOCK)
  }

  lemma WindowEnds(file: Bytes, src: Bytes, buffer: Bytes, eof: bool, blocks: nat)
    requires Window(file, src, buffer, eof, blocks)
    ensures var p := |file| - |src| - |buffer|;
            && p >= 0 && (eof ==> BlockEnd(p) == (blocks + 1) * BLOCK > |file| && src == [])
            && (!eof && buffer != [] ==> BlockEnd(p) == |file| - |src|)
  {
    var p := |file| - |src| - |buffer|;
    if eof {
      EndOfBlock(p, blocks);
    } else if buffer != [] {
      EndOfBlock(p, blocks - 1);
    }
  }

  lemma Parts(file: Bytes, end: nat, src: Bytes, n: nat)
    requires end <= |file| && src == file[end..] && n <= |src|
    ensures src[..n] == file[end..end + n] && src[n..] == file[end + n..]
  {
  }

  lemma WindowMoves(file: Bytes, src: Bytes, buffer: Bytes, blocks: nat)
    requires Window(file, src, buffer, false, blocks)
    ensures var n := Min(BLOCK, |src|);
            Window(file, src[n..], src[..n], n < BLOCK, if n < BLOCK then blocks else blocks + 1)
  {
    Parts(file, |file| - |src|, src, Min(BLOCK, |src|));
  }

  lemma WindowShrinks(file: Bytes, src: Bytes, buffer: Bytes, eof: bool, blocks: nat, n: nat)
    requires Window(file, src, buffer, eof, blocks) && n <= |buffer|
    ensures Window(file, src, buffer[n..], eof, blocks)
  {
    var p := |file| - |src| - |buffer|;
    assert buffer[n..] == file[p + n..|file| - |src|];
  }

  lemma SkipsTrailer(f: Bytes, p: nat)
    requires p < BlockEnd(p) <= |f| && BlockEnd(p) - p < HEADER
    ensures NextPhys(f, p) == NextPhys(f, BlockEnd(p))
  {
    hide ChecksumOk, LengthAt;
  }

  lemma EndsShort(f: Bytes, p: nat)
    requires |f| < BlockEnd(p) && |f| - p < HEADER
    ensures NextPhys(f, p).0 == Eof
  {
  }

  class LogReader {
    ghost const file: Bytes
    var src: Bytes          // not yet read from the file
    var buffer: Bytes       // unread part of the current block
    var eof: bool           // the last read came back short
    var reports: seq<nat>   // bytes reported dropped, in order
    ghost var blocks: nat   // whole blocks read so far

    ghost predicate Valid()
      reads this
    {
      Window(file, src, buffer, eof, blocks)
    }

    /** The file offset of the next unread byte. */
    ghost function Pos(): (p: nat)
      requires Valid()
      reads this
      ensures p <= |file| && p == |file| - |src| - |buffer|
    {
      |file| - |src| - |buffer|
    }

    constructor (file: Bytes)
      ensures Valid() && Pos() == 0 && this.file == file && reports == []
    {
      this.file := file;
      src := file;
      buffer := [];
      eof := false;
      reports := [];
      blocks := 0;
    }

    /** Skips what is left of the current block and reads the next one. */
    method ReadBlock()
      requires Valid() && !eof
      modifies this
      ensures Valid() && reports == old(reports)
      ensures Pos() == |file| - |old(src)|
      ensures eof || |src| < |old(src)|
    {
      hide Window;
      WindowMoves(file, src, buffer, blocks);
      var n := Min(BLOCK, |src|);
      buffer := src[..n];
      src := src[n..];
      if n < BLOCK {
        eof := true;
      } else {
        blocks := blocks + 1;
      }
    }

    /** read_physical_record. */
    method ReadPhysicalRecord() returns (phys: Phys)
      requires Valid()
      modifies this
      ensures Valid() && phys == NextPhys(file, old(Pos())).0
      ensures !phys.Eof? ==> Pos() == NextPhys(file, old(Pos())).1
      ensures reports == old(reports) + Report(phys)
    {
      hide NextPhys, Window, BlockEnd;
      ghost var p := Pos();
      while |buffer| < HEADER
        invariant Valid() && reports == old(reports) && NextPhys(file, Pos()) == NextPhys(file, p)
        decreases !eof, |src|
      {
        WindowEnds(file, src, buffer, eof, blocks);
        if eof {
          EndsShort(file, Pos());
          WindowShrinks(file, src, buffer, eof, blocks, |buffer|);
          buffer := [];
          return Eof;
        }
        if buffer != [] {
          SkipsTrailer(file, Pos());
        }
        ReadBlock();
      }
      phys := ParseRecord();
    }

    /** The header tests on a buffer that holds at least a header. */
    method ParseRecord() returns (phys: Phys)
      requires Valid() && |buffer| >= HEADER
      modifies this
      ensures Valid() && phys == NextPhys(file, old(Pos())).0
      ensures !phys.Eof? ==> Pos() == NextPhys(file, old(Pos())).1
      ensures reports == old(reports) + Report(phys)
    {
      hide ChecksumOk, LengthAt, NextPhys, Window;
      BufferDecides(file, src, buffer, eof, blocks);
      WindowShrinks(file, src, buffer, eof, blocks, |buffer|);
      assert buffer[|buffer|..] == [];
      var length := LengthAt(buffer, 0);
      var t := buffer[6];
      if HEADER + length > |buffer| {
        var dropSize := |buffer|;
        buffer := [];
        if !eof {
          reports := reports + [dropSize];
          return Bad(Some(dropSize));
        }
        return Eof;
      }
      if t == 0 && length == 0 {
        buffer := [];
        return Bad(None);
      }
      if !ChecksumOk(buffer, 0, length) {
        var dropSize := |buffer|;
        buffer := [];
        reports := reports + [dropSize];
        return Bad(Some(dropSize));
      }
      WindowShrinks(file, src, buffer, eof, blocks, HEADER + length);
      phys := Fragment(t, buffer[HEADER..HEADER + length]);
      buffer := buffer[HEADER + length..];
    }

    /** The switch of ldb_reader_read_record on one physical record; `said` is what it reports. */
    method Assemble(phys: Phys, inFragmented: bool, pending: Bytes)
      returns (status: Status, record: Bytes, inFragmented': bool, pending': Bytes, ghost said: seq<nat>)
      modifies this`reports
      ensures reports == old(reports) + said
      ensures var (out, next, done) := Absorb(phys, Pending(inFragmented, pending));
              && (status == End <==> done || phys.Eof?)
              && (status == End ==> out == Drops(said))
              && (status == Got ==> out == Drops(said) + [Record(record)] && next == None)
              && (status == More ==> out == Drops(said) && next == Pending(inFragmented', pending'))
    {
      status, record, inFragmented', pending', said := More, [], inFragmented, pending, [];
      match phys {
        case Eof =>
          status := End;
        case Bad(_) =>
          if inFragmented {
            said := [|pending|];
            reports := reports + [|pending|];
          }
          inFragmented', pending' := false, [];
        case Fragment(t, d) =>
          if t == FULL {
            if inFragmented && pending != [] {
              said := [|pending|];
              reports := reports + [|pending|];
            }
            status, record := Got, d;
          } else if t == FIRST {
            if inFragmented && pending != [] {
              said := [|pending|];
              reports := reports + [|pending|];
            }
            inFragmented', pending' := true, d;
          } else if t == MIDDLE {
            if !inFragmented {
              said := [|d|];
              reports := reports + [|d|];
            } else {
              pending' := pending + d;
            }
          } else if t == LAST {
            if !inFragmented {
              said := [|d|];
              reports := reports + [|d|];
            } else {
              status, record := Got, pending + d;
            }
          } else if t == EOF_CODE {
            status := End;
          } else if t == BAD_CODE {
            if inFragmented {
              said := [|pending|];
              reports := reports + [|pending|];
            }
            inFragmented', pending' := false, [];
          } else {
            said := [|d| + if inFragmented then |pending| else 0];
            reports := reports + [|d| + if inFragmented then |pending| else 0];
            inFragmented', pending' := false, [];
          }
      }
    }

    /** ldb_reader_read_record: the next intact record, or false at the end of the log. */
    method ReadRecord() returns (ok: bool, record: Bytes, ghost said: seq<nat>)
      requires Valid()
      modifies this
      ensures Valid() && reports == old(reports) + said
      ensures ok ==> Pos() > old(Pos())
      ensures Trace(file, old(Pos()), None)
           == Drops(said) + if ok then [Record(record)] + Trace(file, Pos(), None) else []
    {
      hide NextPhys, Absorb, Trace, Window, Drops, Report;
      var inFragmentedRecord, scratch := false, [];
      ghost var p0 := Pos();
      said := [];
      NoDrops();
      while true
        invariant Valid() && reports == old(reports) + said && p0 <= Pos()
        invariant Trace(file, p0, None) == Drops(said) + Trace(file, Pos(), Pending(inFragmentedRecord, scratch))
        decreases |file| - Pos()
      {
        ghost var before := said;
        ghost var p, open := Pos(), Pending(inFragmentedRecord, scratch);
        var phys := ReadPhysicalRecord();
        var status;
        ghost var more;
        status, record, inFragmentedRecord, scratch, more := Assemble(phys, inFragmentedRecord, scratch);
        said := said + Report(phys) + more;
        OneRecord(file, p, open, before, more, status, record, Pending(inFragmentedRecord, scratch));
        if status == Got {
          return true, record, said;
        }
        if status == End {
          return false, [], said;
        }
      }
    }
  }

  /** The tests of read_physical_record on a buffer that starts at file offset p. */
  ghost function Judged(buffer: Bytes, eof: bool, p: nat): (Phys, nat)
    requires |buffer| >= HEADER
  {
    var n, end := LengthAt(buffer, 0), p + |buffer|;
    if HEADER + n > |buffer| then if eof then (Eof, p) else (Bad(Some(|buffer|)), end)
    else if buffer[6] == 0 && n == 0 then (Bad(None), end)
    else if !ChecksumOk(buffer, 0, n) then (Bad(Some(|buffer|)), end)
    else (Fragment(buffer[6], buffer[HEADER..HEADER + n]), p + HEADER + n)
  }

  /** With a whole header buffered, the next physical record is decided by the buffer alone. */
  lemma BufferDecides(file: Bytes, src: Bytes, buffer: Bytes, eof: bool, blocks: nat)
    requires Window(file, src, buffer, eof, blocks) && |buffer| >= HEADER
    ensures |file| - |src| - |buffer| >= 0
    ensures var p := |file| - |src| - |buffer|;
            NextPhys(file, p) == Judged(buffer, eof, p)
  {
    hide ChecksumOk, LengthAt, BlockEnd, NextPhys, Judged, SameTests;
    WindowEnds(file, src, buffer, eof, blocks);
    var p := |file| - |src| - |buffer|;
    TestsAreSame(file, p, buffer);
    JudgedHere(file, p, buffer, eof);
  }

  lemma NextPhysHere(f: Bytes, p: nat, end: nat, eof: bool)
    requires p + HEADER <= end <= |f| && if eof then end == |f| < BlockEnd(p) else end == BlockEnd(p)
    ensures var n := LengthAt(f, p);
            NextPhys(f, p)
              == if p + HEADER + n > end then if eof then (Eof, p) else (Bad(Some(end - p)), end)
                 else if f[p + 6] == 0 && n == 0 then (Bad(None), end)
                 else if !ChecksumOk(f, p, n) then (Bad(Some(end - p)), end)
                 else (Fragment(f[p + 6], f[p + HEADER..p + HEADER + n]), p + HEADER + n)
  {
    hide ChecksumOk, LengthAt, BlockEnd;
  }

  /** What the tests look at is the same in the buffer as in the file. */
  ghost predicate SameTests(f: Bytes, p: nat, buffer: Bytes)
    requires |buffer| >= HEADER && p + |buffer| <= |f|
  {
    var n := LengthAt(buffer, 0);
    && LengthAt(f, p) == n && f[p + 6] == buffer[6]
    && (HEADER + n <= |buffer| ==>
          ChecksumOk(f, p, n) == ChecksumOk(buffer, 0, n) && f[p + HEADER..p + HEADER + n] == buffer[HEADER..HEADER + n])
  }

  lemma TestsAreSame(f: Bytes, p: nat, buffer: Bytes)
    requires |buffer| >= HEADER && p + |buffer| <= |f| && buffer == f[p..p + |buffer|]
    ensures SameTests(f, p, buffer)
  {
    hide ChecksumOk, LengthAt;
    SameHeader(f, p, buffer);
    var n := LengthAt(buffer, 0);
    if HEADER + n <= |buffer| {
      SameChecksum(f, p, buffer, n);
      SamePart(f, p, buffer, HEADER, HEADER + n);
    }
  }

  lemma JudgedHere(f: Bytes, p: nat, buffer: Bytes, eof: bool)
    requires |buffer| >= HEADER && p + |buffer| <= |f| && SameTests(f, p, buffer)
    requires if eof then p + |buffer| == |f| < BlockEnd(p) else p + |buffer| == BlockEnd(p)
    ensures NextPhys(f, p) == Judged(buffer, eof, p)
  {
    hide ChecksumOk, LengthAt, BlockEnd, NextPhys;
    NextPhysHere(f, p, p + |buffer|, eof);
  }

  lemma SamePart(f: Bytes, p: nat, buffer: Bytes, a: nat, b: nat)
    requires p + |buffer| <= |f| && buffer == f[p..p + |buffer|] && a <= b <= |buffer|
    ensures f[p + a..p + b] == buffer[a..b]
  {
    Within(f, p, buffer, a, b);
  }

  datatype Status = More | Got | End

  function Pending(inFragmented: bool, scratch: Bytes): Option<Bytes> {
    if inFragmented then Some(scratch) else None
  }

  lemma SameHeader(f: Bytes, p: nat, buffer: Bytes)
    requires |buffer| >= HEADER && p + |buffer| <= |f| && buffer == f[p..p + |buffer|]
    ensures LengthAt(f, p) == LengthAt(buffer, 0) && f[p + 6] == buffer[6]
  {
  }

  lemma SameChecksum(f: Bytes, p: nat, buffer: Bytes, n: nat)
    requires HEADER + n <= |buffer| && p + |buffer| <= |f| && buffer == f[p..p + |buffer|]
    ensures ChecksumOk(f, p, n) == ChecksumOk(buffer, 0, n)
  {
    hide Crc32c.Crc, Crc32c.Unmask;
    Within(f, p, buffer, 0, 4);
    Within(f, p, buffer, 6, HEADER + n);
  }

  lemma TraceUnfolds(f: Bytes, p: nat, open: Option<Bytes>)
    ensures var (phys, q) := NextPhys(f, p);
            var (out, next, done) := Absorb(phys, open);
            && (done || phys.Eof? ==> Trace(f, p, open) == out && Drops(Report(phys)) == [])
            && (!(done || phys.Eof?) ==> Trace(f, p, open) == Drops(Report(phys)) + out + Trace(f, q, next))
  {
    hide NextPhys;
  }

  /** What is observed so far, and what is still to come, after one more physical record. */
  lemma OneRecord(f: Bytes, p: nat, open: Option<Bytes>, before: seq<nat>, more: seq<nat>,
                  status: Status, record: Bytes, next: Option<Bytes>)
    requires var phys := NextPhys(f, p).0;
             var (out, next', done) := Absorb(phys, open);
             && (status == End <==> done || phys.Eof?)
             && (status == End ==> out == Drops(more))
             && (status == Got ==> out == Drops(more) + [Record(record)] && next' == None)
             && (status == More ==> out == Drops(more) && next' == next)
    ensures var (phys, q) := NextPhys(f, p);
            var said := Drops(before + Report(phys) + more);
            && (status == End ==> Drops(before) + Trace(f, p, open) == said)
            && (status == Got ==> Drops(before) + Trace(f, p, open) == said + [Record(record)] + Trace(f, q, None))
            && (status == More ==> Drops(before) + Trace(f, p, open) == said + Trace(f, q, next))
  {
    hide NextPhys, Absorb, Trace, Drops;
    var (phys, q) := NextPhys(f, p);
    TraceUnfolds(f, p, open);
    DropsAppend(before + Report(phys), more);
    DropsAppend(before, Report(phys));
  }

  /** Reading a whole file yields its trace: the records in order, and the reports. */
  method ReadAll(r: LogReader) returns (records: seq<Bytes>)
    requires r.Valid()
    modifies r
    ensures r.Valid()
    ensures records == RecordsOf(Trace(r.file, old(r.Pos()), None))
    decreases |r.file| - r.Pos()
  {
    hide *;
    records := [];
    ghost var all := RecordsOf(Trace(r.file, r.Pos(), None));
    var ok := true;
    while ok
      invariant r.Valid()
      invariant all == records + if ok then RecordsOf(Trace(r.file, r.Pos(), None)) else []
      decreases ok, |r.file| - r.Pos()
    {
      var record;
      ghost var said;
      ok, record, said := r.ReadRecord();
      ReadsOn(said, if ok then Some(record) else None, Trace(r.file, r.Pos(), None));
      if ok {
        records := records + [record];
      }
    }
  }

  lemma ReadsOn(said: seq<nat>, record: Option<Bytes>, rest: seq<Out>)
    ensures RecordsOf(Drops(said) + if record.Some? then [Record(record.value)] + rest else [])
         == if record.Some? then [record.value] + RecordsOf(rest) else []
  {
    hide Drops;
    DropsHoldNoRecords(said);
    if record.Some? {
      RecordsOfAppend(Drops(said), [Record(record.value)] + rest);
      RecordsOfFirst(record.value, rest);
    } else {
      assert Drops(said) + [] == Drops(said);
    }
  }

  function RecordsOf(trace: seq<Out>): seq<Bytes> {
    if trace == [] then []
    else (if trace[0].Record? then [trace[0].data] else []) + RecordsOf(trace[1..])
  }

  lemma {:induction false} RecordsOfAppend(a: seq<Out>, b: seq<Out>)
    ensures RecordsOf(a + b) == RecordsOf(a) + RecordsOf(b)
  {
    if a == [] {
      assert a + b == b;
    } else {
      assert (a + b)[1..] == a[1..] + b;
      RecordsOfAppend(a[1..], b);
    }
  }

  lemma RecordsOfFirst(record: Bytes, rest: seq<Out>)
    ensures RecordsOf([Record(record)] + rest) == [record] + RecordsOf(rest)
  {
    assert ([Record(record)] + rest)[1..] == rest;
  }

  lemma {:induction false} DropsHoldNoRecords(sizes: seq<nat>)
    ensures RecordsOf(Drops(sizes)) == []
  {
    if sizes != [] {
      assert Drops(sizes)[1..] == Drops(sizes[1..]);
      DropsHoldNoRecords(sizes[1..]);
    }
  }

  lemma {:induction false} RecordsSurvive(records: seq<Bytes>)
    ensures RecordsOf(Records(records)) == records
  {
    var trace := Records(records);
    if records != [] {
      assert trace[1..] == Records(records[1..]);
      RecordsSurvive(records[1..]);
      assert records == [records[0]] + records[1..];
    }
  }
}
