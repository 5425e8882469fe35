/**
 * The whole life of a log file, byte by byte: records appended, appends that fail, crashes and reopening, in any order
 * and any number, and what a reader then makes of the file (log_writer.c, log_reader.c, db_impl.c).
 */
module LogLife {
  import opened Bytes
  import opened LogFormat
  import opened LogReader
  import opened LogTail
  import LogDamage
  import LogTear

  // ---- where a reader is in step ----

  /** A reader that comes to p from anywhere goes on at the start of a block: at p, or past the trailer p is in. */
  predicate NoRoom(p: nat) {
    p % BLOCK == 0 || InTrailer(p)
  }

  predicate InTrailer(p: nat) {
    BLOCK - p % BLOCK < HEADER
  }

  /** A physical record with n bytes of payload lies within one block at q. */
  predicate Fits(q: nat, n: nat) {
    q % BLOCK + HEADER + n <= BLOCK
  }

  /** In step at p, is a reader in step m bytes later, which are no physical record? */
  predicate AfterJunk(s: bool, p: nat, m: nat) {
    if m == 0 then s else NoRoom(p + m)
  }

  // ---- laying down a record: the writer is at block offset o, the end of the file at p ----

  /** The writer's block offset after the next physical record. */
  function Past(o: nat, data: Bytes): (r: nat)
    requires o <= BLOCK
    ensures r <= BLOCK
  {
    Start(o) + HEADER + Take(o, data)
  }

  /** The bytes the next physical record takes, with the padding before it. */
  function Room(o: nat, data: Bytes): (r: nat)
    requires o <= BLOCK
    ensures r >= HEADER
  {
    Padding(o) + HEADER + Take(o, data)
  }

  /** Is the next physical record read, given whether the reader is in step at p? */
  predicate ReadHere(s: bool, p: nat, o: nat, data: Bytes)
    requires o <= BLOCK
  {
    AfterJunk(s, p, Padding(o)) && Fits(p + Padding(o), Take(o, data))
  }

  predicate StepHere(s: bool, p: nat, o: nat, data: Bytes)
    requires o <= BLOCK
  {
    ReadHere(s, p, o, data) || NoRoom(p + Room(o, data))
  }

  /** Every physical record of the data is read: the record comes back. */
  predicate Good(s: bool, p: nat, o: nat, data: Bytes)
    requires o <= BLOCK
    decreases |data|, BLOCK - o
  {
    var n := Take(o, data);
    && ReadHere(s, p, o, data)
    && (n < |data| ==> Good(true, p + Room(o, data), Past(o, data), data[n..]))
  }

  /** Is the reader in step after the data? */
  predicate StepAfter(s: bool, p: nat, o: nat, data: Bytes)
    requires o <= BLOCK
    decreases |data|, BLOCK - o
  {
    var n := Take(o, data);
    if n == |data| then StepHere(s, p, o, data)
    else StepAfter(StepHere(s, p, o, data), p + Room(o, data), Past(o, data), data[n..])
  }

  /** And after only the first `kept` bytes of it? */
  predicate StepCut(s: bool, p: nat, o: nat, data: Bytes, kept: nat)
    requires o <= BLOCK
    decreases |data|, BLOCK - o
  {
    var n := Take(o, data);
    if kept < Room(o, data) || n == |data| then AfterJunk(s, p, kept)
    else StepCut(StepHere(s, p, o, data), p + Room(o, data), Past(o, data), data[n..], kept - Room(o, data))
  }

  function OffsetAfter(o: nat, data: Bytes): (r: nat)
    requires o <= BLOCK
    ensures r <= BLOCK
    decreases |data|, BLOCK - o
  {
    var n := Take(o, data);
    if n == |data| then Past(o, data) else OffsetAfter(Past(o, data), data[n..])
  }

  /** The writer stops at the physical record that fails, and counts it (log_writer.c:103). */
  function OffsetFailed(o: nat, data: Bytes, kept: nat): (r: nat)
    requires o <= BLOCK
    ensures r <= BLOCK
    decreases |data|, BLOCK - o
  {
    var n := Take(o, data);
    if kept < Room(o, data) || n == |data| then Past(o, data)
    else OffsetFailed(Past(o, data), data[n..], kept - Room(o, data))
  }

  // ---- the machine ----

  /**
   * A record is appended; an append fails when `kept` of its bytes are in the file; or the process crashes when `kept`
   * bytes of an append are in the file, none if it was not appending, and the log is reopened at its length.
   */
  datatype Event = Append(data: Bytes) | Fail(data: Bytes, kept: nat) | Crash(data: Bytes, kept: nat)

  /** The file, the writer's block offset, and whether a reader of the file is in step at its end. */
  datatype Log = Log(file: Bytes, offset: nat, inStep: bool)

  predicate Valid(log: Log) {
    log.offset <= BLOCK && (NoRoom(|log.file|) ==> log.inStep)
  }

  const NEW := Log([], 0, true)

  /** What an append that is cut short leaves: never all of it. */
  function Part(e: Bytes, kept: nat): (r: Bytes)
    requires e != []
    ensures r <= e && |r| < |e|
  {
    e[..Min(kept, |e| - 1)]
  }

  function Emitted(log: Log, event: Event): Bytes
    requires log.offset <= BLOCK
  {
    var e := Encode(log.offset, event.data, true);
    if event.Append? then e else Part(e, event.kept)
  }

  function Next(log: Log, event: Event): (r: Log)
    requires log.offset <= BLOCK
    ensures r.offset <= BLOCK
  {
    var (p, o) := (|log.file|, log.offset);
    var file := log.file + Emitted(log, event);
    match event
    case Append(data) => Log(file, OffsetAfter(o, data), StepAfter(log.inStep, p, o, data))
    case Fail(data, kept) =>
      Log(file, OffsetFailed(o, data, |file| - p), StepCut(log.inStep, p, o, data, |file| - p))
    case Crash(data, kept) => Log(file, |file| % BLOCK, StepCut(log.inStep, p, o, data, |file| - p))
  }

  function Run(log: Log, events: seq<Event>): (r: Log)
    requires log.offset <= BLOCK
    ensures r.offset <= BLOCK
    decreases |events|
  {
    if events == [] then log else Run(Next(log, events[0]), events[1..])
  }

  /** The records that come back. */
  function Back(log: Log, events: seq<Event>): seq<Bytes>
    requires log.offset <= BLOCK
    decreases |events|
  {
    if events == [] then [] else BackOf(log, events[0]) + Back(Next(log, events[0]), events[1..])
  }

  function BackOf(log: Log, event: Event): seq<Bytes>
    requires log.offset <= BLOCK
  {
    if event.Append? && Good(log.inStep, |log.file|, log.offset, event.data) then [event.data] else []
  }

  function TailOf(log: Log): Tail {
    if log.offset % BLOCK != |log.file| % BLOCK then Skewed else if log.inStep then Clean else Torn
  }

  // ---- what the reader's tests must reject ----

  /** In m bytes from p on that are no physical record: where a reader in step comes to them, and at every block start. */
  ghost predicate Foreign(g: Bytes, s: bool, p: nat, m: nat) {
    m > 0 ==>
      && (s && !InTrailer(p) ==> LogDamage.Rejected(g, p))
      && forall b: nat :: p < b * BLOCK < p + m ==> LogDamage.Rejected(g, b * BLOCK)
  }

  /** At one physical record: the padding before it, and, if it is not read, the block start inside it. */
  ghost predicate DetectedHere(g: Bytes, s: bool, p: nat, o: nat, data: Bytes)
    requires o <= BLOCK
  {
    && Foreign(g, s, p, Padding(o))
    && (!ReadHere(s, p, o, data) ==> Foreign(g, false, p + Padding(o), HEADER + Take(o, data)))
  }

  ghost predicate Detected(g: Bytes, s: bool, p: nat, o: nat, data: Bytes)
    requires o <= BLOCK
    decreases |data|, BLOCK - o
  {
    var n := Take(o, data);
    && DetectedHere(g, s, p, o, data)
    && (n < |data| ==> Detected(g, StepHere(s, p, o, data), p + Room(o, data), Past(o, data), data[n..]))
  }

  ghost predicate DetectedCut(g: Bytes, s: bool, p: nat, o: nat, data: Bytes, kept: nat)
    requires o <= BLOCK
    decreases |data|, BLOCK - o
  {
    var n := Take(o, data);
    if kept < Room(o, data) || n == |data| then Foreign(g, s, p, kept)
    else
      && DetectedHere(g, s, p, o, data)
      && DetectedCut(g, StepHere(s, p, o, data), p + Room(o, data), Past(o, data), data[n..], kept - Room(o, data))
  }

  ghost predicate DetectedEvent(g: Bytes, log: Log, event: Event)
    requires log.offset <= BLOCK
  {
    if event.Append? then Detected(g, log.inStep, |log.file|, log.offset, event.data)
    else DetectedCut(g, log.inStep, |log.file|, log.offset, event.data, |Emitted(log, event)|)
  }

  ghost predicate DetectedAll(g: Bytes, log: Log, events: seq<Event>)
    requires log.offset <= BLOCK
    decreases |events|
  {
    events != [] ==> DetectedEvent(g, log, events[0]) && DetectedAll(g, Next(log, events[0]), events[1..])
  }

  // ---- reading over what is no physical record ----

  /** What is still to be read when the writer is at p: from there, or, out of step, from the next block on. */
  ghost function Rest(g: Bytes, s: bool, p: nat, open: Option<Bytes>): seq<Bytes>
    requires p <= |g|
  {
    if s then LogDamage.Read(g, p, open) else LogDamage.Read(g, Min(BlockEnd(p), |g|), None)
  }

  /** A trailer is skipped in silence. */
  lemma SkipsTrailerRead(g: Bytes, p: nat, open: Option<Bytes>)
    requires p <= |g| && InTrailer(p)
    ensures LogDamage.Read(g, p, open) == LogDamage.Read(g, Min(BlockEnd(p), |g|), if BlockEnd(p) <= |g| then open else None)
  {
    BlockEndIs(p);
    if BlockEnd(p) <= |g| {
      SkipsTrailer(g, p);
      SameReads(g, p, BlockEnd(p), open);
    } else {
      EndsShort(g, p);
      EndReads(g, p, open);
      LogDamage.NothingAtEnd(g, None);
    }
  }

  lemma SameReads(g: Bytes, p: nat, q: nat, open: Option<Bytes>)
    requires NextPhys(g, p) == NextPhys(g, q)
    ensures LogDamage.Read(g, p, open) == LogDamage.Read(g, q, open)
  {
    hide NextPhys, RecordsOf;
    TraceUnfolds(g, p, open);
    TraceUnfolds(g, q, open);
  }

  lemma EndReads(g: Bytes, p: nat, open: Option<Bytes>)
    requires NextPhys(g, p).0 == Eof
    ensures LogDamage.Read(g, p, open) == []
  {
    hide NextPhys;
    TraceUnfolds(g, p, open);
  }

  /** Out of step, or rejecting what stands at p, the reader goes on at the next block. */
  lemma GivesUp(g: Bytes, s: bool, p: nat, open: Option<Bytes>)
    requires p <= |g| && (s ==> InTrailer(p) || LogDamage.Rejected(g, p))
    ensures Rest(g, s, p, open)
         == LogDamage.Read(g, Min(BlockEnd(p), |g|), if s && InTrailer(p) && BlockEnd(p) <= |g| then open else None)
  {
    hide NextPhys, Trace, RecordsOf, LogDamage.Read, LogDamage.Rejected;
    if s {
      if InTrailer(p) {
        SkipsTrailerRead(g, p, open);
      } else {
        BlockEndIs(p);
        if p + HEADER <= |g| {
          LogDamage.SkipsBlock(g, p, open);
        } else {
          EndsShort(g, p);
          EndReads(g, p, open);
          EndReads(g, |g|, None) by { EndIsEnd(g); }
        }
      }
    }
  }

  lemma EndIsEnd(g: Bytes)
    ensures NextPhys(g, |g|).0 == Eof
  {
    BlockEndIs(|g|);
  }

  /** From anywhere in a block's trailer, or from its end, the reader goes on alike. */
  lemma {:induction false} JunkStep(g: Bytes, s: bool, p: nat, m: nat, open: Option<Bytes>) returns (open': Option<Bytes>)
    requires p + m <= |g| && Foreign(g, s, p, m)
    ensures Rest(g, s, p, open) == Rest(g, AfterJunk(s, p, m), p + m, open')
    ensures open' == if m == 0 || (s && InTrailer(p) && p + m <= BlockEnd(p) <= |g|) then open else None
    decreases m
  {
    hide LogDamage.Rejected, LogDamage.Read;
    if m == 0 {
      open' := open;
    } else {
      var e := BlockEnd(p);
      open' := if s && InTrailer(p) && p + m <= e <= |g| then open else None;
      GivesUp(g, s, p, open);
      if p + m < e {
        LogTear.WithinBlock(p, p + m);
        TrailerGrows(p, p + m);
        if InTrailer(p + m) {
          SkipsTrailerRead(g, p + m, open');
        }
      } else if p + m > e {
        StartOfBlock(p);
        assert LogDamage.Rejected(g, (p / BLOCK + 1) * BLOCK);
        var nothing := JunkStep(g, true, e, p + m - e, if s && InTrailer(p) then open else None);
      }
    }
  }

  lemma TrailerGrows(p: nat, q: nat)
    requires p <= q < BlockEnd(p)
    ensures InTrailer(p) ==> InTrailer(q)
    ensures p < q ==> q % BLOCK != 0
  {
    BlockEndIs(p);
    BlockEndIs(q);
    LogTear.WithinBlock(p, q);
  }

  lemma StartOfBlock(p: nat)
    ensures BlockEnd(p) == (p / BLOCK + 1) * BLOCK && NoRoom(BlockEnd(p)) && !InTrailer(BlockEnd(p))
  {
  }

  // ---- one physical record ----

  /** One that crosses into the next block is rejected: its header says that it does. */
  lemma RejectsCrossing(g: Bytes, q: nat, t: Byte, d: Bytes)
    requires |d| < 0x1_0000 && q + HEADER + |d| <= |g| && g[q..q + HEADER + |d|] == Physical(t, d)
    requires !InTrailer(q) && !Fits(q, |d|)
    ensures LogDamage.Rejected(g, q)
  {
    hide Physical, NextPhys;
    HeaderFacts(g, q, t, d);
    BlockEndIs(q);
    LogTear.TooLong(g, q, |d|);
  }

  function Assembled(begin: bool, open: Option<Bytes>, data: Bytes): Bytes {
    if begin then data else Joined(open, data)
  }

  /** What the reader has open in the middle of a record. */
  ghost predicate Held(begin: bool, good: bool, s: bool, open: Option<Bytes>) {
    (begin ==> good) && (!begin ==> if good then s && open.Some? else open.None?)
  }

  /** A physical record that the reader is in step with. */
  lemma ReadStep(g: Bytes, q: nat, data: Bytes, n: nat, begin: bool, open: Option<Bytes>, good: bool)
    returns (open': Option<Bytes>)
    requires n <= |data| && n < 0x1_0000 && Fits(q, n) && q + HEADER + n <= |g| && Held(begin, good, true, open)
    requires g[q..q + HEADER + n] == Physical(FragmentType(begin, n == |data|), data[..n])
    ensures n < |data| ==> LogDamage.Read(g, q, open) == LogDamage.Read(g, q + HEADER + n, open')
    ensures n < |data| ==> open' == if good then Some(Assembled(begin, open, data[..n])) else None
    ensures n == |data| ==> open' == None
    ensures n == |data| ==>
              LogDamage.Read(g, q, open)
              == (if good then [Assembled(begin, open, data)] else []) + LogDamage.Read(g, q + HEADER + n, None)
  {
    hide Physical, NextPhys, LogDamage.Read;
    var t := FragmentType(begin, n == |data|);
    ReadsFragment(g, q, t, data[..n]);
    if begin {
      LogTear.ForgetsOpen(g, q, t, data[..n], open);
      LogDamage.CleanStep(g, q, data, n, true, None, true);
      open' := if n < |data| then Some(data[..n]) else None;
    } else {
      LogDamage.CleanStep(g, q, data, n, false, open, good);
      open' := if n < |data| && good then Some(Joined(open, data[..n])) else None;
    }
  }

  /** The next physical record of a record, with its padding: read, or passed over like anything else. */
  lemma FragmentStep(g: Bytes, s: bool, p: nat, o: nat, data: Bytes, begin: bool, open: Option<Bytes>, good: bool)
    returns (open': Option<Bytes>)
    requires o <= BLOCK && p + Room(o, data) <= |g| && Held(begin, good, s, open) && DetectedHere(g, s, p, o, data)
    requires var (q, n) := (p + Padding(o), Take(o, data));
             g[q..q + HEADER + n] == Physical(FragmentType(begin, n == |data|), data[..n])
    ensures var (n, good') := (Take(o, data), good && ReadHere(s, p, o, data));
            && (n < |data| ==>
                  && Rest(g, s, p, open) == Rest(g, StepHere(s, p, o, data), p + Room(o, data), open')
                  && Held(false, good', StepHere(s, p, o, data), open')
                  && (good' ==> open' == Some(Assembled(begin, open, data[..n]))))
            && (n == |data| ==>
                  Rest(g, s, p, open) == (if good' then [Assembled(begin, open, data)] else [])
                                         + Rest(g, StepHere(s, p, o, data), p + Room(o, data), open'))
  {
    hide Physical, NextPhys, LogDamage.Read, Take, Start, FragmentType, Foreign;
    var pad, n := Padding(o), Take(o, data);
    var q := p + pad;
    var s1 := AfterJunk(s, p, pad);
    var open1 := JunkStep(g, s, p, pad, open);
    if ReadHere(s, p, o, data) {
      KeepsOpen(g, s, p, o, n);
      open' := ReadStep(g, q, data, n, begin, open1, good);
    } else {
      if s1 && !InTrailer(q) {
        RejectsCrossing(g, q, FragmentType(begin, n == |data|), data[..n]);
      }
      NowForeign(g, s1, q, HEADER + n);
      open' := JunkStep(g, s1, q, HEADER + n, open1);
      PastTrailer(q, HEADER + n);
      assert n == |data| ==> [] + Rest(g, NoRoom(q + HEADER + n), q + HEADER + n, open')
                             == Rest(g, NoRoom(q + HEADER + n), q + HEADER + n, open');
    }
  }

  /** Padding that leads to a physical record in step only fills a trailer, and a record that is open stays open. */
  lemma KeepsOpen(g: Bytes, s: bool, p: nat, o: nat, n: nat)
    requires o <= BLOCK && AfterJunk(s, p, Padding(o)) && Fits(p + Padding(o), n) && p + Padding(o) + HEADER + n <= |g|
    ensures Padding(o) > 0 ==> InTrailer(p) && p + Padding(o) == BlockEnd(p) <= |g|
  {
    if Padding(o) > 0 {
      var q := p + Padding(o);
      assert q % BLOCK == 0;
      assert q - p < HEADER;
      BackFromBlock(p, q);
    }
  }

  lemma BackFromBlock(p: nat, q: nat)
    requires q % BLOCK == 0 && 0 < q - p < HEADER
    ensures InTrailer(p) && BlockEnd(p) == q
  {
    LogDamage.BlockStart(q);
    assert p / BLOCK == q / BLOCK - 1;
  }

  lemma NowForeign(g: Bytes, s: bool, q: nat, m: nat)
    requires Foreign(g, false, q, m) && (s && !InTrailer(q) ==> LogDamage.Rejected(g, q))
    ensures Foreign(g, s, q, m)
  {
    hide LogDamage.Rejected;
  }

  lemma PastTrailer(q: nat, m: nat)
    requires m >= HEADER
    ensures InTrailer(q) ==> q + m > BlockEnd(q)
  {
    BlockEndIs(q);
  }

  // ---- one record ----

  lemma Laid(o: nat, data: Bytes, begin: bool, g: Bytes, p: nat, kept: nat)
    requires o <= BLOCK && kept <= |Encode(o, data, begin)| && p + kept <= |g|
    requires g[p..p + kept] == Encode(o, data, begin)[..kept] && Room(o, data) <= kept
    ensures var n := Take(o, data);
            var q := p + Padding(o);
            && n < 0x1_0000 && g[q..q + HEADER + n] == Physical(FragmentType(begin, n == |data|), data[..n])
            && (n == |data| ==> |Encode(o, data, begin)| == Room(o, data))
            && (n < |data| ==>
                  var rest := Encode(Past(o, data), data[n..], false);
                  && |Encode(o, data, begin)| == Room(o, data) + |rest|
                  && g[p + Room(o, data)..p + kept] == rest[..kept - Room(o, data)])
  {
    hide Physical, Encode, Take, Start, Padding, FragmentType;
    var e := Encode(o, data, begin);
    var n, pad, room := Take(o, data), Padding(o), Room(o, data);
    EncodeParts(o, data, begin);
    LogTear.Sliced(g, p, p + kept, e, pad, room);
    LogTear.Sliced(g, p, p + kept, e, room, kept);
  }

  /** A whole record laid down at p. */
  lemma {:induction false} RecordStep(g: Bytes, s: bool, p: nat, o: nat, data: Bytes, begin: bool,
                                      open: Option<Bytes>, good: bool) returns (open': Option<Bytes>)
    requires o <= BLOCK && Held(begin, good, s, open) && Detected(g, s, p, o, data)
    requires var e := Encode(o, data, begin); p + |e| <= |g| && g[p..p + |e|] == e
    ensures Rest(g, s, p, open)
         == (if good && Good(s, p, o, data) then [Assembled(begin, open, data)] else [])
            + Rest(g, StepAfter(s, p, o, data), p + |Encode(o, data, begin)|, open')
    decreases |data|, BLOCK - o
  {
    hide Physical, Encode, Rest, DetectedHere, ReadHere, StepHere, Foreign;
    var e := Encode(o, data, begin);
    var n := Take(o, data);
    EncodeIsLong(o, data, begin);
    assert e[..|e|] == e;
    Laid(o, data, begin, g, p, |e|);
    open' := FragmentStep(g, s, p, o, data, begin, open, good);
    if n < |data| {
      var s', p', o' := StepHere(s, p, o, data), p + Room(o, data), Past(o, data);
      var good', first := good && ReadHere(s, p, o, data), open';
      var rest := Encode(o', data[n..], false);
      assert rest[..|rest|] == rest;
      if good' {
        InStepHere(s, p, o, data);
      }
      open' := RecordStep(g, s', p', o', data[n..], false, first, good');
      if good' {
        AssembledSplits(begin, open, data, n);
      }
    }
  }

  lemma InStepHere(s: bool, p: nat, o: nat, data: Bytes)
    requires o <= BLOCK && ReadHere(s, p, o, data)
    ensures StepHere(s, p, o, data)
  {
  }

  lemma AssembledSplits(begin: bool, open: Option<Bytes>, data: Bytes, n: nat)
    requires n <= |data|
    ensures Assembled(false, Some(Assembled(begin, open, data[..n])), data[n..]) == Assembled(begin, open, data)
  {
    assert data == data[..n] + data[n..];
  }

  lemma EncodeIsLong(o: nat, data: Bytes, begin: bool)
    requires o <= BLOCK
    ensures |Encode(o, data, begin)| >= Room(o, data)
    ensures Take(o, data) == |data| ==> |Encode(o, data, begin)| == Room(o, data)
  {
    hide Encode;
    EncodeParts(o, data, begin);
  }

  /** The first part of a record. */
  lemma {:induction false} PartStep(g: Bytes, s: bool, p: nat, o: nat, data: Bytes, begin: bool,
                                    open: Option<Bytes>, good: bool, kept: nat) returns (open': Option<Bytes>)
    requires o <= BLOCK && Held(begin, good, s, open) && DetectedCut(g, s, p, o, data, kept)
    requires var e := Encode(o, data, begin); kept < |e| && p + kept <= |g| && g[p..p + kept] == e[..kept]
    ensures Rest(g, s, p, open) == Rest(g, StepCut(s, p, o, data, kept), p + kept, open')
    decreases |data|, BLOCK - o
  {
    hide Physical, Encode, Rest, DetectedHere, ReadHere, StepHere, Foreign, AfterJunk;
    var n := Take(o, data);
    EncodeIsLong(o, data, begin);
    if kept < Room(o, data) || n == |data| {
      open' := JunkStep(g, s, p, kept, open);
    } else {
      Laid(o, data, begin, g, p, kept);
      open' := FragmentStep(g, s, p, o, data, begin, open, good);
      open' := PartStep(g, StepHere(s, p, o, data), p + Room(o, data), Past(o, data), data[n..], false, open',
                        good && ReadHere(s, p, o, data), kept - Room(o, data));
    }
  }

  // ---- whole lives ----

  /** The next physical record takes some of the data, or moves the writer on in its block. */
  lemma Shrinks(o: nat, data: Bytes)
    requires o <= BLOCK
    ensures Take(o, data) < |data| ==> Take(o, data) > 0 || Past(o, data) > o
  {
  }

  lemma LengthOf(o: nat, data: Bytes, begin: bool)
    requires o <= BLOCK
    ensures var n := Take(o, data);
            |Encode(o, data, begin)|
            == Room(o, data) + if n == |data| then 0 else |Encode(Past(o, data), data[n..], false)|
  {
    hide Encode, Take, Start, Padding;
    EncodeParts(o, data, begin);
  }

  /** Where no physical record fits, a reader is in step. */
  lemma {:induction false} StepAfterNoRoom(s: bool, p: nat, o: nat, data: Bytes, begin: bool)
    requires o <= BLOCK
    ensures NoRoom(p + |Encode(o, data, begin)|) ==> StepAfter(s, p, o, data)
    decreases |data|, BLOCK - o
  {
    hide Encode, NoRoom, ReadHere;
    var n := Take(o, data);
    LengthOf(o, data, begin);
    if n < |data| {
      StepAfterNoRoom(StepHere(s, p, o, data), p + Room(o, data), Past(o, data), data[n..], false);
    }
  }

  lemma {:induction false} StepCutNoRoom(s: bool, p: nat, o: nat, data: Bytes, kept: nat)
    requires o <= BLOCK && (NoRoom(p) ==> s)
    ensures NoRoom(p + kept) ==> StepCut(s, p, o, data, kept)
    decreases |data|, BLOCK - o
  {
    hide NoRoom, ReadHere, Take, Start, Padding;
    var n := Take(o, data);
    Shrinks(o, data);
    if kept >= Room(o, data) && n < |data| {
      StepCutNoRoom(StepHere(s, p, o, data), p + Room(o, data), Past(o, data), data[n..], kept - Room(o, data));
    }
  }

  lemma NextIsValid(log: Log, event: Event)
    requires Valid(log)
    ensures Valid(Next(log, event)) && Next(log, event).file == log.file + Emitted(log, event)
  {
    hide Encode, StepAfter, StepCut, NoRoom, OffsetAfter, OffsetFailed;
    var (p, o) := (|log.file|, log.offset);
    StepAfterNoRoom(log.inStep, p, o, event.data, true);
    StepCutNoRoom(log.inStep, p, o, event.data, |Emitted(log, event)|);
  }

  lemma {:induction false} RunIsValid(log: Log, events: seq<Event>)
    requires Valid(log)
    ensures Valid(Run(log, events)) && log.file <= Run(log, events).file
    decreases |events|
  {
    hide Next, Emitted, NoRoom;
    if events != [] {
      NextIsValid(log, events[0]);
      RunIsValid(Next(log, events[0]), events[1..]);
    }
  }

  lemma {:induction false} RunJoins(log: Log, a: seq<Event>, b: seq<Event>)
    requires Valid(log)
    ensures Run(log, a + b) == Run(Run(log, a), b)
    ensures Back(log, a + b) == Back(log, a) + Back(Run(log, a), b)
    decreases |a|
  {
    hide Next, NoRoom, BackOf, Emitted;
    if a == [] {
      assert a + b == b;
    } else {
      var next := Next(log, a[0]);
      NextIsValid(log, a[0]);
      assert (a + b)[0] == a[0] && (a + b)[1..] == a[1..] + b;
      RunJoins(next, a[1..], b);
      Joins(BackOf(log, a[0]), Back(next, a[1..]), Back(Run(next, a[1..]), b));
    }
  }

  lemma Joins<T>(a: seq<T>, b: seq<T>, c: seq<T>)
    ensures a + (b + c) == a + b + c
  {
  }

  /** What one event adds to a file is in the file it becomes. */
  lemma EmittedIn(log: Log, event: Event, g: Bytes)
    requires Valid(log) && Next(log, event).file <= g
    ensures var (p, e) := (|log.file|, Emitted(log, event)); p + |e| <= |g| && g[p..p + |e|] == e
    ensures |Next(log, event).file| == |log.file| + |Emitted(log, event)|
  {
    hide Encode, Emitted, NoRoom, StepAfter, StepCut, OffsetAfter, OffsetFailed;
    NextIsValid(log, event);
    var f := log.file + Emitted(log, event);
    assert g[..|f|] == f;
    assert f[|log.file|..] == Emitted(log, event);
  }

  lemma {:induction false} LifeFrom(g: Bytes, log: Log, events: seq<Event>, open: Option<Bytes>)
    requires Valid(log) && log.file <= g && Run(log, events).file == g && DetectedAll(g, log, events)
    ensures Rest(g, log.inStep, |log.file|, open) == Back(log, events)
    decreases |events|
  {
    hide Rest, Encode, Detected, DetectedCut, StepAfter, StepCut, Good, OffsetAfter, OffsetFailed, Part;
    if events == [] {
      NothingMore(g, log.inStep, open);
    } else {
      var event, next := events[0], Next(log, events[0]);
      var (p, o, s) := (|log.file|, log.offset, log.inStep);
      NextIsValid(log, event);
      RunIsValid(next, events[1..]);
      EmittedIn(log, event, g);
      var open';
      if event.Append? {
        open' := RecordStep(g, s, p, o, event.data, true, open, true);
      } else {
        var e := Encode(o, event.data, true);
        open' := PartStep(g, s, p, o, event.data, true, open, true, |Part(e, event.kept)|);
        assert [] + Rest(g, next.inStep, |next.file|, open') == Rest(g, next.inStep, |next.file|, open');
      }
      LifeFrom(g, next, events[1..], open');
    }
  }

  lemma NothingMore(g: Bytes, s: bool, open: Option<Bytes>)
    ensures Rest(g, s, |g|, open) == []
  {
    EndIsEnd(g);
    EndReads(g, |g|, open);
    EndReads(g, |g|, None);
    BlockEndIs(|g|);
  }

  /**
   * Whatever happened to a log file, with reader's tests that reject what is no physical record where it comes to it, the
   * reader returns exactly the records all of whose physical records it comes to in step and that lie within a block.
   */
  lemma LifeReads(events: seq<Event>)
    requires DetectedAll(Run(NEW, events).file, NEW, events)
    ensures RecordsOf(Trace(Run(NEW, events).file, 0, None)) == Back(NEW, events)
  {
    hide DetectedAll, Run, Back, Trace, RecordsOf;
    NewIsValid();
    RunIsValid(NEW, events);
    LifeFrom(Run(NEW, events).file, NEW, events, None);
  }

  lemma NewIsValid()
    ensures Valid(NEW)
  {
  }

  // ---- tails ----

  lemma PastIs(o: nat, data: Bytes)
    requires o <= BLOCK
    ensures Past(o, data) % BLOCK == (o + Room(o, data)) % BLOCK
  {
    hide Take;
  }

  lemma ModStep(a: nat, b: nat, c: nat)
    requires a % BLOCK == b % BLOCK
    ensures (a + c) % BLOCK == (b + c) % BLOCK
  {
  }

  /** A finished append moves writer and file alike. */
  lemma {:induction false} OffsetAfterIs(o: nat, data: Bytes, begin: bool)
    requires o <= BLOCK
    ensures OffsetAfter(o, data) % BLOCK == (o + |Encode(o, data, begin)|) % BLOCK
    decreases |data|, BLOCK - o
  {
    hide Encode, Take, Padding, Start;
    var n := Take(o, data);
    Shrinks(o, data);
    LengthOf(o, data, begin);
    PastIs(o, data);
    if n < |data| {
      var o' := Past(o, data);
      OffsetAfterIs(o', data[n..], false);
      ModStep(o', o + Room(o, data), |Encode(o', data[n..], false)|);
    }
  }

  /** A failed one does not, unless it lost a whole block, at whose start, or in the trailer before it, the file ends. */
  lemma {:induction false} OffsetFailedIs(p: nat, o: nat, data: Bytes, begin: bool, kept: nat)
    requires o <= BLOCK && o % BLOCK == p % BLOCK && kept < |Encode(o, data, begin)|
    ensures OffsetFailed(o, data, kept) % BLOCK == (p + kept) % BLOCK ==> NoRoom(p + kept)
    decreases |data|, BLOCK - o
  {
    hide Encode, NoRoom;
    var n := Take(o, data);
    LengthOf(o, data, begin);
    PastIs(o, data);
    ModStep(o, p, Room(o, data));
    if kept < Room(o, data) || n == |data| {
      if Past(o, data) % BLOCK == (p + kept) % BLOCK {
        LostBlock(p, o, n, kept);
      }
    } else {
      OffsetFailedIs(p + Room(o, data), Past(o, data), data[n..], false, kept - Room(o, data));
    }
  }

  lemma LostBlock(p: nat, o: nat, n: nat, kept: nat)
    requires o <= BLOCK && o % BLOCK == p % BLOCK && Start(o) + HEADER + n <= BLOCK
    requires kept < Padding(o) + HEADER + n && (p + Padding(o) + HEADER + n) % BLOCK == (p + kept) % BLOCK
    ensures NoRoom(p + kept)
  {
    var room := Padding(o) + HEADER + n;
    WholeBlocks(p + kept, room - kept);
    assert room - kept == BLOCK;
    assert kept <= Padding(o);
    if Padding(o) > 0 {
      assert p % BLOCK == o;
      NearEnd(p, kept);
    }
  }

  lemma WholeBlocks(a: nat, m: nat)
    requires 0 < m < 2 * BLOCK && (a + m) % BLOCK == a % BLOCK
    ensures m == BLOCK
  {
  }

  lemma NearEnd(p: nat, kept: nat)
    requires BLOCK - p % BLOCK < HEADER && p % BLOCK + kept <= BLOCK
    ensures NoRoom(p + kept)
  {
  }

  /** With writer and file at the same place, a reader in step stays in step. */
  lemma {:induction false} AlignedGood(p: nat, o: nat, data: Bytes)
    requires o <= BLOCK && o % BLOCK == p % BLOCK
    ensures Good(true, p, o, data) && StepAfter(true, p, o, data)
    decreases |data|, BLOCK - o
  {
    hide Take;
    var n := Take(o, data);
    Shrinks(o, data);
    AlignedFits(p, o, n);
    PastIs(o, data);
    ModStep(o, p, Room(o, data));
    assert ReadHere(true, p, o, data);
    if n < |data| {
      AlignedGood(p + Room(o, data), Past(o, data), data[n..]);
    }
  }

  lemma AlignedFits(p: nat, o: nat, n: nat)
    requires o <= BLOCK && o % BLOCK == p % BLOCK && Start(o) + HEADER + n <= BLOCK
    ensures (p + Padding(o)) % BLOCK == Start(o) && Fits(p + Padding(o), n)
    ensures Padding(o) > 0 ==> NoRoom(p + Padding(o))
  {
  }

  /** Each event has an outcome that the rules for tails allow: they leave out nothing that the bytes can do. */
  lemma RulesHold(log: Log, event: Event)
    requires Valid(log)
    ensures var (tail, next) := (TailOf(log), TailOf(Next(log, event)));
            match event
            case Append(data) => AfterAppend(tail, Good(log.inStep, |log.file|, log.offset, data), next)
            case Fail(_, _) => AfterFailure(tail, next)
            case Crash(_, _) => AfterCrash(tail, Emitted(log, event) != [], next)
  {
    hide Encode, StepAfter, StepCut, Good, OffsetAfter, OffsetFailed, NoRoom;
    NextIsValid(log, event);
    match event {
      case Append(data) => AppendRule(log, data);
      case Fail(data, kept) => FailRule(log, data, kept);
      case Crash(data, kept) => CrashRule(log, data, kept);
    }
  }

  lemma AppendRule(log: Log, data: Bytes)
    requires Valid(log)
    ensures AfterAppend(TailOf(log), Good(log.inStep, |log.file|, log.offset, data), TailOf(Next(log, Append(data))))
  {
    hide Encode, StepAfter, OffsetAfter;
    var (p, o) := (|log.file|, log.offset);
    OffsetAfterIs(o, data, true);
    if o % BLOCK == p % BLOCK {
      ModStep(o, p, |Encode(o, data, true)|);
      if log.inStep {
        AlignedGood(p, o, data);
      } else {
        NotPadded(p, o);
      }
    } else {
      Apart(o, p, |Encode(o, data, true)|);
    }
  }

  lemma NotPadded(p: nat, o: nat)
    requires o <= BLOCK && o % BLOCK == p % BLOCK && !NoRoom(p)
    ensures Padding(o) == 0
  {
  }

  lemma Apart(a: nat, b: nat, c: nat)
    requires a % BLOCK != b % BLOCK
    ensures (a + c) % BLOCK != (b + c) % BLOCK
  {
  }

  lemma FailRule(log: Log, data: Bytes, kept: nat)
    requires Valid(log)
    ensures AfterFailure(TailOf(log), TailOf(Next(log, Fail(data, kept))))
  {
    hide Encode, StepCut, OffsetFailed, NoRoom, Part;
    var (p, o) := (|log.file|, log.offset);
    var m := |Part(Encode(o, data, true), kept)|;
    NextIsValid(log, Fail(data, kept));
    if o % BLOCK == p % BLOCK {
      OffsetFailedIs(p, o, data, true, m);
    }
  }

  lemma CrashRule(log: Log, data: Bytes, kept: nat)
    requires Valid(log)
    ensures AfterCrash(TailOf(log), Emitted(log, Crash(data, kept)) != [], TailOf(Next(log, Crash(data, kept))))
  {
    hide Encode;
    var e := Emitted(log, Crash(data, kept));
    if e == [] {
      assert log.file + e == log.file;
    }
  }

  // ---- which records are safe ----

  /** Whatever is appended next comes back, exactly when the tail is clean. */
  lemma SafeIffClean(log: Log)
    requires Valid(log)
    ensures (forall data :: Good(log.inStep, |log.file|, log.offset, data)) <==> TailOf(log).Clean?
  {
    hide Good;
    var (s, p, o) := (log.inStep, |log.file|, log.offset);
    match TailOf(log) {
      case Clean =>
        forall data ensures Good(s, p, o, data) {
          AlignedGood(p, o, data);
        }
      case Torn =>
        NotPadded(p, o);
        var nothing: Bytes := [];
        NotInStep(p, o, nothing);
        assert !Good(s, p, o, nothing);
      case Skewed =>
        SkewedLong(s, p, o, Zeroes(2 * BLOCK));
    }
  }

  lemma NotInStep(p: nat, o: nat, data: Bytes)
    requires o <= BLOCK && Padding(o) == 0
    ensures !Good(false, p, o, data)
  {
  }

  /** A record long enough to fill a block of the writer's does not fit the file's blocks when the two differ. */
  lemma SkewedLong(s: bool, p: nat, o: nat, data: Bytes)
    requires o <= BLOCK && o % BLOCK != p % BLOCK && |data| >= 2 * BLOCK
    ensures !Good(s, p, o, data)
  {
    var n := Take(o, data);
    var rest := data[n..];
    var p' := p + Room(o, data);
    PastIs(o, data);
    Apart(o, p, Room(o, data));
    assert Past(o, data) == BLOCK && Take(BLOCK, rest) == BLOCK - HEADER;
    assert !ReadHere(true, p', BLOCK, rest);
    assert !Good(true, p', BLOCK, rest);
  }

  /** No physical record of the data needs padding, and each lies within one block where it stands in the file. */
  predicate Within(p: nat, o: nat, data: Bytes)
    requires o <= BLOCK
    decreases |data|, BLOCK - o
  {
    var n := Take(o, data);
    && Padding(o) == 0 && Fits(p, n)
    && (n < |data| ==> Within(p + Room(o, data), Past(o, data), data[n..]))
  }

  /** After a failed append, a record comes back exactly when the reader is in step and this is so. */
  lemma {:induction false} SkewedGood(s: bool, p: nat, o: nat, data: Bytes)
    requires o <= BLOCK && o % BLOCK != p % BLOCK
    ensures Good(s, p, o, data) <==> s && Within(p, o, data)
    decreases |data|, BLOCK - o
  {
    hide Take;
    var n := Take(o, data);
    Shrinks(o, data);
    SkewedHere(s, p, o, n);
    PastIs(o, data);
    Apart(o, p, Room(o, data));
    if n < |data| {
      SkewedGood(true, p + Room(o, data), Past(o, data), data[n..]);
    }
  }

  lemma SkewedHere(s: bool, p: nat, o: nat, n: nat)
    requires o <= BLOCK && o % BLOCK != p % BLOCK
    ensures AfterJunk(s, p, Padding(o)) && Fits(p + Padding(o), n) <==> s && Padding(o) == 0 && Fits(p, n)
  {
    if Padding(o) > 0 {
      Apart(o, p, Padding(o));
      assert (o + Padding(o)) % BLOCK == 0;
    }
  }

  predicate AllWithin(p: nat, o: nat, records: seq<Bytes>)
    requires o <= BLOCK
    decreases |records|
  {
    records != [] ==>
      && Within(p, o, records[0])
      && AllWithin(p + |Encode(o, records[0], true)|, OffsetAfter(o, records[0]), records[1..])
  }

  function Appends(records: seq<Bytes>): (r: seq<Event>)
    ensures |r| == |records|
  {
    seq(|records|, i requires 0 <= i < |records| => Append(records[i]))
  }

  lemma {:induction false} GoodStepsAfter(s: bool, p: nat, o: nat, data: Bytes)
    requires o <= BLOCK && Good(s, p, o, data)
    ensures StepAfter(s, p, o, data)
    decreases |data|, BLOCK - o
  {
    hide Take;
    var n := Take(o, data);
    Shrinks(o, data);
    if n < |data| {
      GoodStepsAfter(true, p + Room(o, data), Past(o, data), data[n..]);
    }
  }

  /** Not more comes back than was appended. */
  lemma {:induction false} BackIsShort(log: Log, records: seq<Bytes>)
    requires Valid(log)
    ensures |Back(log, Appends(records))| <= |records|
    decreases |records|
  {
    hide Next, Good, NoRoom;
    if records != [] {
      NextIsValid(log, Append(records[0]));
      AppendsRest(records);
      BackIsShort(Next(log, Append(records[0])), records[1..]);
    }
  }

  lemma AppendsRest(records: seq<Bytes>)
    requires records != []
    ensures Appends(records)[0] == Append(records[0]) && Appends(records)[1..] == Appends(records[1..])
  {
  }

  /** On a skewed log that is read in step to its end: all that is appended comes back exactly when all of it fits. */
  lemma {:induction false} SkewedBack(log: Log, records: seq<Bytes>)
    requires Valid(log) && TailOf(log).Skewed? && log.inStep
    ensures Back(log, Appends(records)) == records <==> AllWithin(|log.file|, log.offset, records)
    decreases |records|
  {
    hide Good, Within, Encode, StepAfter, OffsetAfter;
    if records != [] {
      var data, next := records[0], Next(log, Append(records[0]));
      AppendsRest(records);
      NextIsValid(log, Append(data));
      AppendRule(log, data);
      SkewedGood(true, |log.file|, log.offset, data);
      BackIsShort(next, records[1..]);
      if Good(true, |log.file|, log.offset, data) {
        GoodStepsAfter(true, |log.file|, log.offset, data);
        SkewedBack(next, records[1..]);
        assert records == [data] + records[1..];
      }
    }
  }

  /**
   * The exact condition after a failed append, whatever it left in the file and whatever happened before: with reader's
   * tests that reject what is no physical record, all the records appended come back exactly when every physical record of
   * theirs needs no padding and lies within one block where it stands.
   */
  lemma SkewedReads(events: seq<Event>, log: Log, records: seq<Bytes>, g: Bytes)
    requires log == Run(NEW, events) && TailOf(log).Skewed? && log.inStep
    requires g == Run(NEW, events + Appends(records)).file && DetectedAll(g, NEW, events + Appends(records))
    ensures RecordsOf(Trace(g, 0, None)) == Back(NEW, events) + records <==> AllWithin(|log.file|, log.offset, records)
  {
    hide DetectedAll, Run, Back, Trace, RecordsOf, AllWithin, TailOf, NoRoom;
    NewIsValid();
    RunIsValid(NEW, events);
    LifeReads(events + Appends(records));
    RunJoins(NEW, events, Appends(records));
    SkewedBack(log, records);
    SamePrefix(Back(NEW, events), Back(log, Appends(records)), records);
  }

  lemma SamePrefix<T>(a: seq<T>, b: seq<T>, c: seq<T>)
    ensures a + b == a + c <==> b == c
  {
    if a + b == a + c {
      assert b == (a + b)[|a|..] && c == (a + c)[|a|..];
    }
  }

  // ---- and with nothing reported ----

  /** Records as a writer lays them down from block offset o on. */
  function LaidFrom(o: nat, records: seq<Bytes>): Bytes
    requires o <= BLOCK
    decreases |records|
  {
    if records == [] then [] else Encode(o, records[0], true) + LaidFrom(OffsetAfter(o, records[0]), records[1..])
  }

  lemma {:induction false} WithinReads(f: Bytes, p: nat, o: nat, data: Bytes, begin: bool, open: Option<Bytes>)
    requires o <= BLOCK && (open.Some? <==> !begin) && Within(p, o, data)
    requires var e := Encode(o, data, begin); p + |e| <= |f| && f[p..p + |e|] == e
    ensures Trace(f, p, open) == [Record(Joined(open, data))] + Trace(f, p + |Encode(o, data, begin)|, None)
    decreases |data|, BLOCK - o
  {
    hide Physical, Encode, NextPhys, Trace, FragmentType, Take, Start;
    var e := Encode(o, data, begin);
    var n := Take(o, data);
    Shrinks(o, data);
    EncodeIsLong(o, data, begin);
    assert e[..|e|] == e;
    Laid(o, data, begin, f, p, |e|);
    ReadsFragment(f, p, FragmentType(begin, n == |data|), data[..n]);
    JoinsFragment(f, p, begin, n == |data|, data[..n], open, p + HEADER + n);
    assert n == |data| ==> data[..n] == data;
    if n < |data| {
      var rest := Encode(Past(o, data), data[n..], false);
      assert rest[..|rest|] == rest;
      WithinReads(f, p + Room(o, data), Past(o, data), data[n..], false, Some(Joined(open, data[..n])));
      JoinedSplits(open, data, n);
    }
  }

  lemma {:induction false} AllWithinReads(f: Bytes, p: nat, o: nat, records: seq<Bytes>)
    requires o <= BLOCK && p <= |f| && f[p..] == LaidFrom(o, records) && AllWithin(p, o, records)
    ensures Trace(f, p, None) == Records(records)
    decreases |records|
  {
    hide Encode, NextPhys, Trace, Within, OffsetAfter;
    if records == [] {
      TraceAtEnd(f);
    } else {
      var e := Encode(o, records[0], true);
      var o' := OffsetAfter(o, records[0]);
      assert f[p..p + |e|] == e && f[p + |e|..] == LaidFrom(o', records[1..]);
      WithinReads(f, p, o, records[0], true, None);
      AllWithinReads(f, p + |e|, o', records[1..]);
      FirstRecord(records);
    }
  }

  lemma WrittenAt(f: Bytes, p: nat, e: Bytes, more: Bytes)
    requires p + |e| + |more| <= |f| && f[p..p + |e| + |more|] == e + more
    ensures f[p..p + |e|] == e && f[p + |e|..p + |e| + |more|] == more
  {
    var w := e + more;
    LogTear.Sliced(f, p, p + |w|, w, 0, |e|);
    LogTear.Sliced(f, p, p + |w|, w, |e|, |w|);
    assert w[0..|e|] == e && w[|e|..|w|] == more;
  }

  lemma FirstRecord(records: seq<Bytes>)
    requires records != []
    ensures Records(records) == [Record(records[0])] + Records(records[1..])
  {
  }

  lemma NoRecords()
    ensures Records([]) == []
  {
  }

  lemma {:induction false} ReadsOver(f: Bytes, p: nat, records: seq<Bytes>)
    requires var w := WriteFrom(p, records); p + |w| <= |f| && f[p..p + |w|] == w
    ensures Trace(f, p, None) == Records(records) + Trace(f, p + |WriteFrom(p, records)|, None)
    decreases |records|
  {
    hide Encode, NextPhys, Trace, Records;
    if records == [] {
      NoRecords();
      assert Records([]) + Trace(f, p, None) == Trace(f, p, None);
    } else {
      var e, rest := Write(p, records[0]), records[1..];
      var more := WriteFrom(p + |e|, rest);
      WrittenAt(f, p, e, more);
      ReadsEncoded(f, p, records[0], true, None);
      ReadsOver(f, p + |e|, rest);
      FirstRecord(records);
      Joins([Record(records[0])], Records(rest), Trace(f, p + |e| + |more|, None));
    }
  }

  /**
   * A log written cleanly, a failed append that left no byte but moved the writer to any other offset, and more records:
   * as long as they fit, the reader returns them all and reports nothing. No test of the reader's is relied on.
   */
  lemma FitsAfterFailure(a: seq<Bytes>, o: nat, b: seq<Bytes>)
    requires o <= BLOCK && AllWithin(|WriteFrom(0, a)|, o, b)
    ensures Trace(WriteFrom(0, a) + LaidFrom(o, b), 0, None) == Records(a + b)
  {
    hide Trace, WriteFrom, LaidFrom, AllWithin;
    var w := WriteFrom(0, a);
    var f := w + LaidFrom(o, b);
    assert f[0..|w|] == w && f[|w|..] == LaidFrom(o, b);
    ReadsOver(f, 0, a);
    AllWithinReads(f, |w|, o, b);
    assert Records(a + b) == Records(a) + Records(b);
  }
}
