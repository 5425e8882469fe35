/** Write batches: a sequence number, a count, and length-prefixed operations (write_batch.c). */
module WriteBatch {
  import opened Bytes
  import opened Coding
  import opened Mvcc
  import opened Format
  import Memtable

  const BATCH_HEADER := 12
  const INT_MAX := 0x7fff_ffff

  datatype Op = Put(key: Bytes, value: Bytes) | Delete(key: Bytes)

  datatype Status = OK | Corruption

  /** What the 32-bit lengths can carry. */
  predicate Fits(op: Op) {
    |op.key| < UINT32 && (op.Put? ==> |op.value| < UINT32)
  }

  predicate AllFit(ops: seq<Op>) {
    forall i :: 0 <= i < |ops| ==> Fits(ops[i])
  }

  function Record(op: Op): (r: Bytes)
    ensures |r| > 0
  {
    match op
    case Put(key, value) => [1] + Slice(key) + Slice(value)
    case Delete(key) => [0] + Slice(key)
  }

  function Records(ops: seq<Op>): Bytes {
    if ops == [] then [] else Records(ops[..|ops| - 1]) + Record(ops[|ops| - 1])
  }

  function Rep(seqno: nat, ops: seq<Op>): (r: Bytes)
    ensures |r| >= BATCH_HEADER
  {
    Fixed(seqno, 8) + Fixed(|ops|, 4) + Records(ops)
  }

  /** ldb_batch_size: the sequence number does not matter. */
  function Size(ops: seq<Op>): nat {
    BATCH_HEADER + |Records(ops)|
  }

  lemma RepSize(seqno: nat, ops: seq<Op>)
    ensures |Rep(seqno, ops)| == Size(ops)
  {
  }

  /** A batch on the wire, byte for byte: sequence and count, then 1, key and value for a put, and 0 and the key for a delete. */
  lemma BatchBytes()
    ensures Rep(7, [Put([97], [98, 99]), Delete([100])])
         == [7, 0, 0, 0, 0, 0, 0, 0, 2, 0, 0, 0, 1, 1, 97, 2, 98, 99, 0, 1, 100]
  {
    hide Fixed, Records;
    TwoRecords();
    SmallFixed(7, 8);
    SmallFixed(2, 4);
  }

  lemma TwoRecords()
    ensures Records([Put([97], [98, 99]), Delete([100])]) == [1, 1, 97, 2, 98, 99, 0, 1, 100]
  {
    var ops := [Put([97], [98, 99]), Delete([100])];
    FirstRecord();
    assert ops[..1] == [Put([97], [98, 99])];
    assert Records(ops) == Records(ops[..1]) + Record(ops[1]);
    assert Slice([100]) == [1, 100];
  }

  lemma FirstRecord()
    ensures Records([Put([97], [98, 99])]) == [1, 1, 97, 2, 98, 99]
  {
    var ops := [Put([97], [98, 99])];
    assert ops[..0] == [] && Records(ops) == Records(ops[..0]) + Record(ops[0]);
    assert Slice([97]) == [1, 97] && Slice([98, 99]) == [2, 98, 99];
  }

  lemma {:induction false} SmallFixed(x: nat, n: nat)
    requires x < 256 && n > 0
    ensures Fixed(x, n) == [x] + seq(n - 1, _ => 0)
    decreases n
  {
    if n > 1 {
      SmallFixed(0, n - 1);
      assert [0] + seq<Byte>(n - 2, _ => 0) == seq<Byte>(n - 1, _ => 0);
    }
  }

  lemma {:induction false} RecordsJoin(a: seq<Op>, b: seq<Op>)
    ensures Records(a + b) == Records(a) + Records(b)
  {
    hide Record;
    if b == [] {
      assert a + b == a;
    } else {
      var c := a + b;
      assert c[..|c| - 1] == a + b[..|b| - 1] && c[|c| - 1] == b[|b| - 1];
      RecordsJoin(a, b[..|b| - 1]);
    }
  }

  lemma OneRecord(op: Op)
    ensures Records([op]) == Record(op)
  {
    assert Records([]) == [];
  }

  // ---- reading ----

  /** One record off the front of the input. */
  function ReadRecord(input: Bytes): (r: Option<(Op, Bytes)>)
    requires input != []
    ensures r.Some? ==> |r.value.1| < |input|
  {
    if input[0] > 1 then None
    else match SliceSlurp(input[1..])
      case None => None
      case Some((key, rest)) =>
        if input[0] == 0 then Some((Delete(key), rest))
        else match SliceSlurp(rest)
          case None => None
          case Some((value, rest)) => Some((Put(key, value), rest))
  }

  /** The operations handed to the handler before the input ends or goes bad. */
  function ReadAll(input: Bytes): (seq<Op>, Status)
    decreases |input|
  {
    if input == [] then ([], OK)
    else match ReadRecord(input)
      case None => ([], Corruption)
      case Some((op, rest)) =>
        var (ops, status) := ReadAll(rest);
        ([op] + ops, status)
  }

  function Count(rep: Bytes): nat
    requires |rep| >= BATCH_HEADER
  {
    FixedValue(rep[8..12])
  }

  function Sequence(rep: Bytes): nat
    requires |rep| >= BATCH_HEADER
  {
    FixedValue(rep[..8])
  }

  /** What ldb_batch_iterate hands to its handler, and its status. */
  function Iterated(rep: Bytes): (seq<Op>, Status) {
    if |rep| < BATCH_HEADER then ([], Corruption)
    else
      var (ops, status) := ReadAll(rep[BATCH_HEADER..]);
      (ops, if status.OK? && |ops| != Count(rep) then Corruption else status)
  }

  lemma ReadsRecord(op: Op, rest: Bytes)
    requires Fits(op)
    ensures ReadRecord(Record(op) + rest) == Some((op, rest))
  {
    hide SliceSlurp, Slice;
    var input := Record(op) + rest;
    match op {
      case Put(key, value) =>
        assert input[1..] == Slice(key) + (Slice(value) + rest);
        SliceRoundTrip(key, Slice(value) + rest);
        SliceRoundTrip(value, rest);
      case Delete(key) =>
        assert input[1..] == Slice(key) + rest;
        SliceRoundTrip(key, rest);
    }
  }

  lemma {:induction false} ReadsRecords(ops: seq<Op>)
    requires AllFit(ops)
    ensures ReadAll(Records(ops)) == (ops, OK)
    decreases |ops|
  {
    hide ReadRecord, Record;
    if ops == [] {
      assert Records(ops) == [];
    } else {
      assert ops == [ops[0]] + ops[1..];
      RecordsJoin([ops[0]], ops[1..]);
      OneRecord(ops[0]);
      ReadsRecord(ops[0], Records(ops[1..]));
      ReadsRecords(ops[1..]);
    }
  }

  lemma HeaderParts(seqno: nat, ops: seq<Op>)
    requires seqno < UINT64 && |ops| <= INT_MAX
    ensures Sequence(Rep(seqno, ops)) == seqno && Count(Rep(seqno, ops)) == |ops|
    ensures Rep(seqno, ops)[BATCH_HEADER..] == Records(ops)
  {
    hide Fixed, FixedValue, Records;
    var rep := Rep(seqno, ops);
    assert rep[..8] == Fixed(seqno, 8) && rep[8..12] == Fixed(|ops|, 4);
    Fixed64RoundTrip(seqno);
    Fixed32RoundTrip(|ops|);
  }

  /** Any list of operations iterates back to itself, with status OK. */
  lemma BatchRoundTrip(seqno: nat, ops: seq<Op>)
    requires seqno < UINT64 && |ops| <= INT_MAX && AllFit(ops)
    ensures Iterated(Rep(seqno, ops)) == (ops, OK)
  {
    HeaderParts(seqno, ops);
    ReadsRecords(ops);
  }

  lemma ReadRecordFits(input: Bytes)
    requires input != [] && ReadRecord(input).Some?
    ensures Fits(ReadRecord(input).value.0)
  {
    hide Varint32Slurp;
  }

  lemma {:induction false} ReadAllFits(input: Bytes)
    ensures AllFit(ReadAll(input).0)
    decreases |input|
  {
    hide ReadRecord;
    if input != [] && ReadRecord(input).Some? {
      ReadRecordFits(input);
      ReadAllFits(ReadRecord(input).value.1);
    }
  }

  /** Whatever bytes are accepted mean the same as the bytes this writer would have produced for them. */
  lemma AcceptedIsCanonical(rep: Bytes)
    requires Iterated(rep).1.OK? && |Iterated(rep).0| <= INT_MAX
    ensures |rep| >= BATCH_HEADER
    ensures Iterated(Rep(Sequence(rep), Iterated(rep).0)) == Iterated(rep) && |Iterated(rep).0| == Count(rep)
  {
    ReadAllFits(rep[BATCH_HEADER..]);
    SequenceFits(rep);
    BatchRoundTrip(Sequence(rep), Iterated(rep).0);
  }

  lemma {:induction false} FixedValueBound(b: Bytes)
    ensures FixedValue(b) < Pow(256, |b|)
  {
    if b != [] {
      FixedValueBound(b[1..]);
    }
  }

  lemma SequenceFits(rep: Bytes)
    requires |rep| >= BATCH_HEADER
    ensures Sequence(rep) < UINT64
  {
    FixedValueBound(rep[..8]);
    PowUnroll4();
    assert Pow(256, 5) == 0x100_0000_0000;
    assert Pow(256, 6) == 0x1_0000_0000_0000;
    assert Pow(256, 7) == 0x100_0000_0000_0000;
    assert Pow(256, 8) == UINT64;
  }

  // ---- the batch object ----

  class Batch {
    var rep: Bytes
    ghost var ops: seq<Op>
    ghost var seqno: nat

    ghost predicate Valid()
      reads this
    {
      rep == Rep(seqno, ops) && seqno < UINT64 && |ops| <= INT_MAX && AllFit(ops)
    }

    /** ldb_batch_init. */
    constructor ()
      ensures Valid() && ops == [] && seqno == 0
    {
      rep := seq(BATCH_HEADER, i => 0);
      ops, seqno := [], 0;
      new;
      ZeroHeader();
    }

    /** ldb_batch_set_contents, of bytes that some batch produced. */
    method SetContents(contents: Bytes, ghost seqno': nat, ghost ops': seq<Op>)
      requires contents == Rep(seqno', ops') && seqno' < UINT64 && |ops'| <= INT_MAX && AllFit(ops')
      modifies this
      ensures Valid() && seqno == seqno' && ops == ops'
    {
      rep := contents;
      seqno, ops := seqno', ops';
    }

    /** ldb_batch_set_count. */
    method SetCount(count: nat)
      requires |rep| >= BATCH_HEADER
      modifies this`rep
      ensures rep == old(rep[..8]) + Fixed(count, 4) + old(rep[12..])
    {
      rep := rep[..8] + Fixed(count, 4) + rep[12..];
    }

    method SetSequence(s: nat)
      requires Valid() && s < UINT64
      modifies this
      ensures Valid() && ops == old(ops) && seqno == s
    {
      hide Fixed, Records;
      rep := Fixed(s, 8) + rep[8..];
      seqno := s;
    }

    method Put(key: Bytes, value: Bytes)
      requires Valid() && Fits(Op.Put(key, value)) && |ops| < INT_MAX
      modifies this
      ensures Valid() && ops == old(ops) + [Op.Put(key, value)] && seqno == old(seqno)
    {
      hide Fixed, FixedValue, Records, Slice;
      HeaderParts(seqno, ops);
      Extends(seqno, ops, [Op.Put(key, value)]);
      OneRecord(Op.Put(key, value));
      var n := Count(rep);
      SetCount(n + 1);
      rep := rep + [1];
      rep := rep + Slice(key);
      rep := rep + Slice(value);
      ops := ops + [Op.Put(key, value)];
    }

    method Del(key: Bytes)
      requires Valid() && Fits(Delete(key)) && |ops| < INT_MAX
      modifies this
      ensures Valid() && ops == old(ops) + [Delete(key)] && seqno == old(seqno)
    {
      hide Fixed, FixedValue, Records, Slice;
      HeaderParts(seqno, ops);
      Extends(seqno, ops, [Delete(key)]);
      OneRecord(Delete(key));
      var n := Count(rep);
      SetCount(n + 1);
      rep := rep + [0];
      rep := rep + Slice(key);
      ops := ops + [Delete(key)];
    }

    /** ldb_batch_append: the other batch's records after these, under this sequence number. */
    method Append(src: Batch)
      requires Valid() && src.Valid() && |ops| + |src.ops| <= INT_MAX
      modifies this
      ensures Valid() && ops == old(ops) + old(src.ops) && seqno == old(seqno)
    {
      hide Fixed, FixedValue, Records;
      HeaderParts(seqno, ops);
      HeaderParts(src.seqno, src.ops);
      Extends(seqno, ops, src.ops);
      ghost var more := src.ops;
      var tail := src.rep[BATCH_HEADER..];
      var n := Count(rep) + Count(src.rep);
      SetCount(n);
      rep := rep + tail;
      ops := ops + more;
    }

    /** ldb_batch_iterate, with the calls of the handler collected in a list. */
    method Iterate() returns (handled: seq<Op>, status: Status)
      ensures (handled, status) == Iterated(rep)
      ensures Valid() ==> handled == ops && status == OK
    {
      hide ReadRecord, Rep;
      if Valid() {
        BatchRoundTrip(seqno, ops);
      }
      handled := [];
      if |rep| < BATCH_HEADER {
        return [], Corruption;
      }
      var input := rep[BATCH_HEADER..];
      ghost var all := ReadAll(input);
      assert handled + all.0 == all.0;
      while |input| > 0
        invariant all == (handled + ReadAll(input).0, ReadAll(input).1)
        decreases |input|
      {
        var next := ReadRecord(input);
        ReadsOn(handled, input);
        if next.None? {
          return handled, Corruption;
        }
        handled, input := handled + [next.value.0], next.value.1;
      }
      assert handled + ReadAll([]).0 == handled;
      status := if |handled| != Count(rep) then Corruption else OK;
    }

    /** ldb_batch_insert_into: the i-th operation is stored under the batch's sequence plus i. */
    method InsertInto(table: Memtable.Memtable) returns (status: Status)
      requires Valid() && table.Valid() && seqno + |ops| <= MAX_SEQUENCE
      requires forall e :: e in table.contents ==> e.seqno < seqno
      requires forall op :: op in ops ==> |op.key| + 8 < UINT32
      modifies table
      ensures status == OK && table.Valid()
      ensures Elements(table.contents) == old(Elements(table.contents)) + Elements(Numbered(ops, seqno))
    {
      hide Iterated, Rep, Numbered, AllFit, Memtable.Memtable.Valid, Memtable.Storable, Sequence, Fits;
      var handled;
      handled, status := Iterate();
      var number := Sequence(rep);
      HeaderParts(seqno, ops);
      ghost var was, es := Elements(table.contents), Numbered(ops, seqno);
      NumberedSize(ops, seqno);
      for i := 0 to |handled|
        invariant table.Valid() && Elements(table.contents) == was + Elements(es[..i])
      {
        var op := handled[i];
        var e := Entry(op.key, number + i, if op.Put? then Value else Deletion, if op.Put? then op.value else []);
        NextEntry(ops, seqno, i, e);
        forall f | f in table.contents ensures f.seqno != e.seqno {
          assert f in was + Elements(es[..i]);
        }
        table.Add(e);
      }
      assert es[..|ops|] == es;
    }
  }

  lemma ReadsOn(handled: seq<Op>, input: Bytes)
    requires input != []
    ensures match ReadRecord(input)
            case None => handled + ReadAll(input).0 == handled && ReadAll(input).1 == Corruption
            case Some((op, rest)) =>
              && handled + ReadAll(input).0 == handled + [op] + ReadAll(rest).0
              && ReadAll(input).1 == ReadAll(rest).1
  {
    hide ReadRecord;
  }

  lemma NumberedSize(ops: seq<Op>, first: nat)
    ensures |Numbered(ops, first)| == |ops|
    ensures Elements(Numbered(ops, first)[..0]) == {}
  {
  }

  lemma NextEntry(ops: seq<Op>, first: nat, i: nat, e: Entry)
    requires AllFit(ops) && i < |ops| && first + |ops| <= MAX_SEQUENCE && |ops[i].key| + 8 < UINT32
    requires var op := ops[i];
             e == Entry(op.key, first + i, if op.Put? then Value else Deletion, if op.Put? then op.value else [])
    ensures Memtable.Storable(e)
    ensures |Numbered(ops, first)| == |ops|
    ensures Elements(Numbered(ops, first)[..i + 1]) == Elements(Numbered(ops, first)[..i]) + {e}
    ensures forall f :: f in Numbered(ops, first)[..i] ==> f.seqno < e.seqno
  {
    NumberedIs(ops, first);
    var es := Numbered(ops, first);
    assert Fits(ops[i]);
    assert es[..i + 1] == es[..i] + [e];
  }

  lemma ZeroHeader()
    ensures seq(BATCH_HEADER, i => 0) == Rep(0, [])
  {
    AllZero(8);
    AllZero(4);
    assert Records([]) == [];
  }

  lemma {:induction false} AllZero(n: nat)
    ensures Fixed(0, n) == seq(n, i => 0)
  {
    if n > 0 {
      AllZero(n - 1);
    }
  }

  /** More records under a new count. */
  lemma Extends(seqno: nat, ops: seq<Op>, more: seq<Op>)
    ensures var rep := Rep(seqno, ops);
            rep[..8] + Fixed(|ops| + |more|, 4) + rep[12..] + Records(more) == Rep(seqno, ops + more)
  {
    hide Fixed, Records;
    RecordsJoin(ops, more);
    var rep := Rep(seqno, ops);
    assert rep[..8] == Fixed(seqno, 8) && rep[12..] == Records(ops);
  }

  function Numbered(ops: seq<Op>, first: nat): seq<Entry> {
    seq(|ops|, i requires 0 <= i < |ops| =>
      Entry(ops[i].key, first + i, if ops[i].Put? then Value else Deletion, if ops[i].Put? then ops[i].value else []))
  }

  lemma NumberedIs(ops: seq<Op>, first: nat)
    ensures |Numbered(ops, first)| == |ops|
    ensures forall i :: 0 <= i < |ops| ==>
              Numbered(ops, first)[i]
                == Entry(ops[i].key, first + i, if ops[i].Put? then Value else Deletion, if ops[i].Put? then ops[i].value else [])
  {
  }

  /** The value the operations of one batch leave for a key: that of the last one on it. */
  function LastOn(ops: seq<Op>, k: Bytes, otherwise: Option<Bytes>): Option<Bytes> {
    if ops == [] then otherwise
    else
      var op := ops[|ops| - 1];
      if op.key == k then (if op.Put? then Some(op.value) else None) else LastOn(ops[..|ops| - 1], k, otherwise)
  }

  /** Within one batch, later operations on a key win, and earlier batches show through elsewhere. */
  lemma {:induction false} LaterWins(before: seq<Entry>, ops: seq<Op>, first: nat, k: Bytes, s: nat)
    requires s + 1 >= first + |ops|
    ensures Find(Replay(before + Numbered(ops, first), s), k) == LastOn(ops, k, Find(Replay(before, s), k))
    decreases |ops|
  {
    NumberedIs(ops, first);
    var es := Numbered(ops, first);
    if ops == [] {
      assert before + es == before;
    } else {
      var front := ops[..|ops| - 1];
      NumberedIs(front, first);
      assert es[..|ops| - 1] == Numbered(front, first);
      assert before + es == (before + Numbered(front, first)) + [es[|ops| - 1]];
      ReplayStep(before + Numbered(front, first), es[|ops| - 1], k, s);
      LaterWins(before, front, first, k, s);
    }
  }
}
