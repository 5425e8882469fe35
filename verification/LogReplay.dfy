/** Replaying one log file into a memtable on recovery: from bytes to entries (db_impl.c). */
module LogReplay {
  import opened Bytes
  import opened Coding
  import opened Mvcc
  import opened Format
  import opened WriteBatch
  import LogFormat
  import LogReader
  import LogDamage
  import LogTear
  import Memtable
  import WriteQueue

  /** One write group as it was logged: its first sequence number and its operations. */
  datatype Group = Group(first: nat, ops: seq<Op>)

  /** What the writer queue hands to the log: groups of storable operations under increasing sequence numbers. */
  ghost predicate Loggable(groups: seq<Group>) {
    && (forall i :: 0 <= i < |groups| ==> GroupFits(groups[i]))
    && (forall i, j :: 0 <= i < j < |groups| ==> groups[i].first + |groups[i].ops| <= groups[j].first)
  }

  predicate GroupFits(g: Group) {
    && 1 <= g.first && g.first + |g.ops| <= MAX_SEQUENCE && |g.ops| <= INT_MAX && AllFit(g.ops)
    && forall op :: op in g.ops ==> |op.key| + 8 < UINT32
  }

  /** The groups of a run of the writer queue that were written and succeeded. */
  function Logged(groups: seq<WriteQueue.Group>): seq<Group> {
    if groups == [] then []
    else
      var g := groups[|groups| - 1];
      Logged(groups[..|groups| - 1])
      + if g.wrote && g.result.Ok? then [Group(g.first, WriteQueue.Ops(g.members))] else []
  }

  /** The queue's successful groups have increasing, disjoint ranges of sequence numbers: what replay relies on. */
  lemma {:induction false} QueueIsLoggable(groups: seq<WriteQueue.Group>, base: nat, last: nat)
    requires WriteQueue.HistoryOk(groups, base, last)
    requires forall g :: g in Logged(groups) ==> GroupFits(g)
    ensures Loggable(Logged(groups))
    ensures forall g :: g in Logged(groups) ==> base < g.first && g.first + |g.ops| <= last + 1
    decreases |groups|
  {
    hide GroupFits, WriteQueue.Groupable;
    if groups != [] {
      var front, g := groups[..|groups| - 1], groups[|groups| - 1];
      assert WriteQueue.GroupOk(g);
      EarlierFit(groups);
      FrontRanges(groups, base, last);
      QueueIsLoggable(front, base, g.first - 1);
    }
  }

  lemma EarlierFit(groups: seq<WriteQueue.Group>)
    requires groups != []
    ensures forall g :: g in Logged(groups[..|groups| - 1]) ==> g in Logged(groups)
  {
  }

  lemma FrontRanges(groups: seq<WriteQueue.Group>, base: nat, last: nat)
    requires WriteQueue.HistoryOk(groups, base, last) && groups != []
    ensures var g := groups[|groups| - 1];
            && base < g.first && g.first + g.count == last + 1
            && WriteQueue.HistoryOk(groups[..|groups| - 1], base, g.first - 1)
  {
    hide WriteQueue.GroupOk;
  }

  function LogRecords(groups: seq<Group>): seq<Bytes> {
    seq(|groups|, i requires 0 <= i < |groups| => Rep(groups[i].first, groups[i].ops))
  }

  /** The entries of some groups. */
  ghost function Entries(groups: seq<Group>): set<Entry> {
    if groups == [] then {}
    else
      var g := groups[|groups| - 1];
      Entries(groups[..|groups| - 1]) + Elements(Numbered(g.ops, g.first))
  }

  /** The largest sequence a recovered log accounts for. */
  function MaxSequence(groups: seq<Group>): nat {
    if groups == [] then 0
    else
      var g := groups[|groups| - 1];
      var last: int := g.first + |g.ops| - 1;
      var before := MaxSequence(groups[..|groups| - 1]);
      if last > before then last else before
  }

  lemma {:induction false} EntriesBelow(groups: seq<Group>, next: nat)
    requires forall i :: 0 <= i < |groups| ==> groups[i].first + |groups[i].ops| <= next
    ensures forall e :: e in Entries(groups) ==> e.seqno < next
  {
    if groups != [] {
      var front, g := groups[..|groups| - 1], groups[|groups| - 1];
      EntriesBelow(front, next);
      NumberedIs(g.ops, g.first);
    }
  }

  lemma NextGroup(groups: seq<Group>, i: nat)
    requires i < |groups|
    ensures Entries(groups[..i + 1]) == Entries(groups[..i]) + Elements(Numbered(groups[i].ops, groups[i].first))
    ensures MaxSequence(groups[..i + 1])
         == if groups[i].first + |groups[i].ops| - 1 > MaxSequence(groups[..i]) then groups[i].first + |groups[i].ops| - 1
            else MaxSequence(groups[..i])
  {
    assert groups[..i + 1][..i] == groups[..i];
  }

  /** The loop of ldb_recover_log_file on any file in which the reader finds the records of some groups. */
  method ReplayFile(file: Bytes, ghost groups: seq<Group>) returns (table: Memtable.Memtable, maxSequence: nat)
    requires Loggable(groups) && LogReader.RecordsOf(LogFormat.Trace(file, 0, None)) == LogRecords(groups)
    ensures table.Valid()
    ensures Elements(table.contents) == Entries(groups) && maxSequence == MaxSequence(groups)
  {
    hide Rep, Iterated, LogFormat.Trace, Memtable.Memtable.Valid, Numbered, LogRecords, AllFit;
    hide Entries, MaxSequence, Elements, LogReader.Window, Sequence, LogReader.RecordsOf;
    var reader := new LogReader.LogReader(file);
    var records := LogReader.ReadAll(reader);
    LogRecordsAre(groups);
    table := new Memtable.Memtable();
    maxSequence := 0;
    var batch := new Batch();
    Nothing(groups);
    assert table.contents == [];
    for i := 0 to |records|
      invariant table.Valid() && fresh(table) && fresh(batch)
      invariant Elements(table.contents) == Entries(groups[..i]) && maxSequence == MaxSequence(groups[..i])
    {
      var record := records[i];
      ghost var g := groups[i];
      assert GroupFits(g);
      RepSize(g.first, g.ops);
      if |record| < BATCH_HEADER {
        assert false;
      }
      batch.SetContents(record, g.first, g.ops);
      EntriesBelow(groups[..i], g.first);
      AllBelow(table.contents, groups[..i], g.first);
      var status := batch.InsertInto(table);
      HeaderParts(g.first, g.ops);
      NextGroup(groups, i);
      var lastSeq := Sequence(batch.rep) + Count(batch.rep) - 1;
      if lastSeq > maxSequence {
        maxSequence := lastSeq;
      }
    }
    assert groups[..|groups|] == groups;
  }

  /**
   * ldb_recover_log_file on a log that a crash cut at any byte: the memtable holds exactly the groups that were logged
   * whole, and none of the operations of a group that was not.
   */
  method RecoverLogFile(file: Bytes, ghost groups: seq<Group>, ghost size: nat)
    returns (table: Memtable.Memtable, maxSequence: nat)
    requires Loggable(groups) && size <= |LogFormat.WriteFrom(0, LogRecords(groups))|
    requires file == LogFormat.WriteFrom(0, LogRecords(groups))[..size]
    ensures table.Valid()
    ensures var whole := LogFormat.Complete(0, LogRecords(groups), size);
            && Elements(table.contents) == Entries(groups[..whole]) && maxSequence == MaxSequence(groups[..whole])
  {
    hide LogFormat.Trace, LogFormat.WriteFrom, LogFormat.Complete, LogReader.RecordsOf, LogRecords, Entries;
    hide MaxSequence, Elements;
    ghost var whole := LogFormat.Complete(0, LogRecords(groups), size);
    LogFormat.CrashPrefix(LogRecords(groups), size);
    LogReader.RecordsSurvive(LogRecords(groups)[..whole]);
    SomeGroups(groups, 0, whole);
    table, maxSequence := ReplayFile(file, groups[..whole]);
  }

  lemma SomeGroups(groups: seq<Group>, from: nat, to: nat)
    requires from <= to <= |LogRecords(groups)|
    ensures |LogRecords(groups)| == |groups| && LogRecords(groups)[from..to] == LogRecords(groups[from..to])
    ensures Loggable(groups) ==> Loggable(groups[from..to])
  {
    hide GroupFits, Rep, Loggable;
    if Loggable(groups) {
      SomeLoggable(groups, from, to);
    }
  }

  lemma SomeLoggable(groups: seq<Group>, from: nat, to: nat)
    requires from <= to <= |groups| && Loggable(groups)
    ensures Loggable(groups[from..to])
  {
    hide GroupFits;
    var some := groups[from..to];
    forall i | 0 <= i < |some| ensures some[i] == groups[from + i] && GroupFits(some[i]) {
    }
    forall i, j | 0 <= i < j < |some| ensures some[i].first + |some[i].ops| <= some[j].first {
      assert groups[from + i].first + |groups[from + i].ops| <= groups[from + j].first;
    }
  }

  /**
   * ldb_recover_log_file on a log that a crash cut at any byte, that was then reopened at its length and written to:
   * the memtable holds the groups logged whole before the cut and, of the later ones, all if the cut was between
   * physical records, and otherwise those that start after the block of the torn record.
   */
  method RecoverContinuedLog(file: Bytes, ghost before: seq<Group>, ghost size: nat, ghost after: seq<Group>)
    returns (table: Memtable.Memtable, maxSequence: nat)
    requires Loggable(before) && Loggable(after) && size <= |LogFormat.WriteFrom(0, LogRecords(before))|
    requires forall g, g' :: g in before && g' in after ==> g.first + |g.ops| <= g'.first
    requires file == LogTear.Continued(LogRecords(before), size, LogRecords(after))
    requires var tear := LogTear.Tear(0, LogRecords(before), size);
             tear.Some? ==> LogDamage.Rejected(file, tear.value)
    ensures table.Valid()
    ensures var whole := LogFormat.Complete(0, LogRecords(before), size);
            var tear := LogTear.Tear(0, LogRecords(before), size);
            var lost := if tear.None? then 0
                        else LogTear.StartingBefore(LogFormat.BlockEnd(tear.value), size, LogRecords(after));
            && Elements(table.contents) == Entries(before[..whole] + after[lost..])
            && maxSequence == MaxSequence(before[..whole] + after[lost..])
  {
    hide LogFormat.Trace, LogFormat.WriteFrom, LogFormat.Complete, LogReader.RecordsOf, LogRecords, Entries;
    hide MaxSequence, Elements;
    hide LogTear.Tear, LogTear.StartingBefore, LogTear.Continued, LogDamage.Rejected, LogFormat.BlockEnd, Loggable;
    ghost var a, b := LogRecords(before), LogRecords(after);
    ghost var whole := LogFormat.Complete(0, a, size);
    ghost var tear := LogTear.Tear(0, a, size);
    ghost var lost := if tear.None? then 0 else LogTear.StartingBefore(LogFormat.BlockEnd(tear.value), size, b);
    LogTear.ContinuedReads(a, size, b);
    SomeGroups(before, 0, whole);
    SomeGroups(after, lost, |b|);
    assert b[lost..|b|] == b[lost..] && after[lost..|after|] == after[lost..];
    JoinedGroups(before[..whole], after[lost..]);
    table, maxSequence := ReplayFile(file, before[..whole] + after[lost..]);
  }

  lemma JoinedGroups(a: seq<Group>, b: seq<Group>)
    requires Loggable(a) && Loggable(b) && forall g, g' :: g in a && g' in b ==> g.first + |g.ops| <= g'.first
    ensures Loggable(a + b) && LogRecords(a + b) == LogRecords(a) + LogRecords(b)
  {
    hide GroupFits, Rep;
    JoinedRecords(a, b);
    hide LogRecords;
    var all := a + b;
    forall i | 0 <= i < |all| ensures GroupFits(all[i]) {
      assert all[i] == if i < |a| then a[i] else b[i - |a|];
    }
    forall i, j | 0 <= i < j < |all| ensures all[i].first + |all[i].ops| <= all[j].first {
      InOrder(a, b, i, j);
    }
  }

  lemma JoinedRecords(a: seq<Group>, b: seq<Group>)
    ensures LogRecords(a + b) == LogRecords(a) + LogRecords(b)
  {
    hide Rep;
  }

  lemma InOrder(a: seq<Group>, b: seq<Group>, i: nat, j: nat)
    requires Loggable(a) && Loggable(b) && forall g, g' :: g in a && g' in b ==> g.first + |g.ops| <= g'.first
    requires i < j < |a + b|
    ensures (a + b)[i].first + |(a + b)[i].ops| <= (a + b)[j].first
  {
    hide GroupFits;
    if j < |a| {
      assert (a + b)[i] == a[i] && (a + b)[j] == a[j];
    } else if i < |a| {
      assert a[i] in a && b[j - |a|] in b;
    } else {
      assert (a + b)[i] == b[i - |a|] && (a + b)[j] == b[j - |a|];
    }
  }

  lemma AllBelow(contents: seq<Entry>, groups: seq<Group>, next: nat)
    requires Elements(contents) == Entries(groups) && forall e :: e in Entries(groups) ==> e.seqno < next
    ensures forall e :: e in contents ==> e.seqno < next
  {
    hide Entries;
    forall e | e in contents ensures e.seqno < next {
      assert e in Elements(contents);
    }
  }

  lemma LogRecordsAre(groups: seq<Group>)
    ensures |LogRecords(groups)| == |groups|
    ensures forall i :: 0 <= i < |groups| ==> LogRecords(groups)[i] == Rep(groups[i].first, groups[i].ops)
  {
  }

  lemma Nothing(groups: seq<Group>)
    ensures Entries(groups[..0]) == {} && MaxSequence(groups[..0]) == 0 && Elements([]) == {}
  {
  }
}
