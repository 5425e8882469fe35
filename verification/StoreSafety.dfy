/** What every step of the database keeps: reads are replays, nothing needed is deleted, a crash loses nothing. */
module StoreSafety {
  import opened Bytes
  import opened Mvcc
  import opened Snapshots
  import opened Compaction
  import opened LogTail
  import opened Store

  // ---- the invariant ----

  /** Two sets of entries read alike at every sequence from `floor` on. */
  ghost predicate ReadAlike(a: Entries, b: Entries, floor: nat) {
    forall k, s :: s >= floor ==> Answer(a, k, s) == Answer(b, k, s)
  }

  ghost predicate WritesOk(hist: seq<Entry>, groups: seq<seq<Entry>>, lastSeq: nat,
                           phase: Phase, pend: seq<Entry>, bgError: bool)
  {
    && hist == Flatten(groups) && Increasing(hist + pend)
    && (forall e :: e in hist ==> e.seqno <= lastSeq)
    && (phase.Idle? ==> pend == [])
    && (phase.Logging? || phase.Inserting? ==> Consecutive(pend, lastSeq))
    && (phase.Inserting? ==> phase.done <= |pend|)
    && (phase.Lost? ==> bgError && forall e :: e in pend ==> e.seqno <= lastSeq)
  }

  ghost function Progress(phase: Phase): nat {
    if phase.Inserting? then phase.done else 0
  }

  /** The memtable holds settled operations and the part of the group inserted so far; older ones, settled ones. */
  ghost predicate MemOk(mems: map<nat, Entries>, logfile: nat, mem: Entries, phase: Phase, pend: seq<Entry>, h: Entries) {
    && (forall n :: n in mems && n != logfile ==> mems[n] <= h)
    && mem <= h + Elements(pend)
    && Progress(phase) <= |pend| && mem * Elements(pend) == Elements(pend[..Progress(phase)])
  }

  /** The current log holds the memtable's operations and the group being written, the other live logs the immutable one. */
  ghost predicate LogsOk(logs: map<nat, Entries>, mems: map<nat, Entries>, logfile: nat, imm: Option<nat>,
                         logNumber: nat, nextFile: nat, settled: Entries, inLog: Entries)
  {
    && logfile in logs && logfile in mems && logNumber <= logfile < nextFile
    && (forall n :: n in logs ==> n <= logfile) && (forall n :: n in mems ==> n <= logfile)
    && (imm.Some? ==> imm.value in mems && imm.value < logfile)
    && logs[logfile] == settled + inLog
    && LogContents(logs - {logfile}, logNumber) == ImmContents(mems, imm)
  }

  /** The history older than both memtables: what was flushed. */
  ghost function Below(h: Entries, settled: Entries, imm: Entries): Entries {
    h - settled - imm
  }

  /** The history lies in layers, each newer than the next, and the tables read as what was flushed. */
  ghost predicate LayersOk(h: Entries, settled: Entries, imm: Entries, files: Entries, floor: nat) {
    && settled <= h && imm <= h - settled && files <= Below(h, settled, imm)
    && Above(settled, h - settled) && Above(imm, Below(h, settled, imm))
    && ReadAlike(files, Below(h, settled, imm), floor)
  }

  /** What this means for a read: each layer shadows the next, and together they read as the history. */
  ghost predicate Layered(h: Entries, settled: Entries, imm: Entries, files: Entries, floor: nat) {
    && settled <= h && imm <= h && files <= h
    && Covers(settled, imm) && Covers(settled, files) && Covers(imm, files)
    && ReadAlike(settled + imm + files, h, floor)
  }

  lemma LayersRead(h: Entries, settled: Entries, imm: Entries, files: Entries, floor: nat)
    requires LayersOk(h, settled, imm, files, floor) && Distinct(h)
    ensures Layered(h, settled, imm, files, floor)
  {
    hide ReadAlike;
    var below := Below(h, settled, imm);
    assert settled + imm + below == h;
    AlikeUnder(files, below, settled + imm, floor);
    assert files + (settled + imm) == settled + imm + files && below + (settled + imm) == h;
  }

  /** Wholly in a set, or wholly outside it. */
  predicate Undivided(group: seq<Entry>, es: Entries) {
    (forall e :: e in group ==> e in es) || (forall e :: e in group ==> e !in es)
  }

  /** A write group is in one memtable, and is read back from its log as a whole or not at all. */
  ghost predicate GroupsOk(groups: seq<seq<Entry>>, logged: seq<Entry>, unread: Entries, h: Entries,
                           settled: Entries, imm: Entries)
  {
    && unread <= h + Elements(logged) && Undivided(logged, unread)
    && forall g :: g in groups ==> Undivided(g, unread) && Undivided(g, settled) && Undivided(g, imm)
  }

  /** Tables listed by failed flush commits hold the immutable memtable, and the manifest's last sequence is past it. */
  ghost predicate StampsOk(tables: map<nat, Entries>, extra: set<nat>, disk: Disk, job: Job, imm: Entries, lastSeq: nat) {
    && disk.lastSeq <= lastSeq
    && (extra + Flushed(job) != {} ==>
          imm <= Contents(tables, extra + Flushed(job)) && forall e :: e in imm ==> e.seqno <= disk.lastSeq)
    && (job.Committing? ==>
          && disk.lastSeq <= job.edit.lastSeq <= lastSeq
          && (job.flush ==> forall e :: e in imm ==> e.seqno <= job.edit.lastSeq))
  }

  ghost function Inputs(merge: Option<Merge>): set<nat> {
    if merge.Some? then merge.value.inputs else {}
  }

  ghost predicate FilesOk(tables: map<nat, Entries>, current: set<nat>, listed: set<nat>, extra: set<nat>,
                          nextFile: nat, logNumber: nat, job: Job, merge: Option<Merge>)
  {
    && (forall n :: n in tables ==> n < nextFile)
    && current <= tables.Keys && listed <= tables.Keys && extra <= tables.Keys
    && Inputs(merge) <= current && Outputs(merge) <= tables.Keys
    && extra !! current && Outputs(merge) !! current && extra !! Outputs(merge)
    && match job
       case NoJob => true
       case Building(n) => n < nextFile && n !in tables
       case Committing(edit, flush, written) =>
         && edit.add <= tables.Keys && edit.add !! current && edit.add !! extra
         && (flush ==> edit.add !! Outputs(merge) && edit.remove == {})
         && (!flush ==> merge.Some? && edit.add == Outputs(merge) && edit.remove == Inputs(merge))
       case Stuck(edit, written) => merge.Some? && edit.add == Outputs(merge) && edit.remove == Inputs(merge)
       case Removing(doomed, oldLogs) =>
         && doomed !! current && doomed !! listed && doomed !! extra && doomed !! Outputs(merge)
         && (forall n :: n in doomed ==> n < nextFile) && (forall n :: n in oldLogs ==> n < logNumber)
  }

  /** The manifest lists the current version, give or take the edit being committed and failed flushes. */
  ghost function Base(current: set<nat>, job: Job): set<nat> {
    if (job.Committing? && !job.flush && job.written) || (job.Stuck? && job.written)
    then current - job.edit.remove + job.edit.add
    else current
  }

  ghost function Flushed(job: Job): set<nat> {
    if job.Committing? && job.flush && job.written then job.edit.add else {}
  }

  ghost predicate DiskOk(tables: map<nat, Entries>, current: set<nat>, extra: set<nat>, disk: Disk, job: Job,
                         merge: Option<Merge>, logNumber: nat, logfile: nat, imm: Option<nat>, immContents: Entries,
                         nextFile: nat, bgError: bool)
  {
    && disk.files == Base(current, job) + extra + Flushed(job)
    && (extra != {} ==> bgError)
    && Contents(tables, extra) <= immContents + Contents(tables, current - Inputs(merge))
    && (disk.logNumber == logNumber
        || (disk.logNumber == logfile && imm.Some? && immContents <= Contents(tables, extra + Flushed(job))))
    && disk.nextFile <= nextFile && (forall n :: n in disk.files ==> n < disk.nextFile)
    && (job.Building? ==> imm.Some?)
    && (job.Committing? ==>
          && (forall n :: n in current || n in extra || n in job.edit.add ==> n < job.edit.nextFile)
          && job.edit.nextFile <= nextFile && (job.written ==> disk.logNumber == job.edit.logNumber)
          && (if job.flush then
                Contents(tables, job.edit.add) == immContents && job.edit.logNumber == logfile && imm.Some?
              else job.edit.logNumber == logNumber))
  }

  /** The manifest's last sequence bounds everything its logs do not hold. */
  ghost predicate SequenceOk(hist: seq<Entry>, logs: map<nat, Entries>, disk: Disk, job: Job, lastSeq: nat) {
    && (forall e :: e in hist ==> e in LogContents(logs, disk.logNumber) || e.seqno <= disk.lastSeq)
    && (job.Committing? ==>
          forall e :: e in hist ==> e in LogContents(logs, job.edit.logNumber) || e.seqno <= job.edit.lastSeq)
  }

  /** Everything about a compaction that its results rest on. */
  ghost predicate MergeOk(tables: map<nat, Entries>, current: set<nat>, merge: Option<Merge>, job: Job, floor: nat) {
    merge.Some? ==>
      var m := merge.value;
      && Sorted(m.run) && Elements(m.run) == Contents(tables, m.inputs)
      && m.newer + m.deeper == Contents(tables, current - m.inputs)
      && Placed(m.newer, Elements(m.run), m.deeper, m.isBase) && m.floor <= floor
      && ((job.Committing? && !job.flush) || job.Stuck? ==>
            Contents(tables, m.outs) == Elements(Kept(m.run, m.floor, m.isBase, |m.run|)))
  }

  /** A get finds what replaying the history up to its sequence finds. */
  ghost predicate ReaderOk(h: Entries, pend: Entries, mem: Entries, imm: Entries, files: Entries, r: Reader) {
    && mem <= h + pend && imm <= h && files <= h
    && Covers(mem, imm) && Covers(mem, files) && Covers(imm, files)
    && Answer(mem + imm + files, r.key, r.seqno) == Answer(h, r.key, r.seqno)
    && match r.stage
       case Start => true
       case MissedMem => forall e :: !Seen(mem, r.key, r.seqno, e)
       case MissedImm => forall e :: !Seen(mem, r.key, r.seqno, e) && !Seen(imm, r.key, r.seqno, e)
       case Done(result) => result == Answer(h, r.key, r.seqno)
  }

  ghost predicate ReadersOk(h: Entries, pend: Entries, mems: map<nat, Entries>, tables: map<nat, Entries>,
                            job: Job, readers: map<nat, Reader>)
  {
    forall id :: id in readers ==>
      var r := readers[id];
      && r.mem in mems && (r.imm.Some? ==> r.imm.value in mems && r.imm.value < r.mem) && r.version <= tables.Keys
      && (job.Removing? ==> job.tables !! r.version)
      && ReaderOk(h, pend, mems[r.mem], ImmContents(mems, r.imm), Contents(tables, r.version), r)
  }

  /** A reader's sequence never falls inside a write group. */
  predicate Whole(group: seq<Entry>, s: nat) {
    (forall e :: e in group ==> e.seqno <= s) || (forall e :: e in group ==> e.seqno > s)
  }

  ghost predicate SnapsOk(snaps: seq<nat>, readers: map<nat, Reader>, lastSeq: nat, groups: seq<seq<Entry>>) {
    && Ordered(snaps, lastSeq) && (forall id :: id in readers ==> readers[id].seqno <= lastSeq)
    && (forall g, i :: g in groups && 0 <= i < |snaps| ==> Whole(g, snaps[i]))
    && (forall g, id :: g in groups && id in readers ==> Whole(g, readers[id].seqno))
  }

  ghost predicate Inv(st: State) {
    var h := Elements(st.hist);
    var floor := Floor(st.snaps, st.lastSeq);
    && WritesOk(st.hist, st.groups, st.lastSeq, st.phase, st.pend, st.bgError)
    && MemOk(st.mems, st.logfile, Mem(st), st.phase, st.pend, h)
    && LogsOk(st.logs, st.mems, st.logfile, st.imm, st.logNumber, st.nextFile, Settled(st), InLog(st.phase, st.pend))
    && LayersOk(h, Settled(st), Imm(st), Current(st), floor)
    && GroupsOk(st.groups, LoggedGroup(st.phase, st.pend), st.unread, h, Settled(st), Imm(st))
    && StampsOk(st.tables, st.extra, st.disk, st.job, Imm(st), st.lastSeq)
    && FilesOk(st.tables, st.current, st.disk.files, st.extra, st.nextFile, st.logNumber, st.job, st.merge)
    && DiskOk(st.tables, st.current, st.extra, st.disk, st.job, st.merge, st.logNumber, st.logfile, st.imm, Imm(st),
              st.nextFile, st.bgError)
    && SequenceOk(st.hist, st.logs, st.disk, st.job, st.lastSeq)
    && MergeOk(st.tables, st.current, st.merge, st.job, floor)
    && ReadersOk(h, Elements(st.pend), st.mems, st.tables, st.job, st.readers)
    && SnapsOk(st.snaps, st.readers, st.lastSeq, st.groups)
  }

  /** The part of the invariant about the group being written, the memtables and the logs. */
  ghost predicate WriterOk(st: State) {
    && WritesOk(st.hist, st.groups, st.lastSeq, st.phase, st.pend, st.bgError)
    && MemOk(st.mems, st.logfile, Mem(st), st.phase, st.pend, Elements(st.hist))
    && LogsOk(st.logs, st.mems, st.logfile, st.imm, st.logNumber, st.nextFile, Settled(st), InLog(st.phase, st.pend))
  }

  // ---- helpers ----

  lemma ElementsOf(ops: seq<Entry>, more: seq<Entry>)
    ensures Elements([]) == {} && Elements(ops + more) == Elements(ops) + Elements(more)
  {
  }

  lemma Frame(a: map<nat, Entries>, b: map<nat, Entries>, files: set<nat>)
    requires forall n :: n in files ==> (n in a <==> n in b) && (n in a ==> a[n] == b[n])
    ensures Contents(a, files) == Contents(b, files)
  {
  }

  lemma ContentsUnion(tables: map<nat, Entries>, a: set<nat>, b: set<nat>)
    ensures Contents(tables, a + b) == Contents(tables, a) + Contents(tables, b)
  {
  }

  lemma OneTable(tables: map<nat, Entries>, n: nat)
    requires n in tables
    ensures Contents(tables, {n}) == tables[n] && Contents(tables, {}) == {}
  {
  }

  /** Entries newer than all of `old` cover any part of it. */
  lemma NewerCovers(newer: Entries, whole: Entries, part: Entries)
    requires Above(newer, whole) && part <= whole
    ensures Covers(newer, part)
  {
  }

  lemma PendAbove(hist: seq<Entry>, pend: seq<Entry>)
    requires Increasing(hist + pend)
    ensures Above(Elements(pend), Elements(hist)) && Increasing(hist) && Increasing(pend)
    ensures Distinct(Elements(hist) + Elements(pend)) && Distinct(Elements(hist))
    ensures Elements(hist) * Elements(pend) == {}
  {
    var all := hist + pend;
    forall e, f | e in pend && f in hist ensures f.seqno < e.seqno {
      var i :| 0 <= i < |pend| && pend[i] == e;
      var j :| 0 <= j < |hist| && hist[j] == f;
      assert all[|hist| + i] == e && all[j] == f;
    }
    forall i, j | 0 <= i < j < |hist| ensures hist[i].seqno < hist[j].seqno {
      assert all[i] == hist[i] && all[j] == hist[j];
    }
    forall i, j | 0 <= i < j < |pend| ensures pend[i].seqno < pend[j].seqno {
      assert all[|hist| + i] == pend[i] && all[|hist| + j] == pend[j];
    }
    IncreasingIsDistinct(all);
    ElementsOf(hist, pend);
    IncreasingIsDistinct(hist);
  }

  // ---- write steps ----

  lemma NewGroupIncreases(hist: seq<Entry>, ops: seq<Entry>, lastSeq: nat)
    requires Increasing(hist) && Consecutive(ops, lastSeq) && forall e :: e in hist ==> e.seqno <= lastSeq
    ensures Increasing(hist + ops)
  {
    var all := hist + ops;
    forall i, j | 0 <= i < j < |all| ensures all[i].seqno < all[j].seqno {
      if i < |hist| {
        assert all[i] == hist[i] && hist[i] in hist;
      }
    }
  }

  lemma ReadersWiden(h: Entries, mems: map<nat, Entries>, tables: map<nat, Entries>, job: Job,
                     readers: map<nat, Reader>, p: Entries, q: Entries)
    requires ReadersOk(h, p, mems, tables, job, readers)
    requires forall n :: n in mems ==> mems[n] * p <= q
    ensures ReadersOk(h, q, mems, tables, job, readers)
  {
    hide Covers, Answer, Contents;
  }

  lemma BeginWrites(st: State, ops: seq<Entry>)
    requires Inv(st) && Enabled(st, BeginGroup(ops))
    ensures WritesOk(st.hist, st.groups, st.lastSeq, Logging, ops, st.bgError)
    ensures Elements(st.hist) * Elements(ops) == {}
  {
    hide LogsOk, LayersOk, GroupsOk, StampsOk, FilesOk, DiskOk, SequenceOk, MergeOk, SnapsOk, ReadersOk, MemOk;
    hide Contents, Flatten;
    assert st.hist + [] == st.hist;
    NewGroupIncreases(st.hist, ops, st.lastSeq);
    PendAbove(st.hist, ops);
  }

  /** Operations not yet inserted are in no memtable. */
  lemma BeginMem(mems: map<nat, Entries>, logfile: nat, mem: Entries, h: Entries, ops: seq<Entry>)
    requires MemOk(mems, logfile, mem, Idle, [], h) && h * Elements(ops) == {}
    ensures MemOk(mems, logfile, mem, Logging, ops, h) && mem * Elements(ops) == {}
  {
    ElementsOf([], []);
    assert ops[..0] == [];
  }

  lemma NothingTaken(a: Entries, b: Entries)
    requires a * b == {}
    ensures a - b == a
  {
    forall e | e in a ensures e !in b {
      assert e in b ==> e in a * b;
    }
  }

  lemma BeginKeeps(st: State, ops: seq<Entry>)
    requires Inv(st) && Enabled(st, BeginGroup(ops))
    ensures Inv(Begin(st, ops))
  {
    hide WritesOk, MemOk, LogsOk, LayersOk, GroupsOk, StampsOk, FilesOk, DiskOk, SequenceOk, MergeOk, SnapsOk;
    hide ReadersOk, Contents;
    var st' := Begin(st, ops);
    IdlePend(st);
    BeginWrites(st, ops);
    BeginMem(st.mems, st.logfile, Mem(st), Elements(st.hist), ops);
    NothingTaken(Mem(st), Elements(ops));
    ElementsOf([], []);
    assert Settled(st') == Settled(st);
    ReadersWiden(Elements(st.hist), st.mems, st.tables, st.job, st.readers, {}, Elements(ops));
  }

  lemma IdlePend(st: State)
    requires Inv(st) && st.phase.Idle?
    ensures st.pend == []
  {
    hide MemOk, LogsOk, LayersOk, GroupsOk, StampsOk, FilesOk, DiskOk, SequenceOk, MergeOk, SnapsOk, ReadersOk;
    hide Contents;
  }

  /** Adding to one log shows in every reading of the logs that includes it. */
  lemma LogGrows(logs: map<nat, Entries>, n: nat, more: Entries, from: nat)
    requires n in logs
    ensures LogContents(logs[n := logs[n] + more], from) == LogContents(logs, from) + if from <= n then more else {}
  {
    var logs' := logs[n := logs[n] + more];
    forall e | e in LogContents(logs, from) ensures e in LogContents(logs', from) {
      var m :| m in logs && m >= from && e in logs[m];
      assert m in logs' && e in logs'[m];
    }
    if from <= n {
      assert forall e :: e in more ==> e in logs'[n];
    }
  }

  lemma SequencesStay(hist: seq<Entry>, logs: map<nat, Entries>, logs': map<nat, Entries>, disk: Disk, job: Job, lastSeq: nat)
    requires SequenceOk(hist, logs, disk, job, lastSeq)
    requires LogContents(logs, disk.logNumber) <= LogContents(logs', disk.logNumber)
    requires job.Committing? ==> LogContents(logs, job.edit.logNumber) <= LogContents(logs', job.edit.logNumber)
    ensures forall lastSeq' :: SequenceOk(hist, logs', disk, job, lastSeq')
  {
    hide LogContents;
  }

  /** A group that goes to the log is read back as a whole or not at all. */
  lemma GroupLogged(groups: seq<seq<Entry>>, pend: seq<Entry>, unread: Entries, h: Entries, settled: Entries, imm: Entries,
                    shown: bool)
    requires GroupsOk(groups, [], unread, h, settled, imm) && h * Elements(pend) == {}
    requires forall g, e :: g in groups && e in g ==> e in h
    ensures GroupsOk(groups, pend, if shown then unread else unread + Elements(pend), h, settled, imm)
  {
    ElementsOf([], []);
    forall e | e in pend ensures e !in h {
      assert e in h ==> e in h * Elements(pend);
    }
    forall g | g in groups ensures Undivided(g, unread + Elements(pend)) {
      assert Undivided(g, unread);
    }
  }

  lemma GroupsInHistory(st: State)
    requires Inv(st)
    ensures forall g, e :: g in st.groups && e in g ==> e in Elements(st.hist)
  {
    hide MemOk, SnapsOk, LogsOk, LayersOk, GroupsOk, StampsOk, DiskOk, ReadersOk, FilesOk, SequenceOk, MergeOk, Flatten;
    forall g, e | g in st.groups && e in g ensures e in Elements(st.hist) {
      GroupInHistory(st.groups, g, e);
    }
  }

  lemma LoggedKeeps(st: State, shown: bool, after: Tail)
    requires Inv(st) && Enabled(st, Append(Wrote(shown, after)))
    ensures Inv(Logged(st, Wrote(shown, after)))
  {
    hide LayersOk, GroupsOk, StampsOk, FilesOk, DiskOk, SequenceOk, MergeOk, SnapsOk, ReadersOk, Contents, LogContents;
    var st' := Logged(st, Wrote(shown, after));
    assert Settled(st') == Settled(st);
    assert st'.logs - {st.logfile} == st.logs - {st.logfile};
    ElementsOf([], []);
    LogGrows(st.logs, st.logfile, Elements(st.pend), st.disk.logNumber);
    if st.job.Committing? {
      LogGrows(st.logs, st.logfile, Elements(st.pend), st.job.edit.logNumber);
    }
    SequencesStay(st.hist, st.logs, st'.logs, st.disk, st.job, st.lastSeq);
    GroupsInHistory(st);
    PendAbove(st.hist, st.pend);
    GroupLogged(st.groups, st.pend, st.unread, Elements(st.hist), Settled(st), Imm(st), shown);
  }

  /** Raising the floor and the last sequence keeps what only bounds them from below. */
  lemma TimePasses(st: State, n: nat, h: Entries)
    requires LayersOk(h, Settled(st), Imm(st), Current(st), Floor(st.snaps, st.lastSeq))
    requires MergeOk(st.tables, st.current, st.merge, st.job, Floor(st.snaps, st.lastSeq))
    requires SequenceOk(st.hist, st.logs, st.disk, st.job, st.lastSeq)
    requires SnapsOk(st.snaps, st.readers, st.lastSeq, st.groups)
    requires StampsOk(st.tables, st.extra, st.disk, st.job, Imm(st), st.lastSeq)
    ensures var floor' := Floor(st.snaps, st.lastSeq + n);
            && LayersOk(h, Settled(st), Imm(st), Current(st), floor')
            && MergeOk(st.tables, st.current, st.merge, st.job, floor')
            && SequenceOk(st.hist, st.logs, st.disk, st.job, st.lastSeq + n)
            && SnapsOk(st.snaps, st.readers, st.lastSeq + n, st.groups)
            && StampsOk(st.tables, st.extra, st.disk, st.job, Imm(st), st.lastSeq + n)
  {
    hide Answer, Above, Contents, LogContents, Placed, Whole;
  }

  lemma LogFailWriter(st: State, after: Tail)
    requires Inv(st) && Enabled(st, Append(Failed(after)))
    ensures WriterOk(Logged(st, Failed(after))) && Settled(Logged(st, Failed(after))) == Settled(st)
    ensures forall n :: n in st.mems ==> st.mems[n] * Elements(st.pend) == {}
  {
    hide LayersOk, GroupsOk, StampsOk, FilesOk, DiskOk, SequenceOk, MergeOk, SnapsOk, ReadersOk, LogsOk, Contents;
    hide LogContents, Flatten;
    var st' := Logged(st, Failed(after));
    assert st.hist + [] == st.hist;
    PendAbove(st.hist, st.pend);
    Disjoint(Elements(st.hist), Elements(st.pend));
    NoneInserted(Mem(st), st.pend);
    ElementsOf([], []);
    assert st.pend[..0] == [];
    SettledAlone(st');
  }

  lemma SettledAlone(st: State)
    requires st.pend == []
    ensures Settled(st) == Mem(st)
  {
    ElementsOf([], []);
  }

  lemma LogFailKeeps(st: State, after: Tail)
    requires Inv(st) && Enabled(st, Append(Failed(after)))
    ensures Inv(Logged(st, Failed(after)))
  {
    hide WritesOk, MemOk, LogsOk, LayersOk, GroupsOk, StampsOk, FilesOk, DiskOk, SequenceOk, MergeOk, SnapsOk;
    hide ReadersOk, Contents, LogContents;
    LogFailWriter(st, after);
    ElementsOf([], []);
    TimePasses(st, |st.pend|, Elements(st.hist));
    ReadersWiden(Elements(st.hist), st.mems, st.tables, st.job, st.readers, Elements(st.pend), {});
  }

  lemma SyncFailKeeps(st: State)
    requires Inv(st) && Enabled(st, SyncFail)
    ensures Inv(Next(st, SyncFail))
  {
    hide LayersOk, GroupsOk, StampsOk, FilesOk, SequenceOk, MergeOk, SnapsOk, ReadersOk, Contents, LogContents, LogsOk;
    var st' := Next(st, SyncFail);
    assert st.pend[..0] == [];
    ElementsOf([], []);
    TimePasses(st, |st.pend|, Elements(st.hist));
  }

  /** What lies above every settled operation changes no read below it, and hides nothing it should not. */
  lemma LaterUnseen(mem: Entries, imm: Entries, files: Entries, more: Entries, h: Entries, k: Bytes, s: nat)
    requires mem + imm + files <= h + more && Distinct(h + more) && Above(more, h) && imm + files <= h
    requires forall e :: e in more ==> e.seqno > s
    requires Covers(mem, imm) && Covers(mem, files)
    ensures forall part :: part <= more ==>
              && Answer(mem + part + imm + files, k, s) == Answer(mem + imm + files, k, s)
              && (forall e :: Seen(mem + part, k, s, e) <==> Seen(mem, k, s, e))
              && Covers(mem + part, imm) && Covers(mem + part, files)
  {
    forall part | part <= more
      ensures Answer(mem + part + imm + files, k, s) == Answer(mem + imm + files, k, s)
      ensures forall e :: Seen(mem + part, k, s, e) <==> Seen(mem, k, s, e)
      ensures Covers(mem + part, imm) && Covers(mem + part, files)
    {
      AnswerIgnoresLater(mem + part + imm + files, mem + imm + files, k, s);
    }
  }

  lemma ReaderAfterInsert(h: Entries, pend: Entries, e: Entry, mem: Entries, imm: Entries, files: Entries, r: Reader)
    requires ReaderOk(h, pend, mem, imm, files, r) && e in pend && Above(pend, h) && Distinct(h + pend)
    requires forall e :: e in pend ==> e.seqno > r.seqno
    ensures ReaderOk(h, pend, mem + {e}, imm, files, r)
  {
    hide Answer;
    LaterUnseen(mem, imm, files, pend, h, r.key, r.seqno);
    assert {e} <= pend;
    assert forall f :: Seen(mem + {e}, r.key, r.seqno, f) <==> Seen(mem, r.key, r.seqno, f);
  }

  ghost predicate Later(p: Entries, readers: map<nat, Reader>) {
    forall id, e :: id in readers && e in p ==> e.seqno > readers[id].seqno
  }

  lemma GroupLater(st: State)
    requires Inv(st) && st.phase.Inserting?
    ensures Later(Elements(st.pend), st.readers)
  {
    hide MemOk, LayersOk, GroupsOk, StampsOk, FilesOk, DiskOk, LogsOk, SequenceOk, MergeOk, ReadersOk;
  }

  lemma ReadersInsert(h: Entries, p: Entries, mems: map<nat, Entries>, n: nat, e: Entry,
                      tables: map<nat, Entries>, job: Job, readers: map<nat, Reader>)
    requires ReadersOk(h, p, mems, tables, job, readers) && e in p && Above(p, h) && Distinct(h + p)
    requires n in mems && (forall m :: m in mems ==> m <= n) && Later(p, readers)
    ensures ReadersOk(h, p, mems[n := mems[n] + {e}], tables, job, readers)
  {
    hide ReaderOk, Contents, Above, Distinct;
    var mems' := mems[n := mems[n] + {e}];
    forall id | id in readers
      ensures var r := readers[id];
              ReaderOk(h, p, mems'[r.mem], ImmContents(mems', r.imm), Contents(tables, r.version), r)
    {
      var r := readers[id];
      if r.mem == n {
        ReaderAfterInsert(h, p, e, mems[r.mem], ImmContents(mems, r.imm), Contents(tables, r.version), r);
      }
    }
  }

  lemma InsertWriter(st: State)
    requires Inv(st) && Enabled(st, Insert)
    ensures WriterOk(Inserted(st)) && Settled(Inserted(st)) == Settled(st) && Imm(Inserted(st)) == Imm(st)
    ensures st.logfile in st.mems && st.mems[st.logfile] == Mem(st) && forall n :: n in st.mems ==> n <= st.logfile
  {
    hide LayersOk, GroupsOk, StampsOk, FilesOk, DiskOk, SequenceOk, MergeOk, SnapsOk, ReadersOk, Contents;
    hide LogContents, Flatten, Increasing;
    var st' := Inserted(st);
    var d := st.phase.done;
    assert st.pend[..d + 1] == st.pend[..d] + [st.pend[d]];
    ElementsOf(st.pend[..d], [st.pend[d]]);
    assert Elements([st.pend[d]]) == {st.pend[d]};
    assert Settled(st') == Settled(st);
  }

  lemma InsertKeeps(st: State)
    requires Inv(st) && Enabled(st, Insert)
    ensures Inv(Inserted(st))
  {
    hide WritesOk, MemOk, LogsOk, LayersOk, GroupsOk, StampsOk, FilesOk, DiskOk, SequenceOk, MergeOk, SnapsOk;
    hide ReadersOk, Contents, LogContents, Above, Distinct, Settled, Imm;
    InsertWriter(st);
    HistoryDistinct(st);
    GroupLater(st);
    ReadersInsert(Elements(st.hist), Elements(st.pend), st.mems, st.logfile, st.pend[st.phase.done], st.tables, st.job, st.readers);
  }

  lemma FlattenGroups(groups: seq<seq<Entry>>, last: seq<Entry>)
    ensures Flatten(groups + [last]) == Flatten(groups) + last
  {
    FlattenAppend(groups, last);
  }

  /** Two sets that read alike still do under the same newer entries. */
  lemma AlikeUnder(a: Entries, b: Entries, newer: Entries, floor: nat)
    requires ReadAlike(a, b, floor) && Distinct(a + b + newer) && Above(newer, a + b)
    ensures ReadAlike(a + newer, b + newer, floor)
  {
    forall k, s | s >= floor ensures Answer(a + newer, k, s) == Answer(b + newer, k, s) {
      assert a + newer == newer + a && b + newer == newer + b;
      LayeredLookup(newer, a, k, s);
      LayeredLookup(newer, b, k, s);
      if e :| Seen(newer, k, s, e) {
      }
    }
  }

  lemma LayersGain(h: Entries, settled: Entries, imm: Entries, files: Entries, floor: nat, p: Entries)
    requires LayersOk(h, settled, imm, files, floor) && Above(p, h) && h * p == {}
    ensures LayersOk(h + p, settled + p, imm, files, floor)
  {
    hide Answer, ReadAlike;
    assert h + p - (settled + p) == h - settled by { Disjoint(h, p); }
    assert Below(h + p, settled + p, imm) == Below(h, settled, imm);
  }

  lemma Disjoint(a: Entries, b: Entries)
    requires a * b == {}
    ensures forall e :: e in a ==> e !in b
  {
    NothingTaken(a, b);
  }

  lemma GroupFinished(groups: seq<seq<Entry>>, pend: seq<Entry>, unread: Entries, h: Entries, settled: Entries, imm: Entries)
    requires GroupsOk(groups, pend, unread, h, settled, imm) && h * Elements(pend) == {} && imm <= h
    requires forall g, e :: g in groups && e in g ==> e in h
    ensures GroupsOk(groups + [pend], [], unread, h + Elements(pend), settled + Elements(pend), imm)
  {
    ElementsOf([], []);
    Disjoint(h, Elements(pend));
    forall g | g in groups ensures Undivided(g, settled + Elements(pend)) {
      assert Undivided(g, settled);
    }
    assert Undivided(pend, imm) && Undivided(pend, settled + Elements(pend));
  }

  lemma ReaderGains(h: Entries, p: Entries, mem: Entries, imm: Entries, files: Entries, r: Reader)
    requires ReaderOk(h, p, mem, imm, files, r) && Above(p, h) && Distinct(h + p)
    requires forall e :: e in p ==> e.seqno > r.seqno
    ensures ReaderOk(h + p, {}, mem, imm, files, r)
  {
    hide Answer;
    AnswerIgnoresLater(h + p, h, r.key, r.seqno);
  }

  lemma SnapsGain(snaps: seq<nat>, readers: map<nat, Reader>, lastSeq: nat, groups: seq<seq<Entry>>, g: seq<Entry>)
    requires SnapsOk(snaps, readers, lastSeq, groups) && Consecutive(g, lastSeq)
    ensures SnapsOk(snaps, readers, lastSeq + |g|, groups + [g])
  {
  }

  lemma SequencesGain(hist: seq<Entry>, pend: seq<Entry>, logs: map<nat, Entries>, disk: Disk, job: Job, lastSeq: nat)
    requires SequenceOk(hist, logs, disk, job, lastSeq)
    requires Elements(pend) <= LogContents(logs, disk.logNumber)
    requires job.Committing? ==> Elements(pend) <= LogContents(logs, job.edit.logNumber)
    ensures forall lastSeq' :: SequenceOk(hist + pend, logs, disk, job, lastSeq')
  {
    hide LogContents;
  }

  /** The current log is read in full from any number up to its own. */
  lemma LogInFull(logs: map<nat, Entries>, n: nat, from: nat)
    requires n in logs && from <= n
    ensures logs[n] <= LogContents(logs, from)
    ensures (forall m :: m in logs ==> m <= n) ==> LogContents(logs, n) == logs[n]
  {
  }

  lemma ReadersGain(h: Entries, p: Entries, mems: map<nat, Entries>, tables: map<nat, Entries>, job: Job,
                    readers: map<nat, Reader>)
    requires ReadersOk(h, p, mems, tables, job, readers) && Above(p, h) && Distinct(h + p) && Later(p, readers)
    ensures ReadersOk(h + p, {}, mems, tables, job, readers)
  {
    hide ReaderOk, Contents, Above, Distinct;
    forall id | id in readers
      ensures var r := readers[id];
              ReaderOk(h + p, {}, mems[r.mem], ImmContents(mems, r.imm), Contents(tables, r.version), r)
    {
      var r := readers[id];
      ReaderGains(h, p, mems[r.mem], ImmContents(mems, r.imm), Contents(tables, r.version), r);
    }
  }

  lemma GroupInLogs(st: State)
    requires Inv(st) && st.phase.Inserting?
    ensures Elements(st.pend) <= LogContents(st.logs, st.disk.logNumber)
    ensures st.job.Committing? ==> Elements(st.pend) <= LogContents(st.logs, st.job.edit.logNumber)
  {
    hide LayersOk, GroupsOk, StampsOk, FilesOk, SequenceOk, MergeOk, SnapsOk, ReadersOk, Contents, LogContents;
    hide WritesOk, MemOk;
    LogInFull(st.logs, st.logfile, st.disk.logNumber);
    if st.job.Committing? {
      LogInFull(st.logs, st.logfile, st.job.edit.logNumber);
    }
  }

  lemma FinishWriter(st: State)
    requires Inv(st) && Enabled(st, FinishGroup)
    ensures WriterOk(Finished(st)) && Settled(Finished(st)) == Settled(st) + Elements(st.pend)
    ensures Elements(st.hist + st.pend) == Elements(st.hist) + Elements(st.pend)
  {
    hide LayersOk, GroupsOk, StampsOk, FilesOk, DiskOk, SequenceOk, MergeOk, SnapsOk, ReadersOk, Contents;
    hide LogContents, Flatten;
    var st' := Finished(st);
    ElementsOf(st.hist, st.pend);
    ElementsOf([], []);
    assert st.pend[..|st.pend|] == st.pend && st'.hist + [] == st'.hist;
    FlattenGroups(st.groups, st.pend);
    assert Settled(st') == Settled(st) + Elements(st.pend);
  }

  lemma FinishOrder(st: State)
    requires Inv(st) && st.phase.Inserting?
    ensures Consecutive(st.pend, st.lastSeq) && Elements(st.hist) * Elements(st.pend) == {}
  {
    hide LayersOk, GroupsOk, StampsOk, FilesOk, DiskOk, SequenceOk, MergeOk, SnapsOk, ReadersOk, MemOk, LogsOk;
    hide Contents, LogContents, Flatten;
    PendAbove(st.hist, st.pend);
  }

  lemma FinishKeeps(st: State)
    requires Inv(st) && Enabled(st, FinishGroup)
    ensures Inv(Finished(st))
  {
    hide WritesOk, MemOk, LogsOk, LayersOk, GroupsOk, StampsOk, FilesOk, DiskOk, SequenceOk, MergeOk, SnapsOk;
    hide ReadersOk, Contents, LogContents, Above, Distinct, Settled, Imm, Consecutive;
    var st' := Finished(st);
    var h, p := Elements(st.hist), Elements(st.pend);
    FinishWriter(st);
    FinishOrder(st);
    GroupInLogs(st);
    HistoryDistinct(st);
    ElementsOf([], []);
    LayersGain(h, Settled(st), Imm(st), Current(st), Floor(st.snaps, st.lastSeq), p);
    GroupsInHistory(st);
    ImmInHistory(st);
    GroupFinished(st.groups, st.pend, st.unread, h, Settled(st), Imm(st));
    StampsLater(st.tables, st.extra, st.disk, st.job, Imm(st), st.lastSeq, st'.lastSeq);
    SnapsGain(st.snaps, st.readers, st.lastSeq, st.groups, st.pend);
    SequencesGain(st.hist, st.pend, st.logs, st.disk, st.job, st.lastSeq);
    GroupLater(st);
    ReadersGain(h, p, st.mems, st.tables, st.job, st.readers);
    FloorRises(st.snaps, st.lastSeq, st'.lastSeq, h + p, Settled(st'), Imm(st), Current(st), st.tables, st.current, st.merge, st.job);
    assert Imm(st') == Imm(st) by { SameImm(st, st'); }
  }

  lemma SameImm(st: State, st': State)
    requires st'.mems == st.mems && st'.imm == st.imm
    ensures Imm(st') == Imm(st)
  {
  }

  lemma StampsLater(tables: map<nat, Entries>, extra: set<nat>, disk: Disk, job: Job, imm: Entries, lastSeq: nat, later: nat)
    requires StampsOk(tables, extra, disk, job, imm, lastSeq) && lastSeq <= later
    ensures StampsOk(tables, extra, disk, job, imm, later)
  {
    hide Contents;
  }

  lemma ImmInHistory(st: State)
    requires Inv(st)
    ensures Settled(st) <= Elements(st.hist) && Imm(st) <= Elements(st.hist) - Settled(st)
    ensures Current(st) <= Below(Elements(st.hist), Settled(st), Imm(st))
  {
    hide WritesOk, MemOk, SnapsOk, LogsOk, GroupsOk, StampsOk, DiskOk, ReadersOk, FilesOk, SequenceOk, MergeOk, Above;
    hide ReadAlike;
  }

  lemma FloorRises(snaps: seq<nat>, s: nat, s': nat, h: Entries, m: Entries, i: Entries, c: Entries,
                   tables: map<nat, Entries>, current: set<nat>, merge: Option<Merge>, job: Job)
    requires s <= s'
    requires LayersOk(h, m, i, c, Floor(snaps, s)) && MergeOk(tables, current, merge, job, Floor(snaps, s))
    ensures LayersOk(h, m, i, c, Floor(snaps, s')) && MergeOk(tables, current, merge, job, Floor(snaps, s'))
  {
    hide Answer, Covers, Contents, Placed;
  }

  lemma LayersShift(h: Entries, settled: Entries, files: Entries, floor: nat)
    requires LayersOk(h, settled, {}, files, floor)
    ensures LayersOk(h, {}, settled, files, floor)
  {
    hide ReadAlike;
    assert Below(h, {}, settled) == Below(h, settled, {}) == h - settled;
  }

  lemma GroupsShift(groups: seq<seq<Entry>>, unread: Entries, h: Entries, settled: Entries)
    requires GroupsOk(groups, [], unread, h, settled, {})
    ensures GroupsOk(groups, [], unread, h, {}, settled)
  {
  }

  /** At a switch no flush has failed to commit and none is under way. */
  lemma StampsShift(st: State, imm: Entries)
    requires StampsOk(st.tables, st.extra, st.disk, st.job, Imm(st), st.lastSeq)
    requires DiskOk(st.tables, st.current, st.extra, st.disk, st.job, st.merge, st.logNumber, st.logfile, None, Imm(st),
                    st.nextFile, false)
    ensures StampsOk(st.tables, st.extra, st.disk, st.job, imm, st.lastSeq)
  {
    hide Contents;
  }

  lemma DiskAfterSwitch(st: State, immContents: Entries, bgError: bool)
    requires DiskOk(st.tables, st.current, st.extra, st.disk, st.job, st.merge, st.logNumber, st.logfile, None, {},
                    st.nextFile, false)
    ensures DiskOk(st.tables, st.current, st.extra, st.disk, st.job, st.merge, st.logNumber, st.nextFile, Some(st.logfile),
                   immContents, st.nextFile + 1, bgError)
  {
    hide Contents;
  }

  lemma FilesLater(st: State, nextFile: nat)
    requires FilesOk(st.tables, st.current, st.disk.files, st.extra, st.nextFile, st.logNumber, st.job, st.merge)
    requires st.nextFile <= nextFile
    ensures FilesOk(st.tables, st.current, st.disk.files, st.extra, nextFile, st.logNumber, st.job, st.merge)
  {
  }

  lemma ReadersNewMem(h: Entries, p: Entries, mems: map<nat, Entries>, n: nat,
                      tables: map<nat, Entries>, job: Job, readers: map<nat, Reader>)
    requires ReadersOk(h, p, mems, tables, job, readers) && n !in mems
    ensures ReadersOk(h, p, mems[n := {}], tables, job, readers)
  {
    hide ReaderOk, Contents;
  }

  lemma SwitchWriter(st: State, closed: bool)
    requires Inv(st) && Enabled(st, Switch(closed))
    ensures var st' := Switched(st, closed);
            && WriterOk(st') && Settled(st') == {} && Imm(st') == Settled(st) && Imm(st) == {}
            && st.nextFile !in st.mems && st.nextFile !in st.logs && st.pend == []
  {
    hide LayersOk, GroupsOk, StampsOk, FilesOk, DiskOk, SequenceOk, MergeOk, SnapsOk, ReadersOk, Contents;
    hide LogContents, Flatten, Increasing;
    var st' := Switched(st, closed);
    ElementsOf([], []);
    assert Settled(st') == {} && Imm(st') == Settled(st) && Imm(st) == {};
    assert st'.logs - {st'.logfile} == st.logs;
    SplitLogs(st.logs, st.logfile, st.logNumber);
  }

  lemma SwitchKeeps(st: State, closed: bool)
    requires Inv(st) && Enabled(st, Switch(closed))
    ensures Inv(Switched(st, closed))
  {
    hide WritesOk, MemOk, LogsOk, LayersOk, GroupsOk, StampsOk, FilesOk, DiskOk, SequenceOk, MergeOk, SnapsOk;
    hide ReadersOk, Contents, LogContents, Settled, Imm;
    var st' := Switched(st, closed);
    ElementsOf([], []);
    SwitchWriter(st, closed);
    LayersShift(Elements(st.hist), Settled(st), Current(st), Floor(st.snaps, st.lastSeq));
    GroupsShift(st.groups, st.unread, Elements(st.hist), Settled(st));
    StampsShift(st, Settled(st));
    DiskAfterSwitch(st, Settled(st), !closed);
    FilesLater(st, st.nextFile + 1);
    ReadersNewMem(Elements(st.hist), {}, st.mems, st.nextFile, st.tables, st.job, st.readers);
    NewLog(st.logs, st.nextFile, st.disk.logNumber);
    if st.job.Committing? {
      NewLog(st.logs, st.nextFile, st.job.edit.logNumber);
    }
    SequencesStay(st.hist, st.logs, st'.logs, st.disk, st.job, st.lastSeq);
  }

  lemma SplitLogs(logs: map<nat, Entries>, n: nat, from: nat)
    requires n in logs && from <= n
    ensures LogContents(logs, from) == LogContents(logs - {n}, from) + logs[n]
  {
    forall e | e in LogContents(logs, from) ensures e in LogContents(logs - {n}, from) + logs[n] {
      var m :| m in logs && m >= from && e in logs[m];
      if m != n {
        assert m in logs - {n} && e in (logs - {n})[m];
      }
    }
    forall e | e in LogContents(logs - {n}, from) ensures e in LogContents(logs, from) {
      var m :| m in logs - {n} && m >= from && e in (logs - {n})[m];
      assert m in logs && e in logs[m];
    }
  }

  lemma NewLog(logs: map<nat, Entries>, n: nat, from: nat)
    requires n !in logs
    ensures LogContents(logs[n := {}], from) == LogContents(logs, from)
  {
    forall e | e in LogContents(logs, from) ensures e in LogContents(logs[n := {}], from) {
      var m :| m in logs && m >= from && e in logs[m];
      assert m in logs[n := {}] && e in logs[n := {}][m];
    }
  }

  // ---- background steps ----

  ghost predicate Referenced(st: State, n: nat) {
    || n in st.current || n in st.disk.files || n in st.extra || n in Outputs(st.merge)
    || exists id :: id in st.readers && n in st.readers[id].version
  }

  lemma DiskFrame(a: map<nat, Entries>, b: map<nat, Entries>, current: set<nat>, extra: set<nat>, disk: Disk, job: Job,
                  merge: Option<Merge>, logNumber: nat, logfile: nat, imm: Option<nat>, i: Entries, nextFile: nat, bgError: bool)
    requires DiskOk(a, current, extra, disk, job, merge, logNumber, logfile, imm, i, nextFile, bgError)
    requires !job.Committing? && forall n :: n in current || n in extra ==> n in a && n in b && a[n] == b[n]
    ensures DiskOk(b, current, extra, disk, job, merge, logNumber, logfile, imm, i, nextFile, bgError)
  {
    hide Contents;
    Frame(a, b, extra);
    Frame(a, b, current - Inputs(merge));
    assert extra + Flushed(job) == extra;
  }

  lemma MergeFrame(a: map<nat, Entries>, b: map<nat, Entries>, current: set<nat>, merge: Option<Merge>, job: Job, floor: nat)
    requires MergeOk(a, current, merge, job, floor) && Inputs(merge) <= current
    requires forall n :: n in current || n in Outputs(merge) ==> n in a && n in b && a[n] == b[n]
    ensures MergeOk(b, current, merge, job, floor)
  {
    hide Contents, Placed, Sorted, Kept;
    Frame(a, b, current - Inputs(merge));
    Frame(a, b, Inputs(merge));
    Frame(a, b, Outputs(merge));
  }

  lemma ReadersFrame(h: Entries, p: Entries, mems: map<nat, Entries>, a: map<nat, Entries>, b: map<nat, Entries>,
                     job: Job, readers: map<nat, Reader>)
    requires ReadersOk(h, p, mems, a, job, readers)
    requires forall id, n :: id in readers && n in readers[id].version ==> n in a && n in b && a[n] == b[n]
    ensures ReadersOk(h, p, mems, b, job, readers)
  {
    hide ReaderOk, Contents;
    forall id | id in readers ensures Contents(b, readers[id].version) == Contents(a, readers[id].version) {
      Frame(a, b, readers[id].version);
    }
  }

  lemma StampsFrame(a: map<nat, Entries>, b: map<nat, Entries>, extra: set<nat>, disk: Disk, job: Job, imm: Entries, lastSeq: nat)
    requires StampsOk(a, extra, disk, job, imm, lastSeq) && !job.Committing?
    requires forall n :: n in extra ==> n in a && n in b && a[n] == b[n]
    ensures StampsOk(b, extra, disk, job, imm, lastSeq)
  {
    hide Contents;
    assert extra + Flushed(job) == extra;
    Frame(a, b, extra);
  }

  /** Creating and deleting tables nothing refers to disturbs nothing. */
  lemma TablesFrame(st: State, tables: map<nat, Entries>)
    requires Inv(st) && !st.job.Committing?
    requires forall n :: n in st.tables && Referenced(st, n) ==> n in tables && tables[n] == st.tables[n]
    ensures Contents(tables, st.current) == Current(st)
    ensures DiskOk(tables, st.current, st.extra, st.disk, st.job, st.merge, st.logNumber, st.logfile, st.imm, Imm(st),
                   st.nextFile, st.bgError)
    ensures MergeOk(tables, st.current, st.merge, st.job, Floor(st.snaps, st.lastSeq))
    ensures ReadersOk(Elements(st.hist), Elements(st.pend), st.mems, tables, st.job, st.readers)
    ensures StampsOk(tables, st.extra, st.disk, st.job, Imm(st), st.lastSeq)
  {
    hide WritesOk, MemOk, LogsOk, LayersOk, GroupsOk, StampsOk, SequenceOk, SnapsOk, ReaderOk, MergeOk, DiskOk;
    hide Contents;
    assert forall id :: id in st.readers ==> st.readers[id].version <= st.tables.Keys;
    Frame(st.tables, tables, st.current);
    StampsFrame(st.tables, tables, st.extra, st.disk, st.job, Imm(st), st.lastSeq);
    DiskFrame(st.tables, tables, st.current, st.extra, st.disk, st.job, st.merge, st.logNumber, st.logfile, st.imm,
              Imm(st), st.nextFile, st.bgError);
    MergeFrame(st.tables, tables, st.current, st.merge, st.job, Floor(st.snaps, st.lastSeq));
    ReadersFrame(Elements(st.hist), Elements(st.pend), st.mems, st.tables, tables, st.job, st.readers);
  }

  /** The background thread moving between phases matters to gets only while it deletes files. */
  lemma ReadersJob(h: Entries, p: Entries, mems: map<nat, Entries>, tables: map<nat, Entries>,
                   job: Job, job': Job, readers: map<nat, Reader>)
    requires ReadersOk(h, p, mems, tables, job, readers)
    requires job'.Removing? ==> forall id :: id in readers ==> job'.tables !! readers[id].version
    ensures ReadersOk(h, p, mems, tables, job', readers)
  {
    hide ReaderOk, Contents;
  }

  /** Nothing about stamps depends on the job beyond the edit it commits. */
  lemma StampsJob(tables: map<nat, Entries>, extra: set<nat>, extra': set<nat>, disk: Disk, job: Job, job': Job,
                  imm: Entries, lastSeq: nat)
    requires StampsOk(tables, extra, disk, job, imm, lastSeq)
    requires extra' + Flushed(job') == extra + Flushed(job) && !job'.Committing?
    ensures StampsOk(tables, extra', disk, job', imm, lastSeq)
  {
    hide Contents;
  }

  /** A new edit is stamped with the last sequence. */
  lemma StampsEdit(tables: map<nat, Entries>, extra: set<nat>, disk: Disk, job: Job, job': Job, imm: Entries, lastSeq: nat)
    requires StampsOk(tables, extra, disk, job, imm, lastSeq) && !job.Committing?
    requires job'.Committing? && !job'.written && job'.edit.lastSeq == lastSeq
    requires job'.flush ==> forall e :: e in imm ==> e.seqno <= lastSeq
    ensures StampsOk(tables, extra, disk, job', imm, lastSeq)
  {
    hide Contents;
    assert extra + Flushed(job) == extra == extra + Flushed(job');
  }

  lemma ImmIsPast(st: State)
    requires Inv(st)
    ensures forall e :: e in Imm(st) ==> e.seqno <= st.lastSeq
  {
    hide MemOk, LogsOk, GroupsOk, StampsOk, FilesOk, DiskOk, SequenceOk, MergeOk, SnapsOk, ReadersOk, Above;
    hide ReadAlike, Flatten;
  }

  lemma FlushStartKeeps(st: State)
    requires Inv(st) && Enabled(st, FlushStart)
    ensures Inv(Next(st, FlushStart))
  {
    hide WritesOk, MemOk, LayersOk, GroupsOk, StampsOk, SnapsOk, ReadersOk, Contents, LogContents, Kept, Placed, Sorted;
    var st' := Next(st, FlushStart);
    StampsJob(st.tables, st.extra, st.extra, st.disk, st.job, st'.job, Imm(st), st.lastSeq);
    ReadersJob(Elements(st.hist), Elements(st.pend), st.mems, st.tables, st.job, st'.job, st.readers);
  }

  lemma FlushFailKeeps(st: State)
    requires Inv(st) && Enabled(st, FlushBuilt(false))
    ensures Inv(Built(st, false))
  {
    hide MemOk, LayersOk, GroupsOk, StampsOk, SnapsOk, ReadersOk, LogsOk, Contents, LogContents, Kept, Placed, Sorted;
    hide Flatten;
    StampsJob(st.tables, st.extra, st.extra, st.disk, st.job, NoJob, Imm(st), st.lastSeq);
    ReadersJob(Elements(st.hist), Elements(st.pend), st.mems, st.tables, st.job, NoJob, st.readers);
  }

  /** The new table is registered as the manifest edit to be written. */
  lemma EditReady(st: State)
    requires Inv(st) && st.job.Building?
    ensures var st' := Built(st, true);
            && FilesOk(st'.tables, st.current, st.disk.files, st.extra, st.nextFile, st.logNumber, st'.job, st.merge)
            && (DiskOk(st'.tables, st.current, st.extra, st.disk, st.job, st.merge, st.logNumber, st.logfile, st.imm,
                       Imm(st), st.nextFile, st.bgError) ==>
                DiskOk(st'.tables, st.current, st.extra, st.disk, st'.job, st.merge, st.logNumber, st.logfile, st.imm,
                       Imm(st), st.nextFile, st.bgError))
            && SequenceOk(st.hist, st.logs, st.disk, st'.job, st.lastSeq)
  {
    hide MemOk, LayersOk, GroupsOk, StampsOk, SnapsOk, ReadersOk, LogsOk, LogContents, MergeOk, Flatten, Contents;
    OneTable(Built(st, true).tables, st.job.table);
  }

  lemma MergeJob(tables: map<nat, Entries>, current: set<nat>, merge: Option<Merge>, job: Job, job': Job, floor: nat)
    requires MergeOk(tables, current, merge, job, floor)
    requires !((job'.Committing? && !job'.flush) || job'.Stuck?)
    ensures MergeOk(tables, current, merge, job', floor)
  {
    hide Contents, Placed, Sorted, Kept;
  }

  lemma FlushBuiltKeeps(st: State)
    requires Inv(st) && Enabled(st, FlushBuilt(true))
    ensures Inv(Built(st, true))
  {
    hide WritesOk, MemOk, LayersOk, GroupsOk, StampsOk, SnapsOk, LogsOk, ReadersOk, ReaderOk, SequenceOk, MergeOk;
    hide DiskOk, Contents, LogContents;
    var st' := Built(st, true);
    assert st.job.table !in st.tables;
    TablesFrame(st, st'.tables);
    EditReady(st);
    MergeJob(st'.tables, st.current, st.merge, st.job, st'.job, Floor(st.snaps, st.lastSeq));
    ImmIsPast(st);
    StampsEdit(st'.tables, st.extra, st.disk, st.job, st'.job, Imm(st), st.lastSeq);
    ReadersJob(Elements(st.hist), Elements(st.pend), st.mems, st'.tables, st.job, st'.job, st.readers);
  }

  lemma StampsWritten(st: State, after: Tail)
    requires Inv(st) && WritingManifest(st.job)
    ensures var st' := ManifestWritten(st, true, after);
            StampsOk(st.tables, st.extra, st'.disk, st'.job, Imm(st), st.lastSeq)
  {
    hide WritesOk, MemOk, LayersOk, GroupsOk, FilesOk, SnapsOk, LogsOk, ReadersOk, MergeOk, SequenceOk, Contents;
    hide LogContents;
    ContentsUnion(st.tables, st.extra, st.job.edit.add);
    assert st.extra + {} == st.extra;
  }

  lemma ManifestFilesOk(st: State, after: Tail)
    requires Inv(st) && WritingManifest(st.job)
    ensures var st' := ManifestWritten(st, true, after);
            && FilesOk(st.tables, st.current, st'.disk.files, st.extra, st.nextFile, st.logNumber, st'.job, st.merge)
            && SequenceOk(st.hist, st.logs, st'.disk, st'.job, st.lastSeq)
  {
    hide WritesOk, MemOk, LayersOk, GroupsOk, StampsOk, SnapsOk, LogsOk, ReadersOk, MergeOk, DiskOk, Contents;
    hide LogContents;
  }

  lemma ManifestDiskOk(st: State, after: Tail)
    requires Inv(st) && WritingManifest(st.job)
    ensures var st' := ManifestWritten(st, true, after);
            DiskOk(st.tables, st.current, st.extra, st'.disk, st'.job, st.merge, st.logNumber, st.logfile, st.imm, Imm(st),
                   st.nextFile, st.bgError)
  {
    hide WritesOk, MemOk, LayersOk, GroupsOk, StampsOk, SnapsOk, LogsOk, ReadersOk, MergeOk, SequenceOk, Contents;
    hide LogContents;
    var st' := ManifestWritten(st, true, after);
    var e := st.job.edit;
    ContentsUnion(st.tables, st.extra, e.add);
    assert st.disk.files - e.remove + e.add == Base(st.current, st'.job) + st.extra + Flushed(st'.job);
  }

  lemma ManifestKeeps(st: State, after: Tail)
    requires Inv(st) && Enabled(st, WriteManifest(true, after))
    ensures Inv(ManifestWritten(st, true, after))
  {
    hide WritesOk, MemOk, LogsOk, LayersOk, GroupsOk, StampsOk, FilesOk, DiskOk, SequenceOk, MergeOk, SnapsOk;
    hide ReadersOk, Contents, LogContents;
    var st' := ManifestWritten(st, true, after);
    ManifestFilesOk(st, after);
    ManifestDiskOk(st, after);
    StampsWritten(st, after);
    ReadersJob(Elements(st.hist), Elements(st.pend), st.mems, st.tables, st.job, st'.job, st.readers);
    SameMergeJob(st.tables, st.current, st.merge, st.job, st'.job, Floor(st.snaps, st.lastSeq));
  }

  lemma SameMergeJob(tables: map<nat, Entries>, current: set<nat>, merge: Option<Merge>, job: Job, job': Job, floor: nat)
    requires MergeOk(tables, current, merge, job, floor) && job.Committing?
    requires (job'.Committing? && job'.flush == job.flush) || (job'.Stuck? && !job.flush)
    ensures MergeOk(tables, current, merge, job', floor)
  {
    hide Contents, Placed, Sorted, Kept;
  }

  // ---- commits ----

  lemma CoversUnion(a: Entries, b: Entries, x: Entries, y: Entries)
    requires Covers(a, x) && Covers(b, x) && y <= x
    ensures Covers(a + b, y) && Covers(a, y) && Covers(b, y)
  {
  }

  lemma CoversBoth(a: Entries, x: Entries, y: Entries)
    requires Covers(a, x) && Covers(a, y)
    ensures Covers(a, x + y)
  {
  }

  /** The flushed memtable becomes the newest table: the same entries, one layer down. */
  lemma LayersSink(h: Entries, settled: Entries, imm: Entries, files: Entries, floor: nat)
    requires LayersOk(h, settled, imm, files, floor) && Distinct(h)
    ensures LayersOk(h, settled, {}, files + imm, floor)
  {
    hide ReadAlike;
    var below := Below(h, settled, imm);
    assert Below(h, settled, {}) == below + imm;
    AlikeUnder(files, below, imm, floor);
  }

  /** A flush during a compaction: its table is newer than everything the compaction was placed among. */
  lemma MergeSinks(tables: map<nat, Entries>, current: set<nat>, merge: Option<Merge>, job: Job, floor: nat,
                   add: set<nat>, imm: Entries, h: Entries)
    requires MergeOk(tables, current, merge, job, floor) && Inputs(merge) <= current
    requires Contents(tables, add) == imm && add !! current && Covers(imm, Contents(tables, current))
    requires Contents(tables, current) + imm <= h && Distinct(h)
    ensures MergeOk(tables, current + add, MergeBelow(merge, imm), NoJob, floor)
  {
    hide Contents, Covers, Distinct, Sorted, Kept;
    if merge.Some? {
      var m := merge.value;
      assert current + add - m.inputs == (current - m.inputs) + add;
      assert current == (current - m.inputs) + m.inputs;
      ContentsUnion(tables, current - m.inputs, add);
      ContentsUnion(tables, current - m.inputs, m.inputs);
      var c := Contents(tables, current);
      CoversUnion(imm, imm, c, Elements(m.run));
      CoversUnion(imm, imm, c, m.deeper);
      CoversUnion(m.newer, imm, Elements(m.run), Elements(m.run));
      CoversUnion(m.newer, imm, m.deeper, m.deeper);
      DistinctWithin(h, m.newer + imm + Elements(m.run) + m.deeper);
    }
  }

  lemma SinkFiles(st: State)
    requires Inv(st) && st.job.Committing? && st.job.flush && st.job.written
    ensures var st' := Committed(st, true);
            && FilesOk(st.tables, st'.current, st.disk.files, st.extra, st.nextFile, st'.logNumber, NoJob, st'.merge)
            && DiskOk(st.tables, st'.current, st.extra, st.disk, NoJob, st'.merge, st'.logNumber, st.logfile, None, {},
                      st.nextFile, st.bgError)
            && Current(st') == Current(st) + Imm(st)
            && SequenceOk(st.hist, st.logs, st.disk, NoJob, st.lastSeq)
  {
    hide WritesOk, MemOk, LayersOk, GroupsOk, StampsOk, SnapsOk, LogsOk, ReadersOk, MergeOk, Contents, LogContents;
    var st' := Committed(st, true);
    var add := st.job.edit.add;
    assert st'.current == st.current + add;
    ContentsUnion(st.tables, st.current, add);
    ContentsUnion(st.tables, st.current - Inputs(st.merge), add);
    assert st'.current - Inputs(st'.merge) == (st.current - Inputs(st.merge)) + add;
  }

  lemma LogsSink(logs: map<nat, Entries>, mems: map<nat, Entries>, logfile: nat, imm: Option<nat>,
                 logNumber: nat, nextFile: nat, settled: Entries, inLog: Entries)
    requires LogsOk(logs, mems, logfile, imm, logNumber, nextFile, settled, inLog)
    ensures LogsOk(logs, mems, logfile, None, logfile, nextFile, settled, inLog)
  {
    LogInFull(logs, logfile, logfile);
  }

  /** What a flush commit is about. */
  lemma FlushEdit(st: State)
    requires Inv(st) && st.job.Committing? && st.job.flush
    ensures var e := st.job.edit;
            && Inputs(st.merge) <= st.current && e.add !! st.current && e.remove == {} && e.logNumber == st.logfile
            && st.imm.Some? && Contents(st.tables, e.add) == Imm(st)
            && Covers(Imm(st), Current(st)) && Current(st) + Imm(st) <= Elements(st.hist) && Distinct(Elements(st.hist))
  {
    hide MemOk, SnapsOk, LogsOk, ReadersOk, MergeOk, SequenceOk, GroupsOk, StampsOk, ReadAlike, Covers, Contents;
    PendAbove(st.hist, st.pend);
    NewerCovers(Imm(st), Below(Elements(st.hist), Settled(st), Imm(st)), Current(st));
  }

  lemma GroupsSink(groups: seq<seq<Entry>>, logged: seq<Entry>, unread: Entries, h: Entries, settled: Entries, imm: Entries)
    requires GroupsOk(groups, logged, unread, h, settled, imm)
    ensures GroupsOk(groups, logged, unread, h, settled, {})
  {
    forall g | g in groups ensures Undivided(g, {}) {
    }
  }

  lemma StampsSink(tables: map<nat, Entries>, extra: set<nat>, disk: Disk, job: Job, imm: Entries, lastSeq: nat)
    requires StampsOk(tables, extra, disk, job, imm, lastSeq)
    ensures StampsOk(tables, extra, disk, NoJob, {}, lastSeq)
  {
    hide Contents;
  }

  lemma FlushCommitKeeps(st: State)
    requires Inv(st) && Enabled(st, Commit(true)) && st.job.flush
    ensures Inv(Committed(st, true))
  {
    hide WritesOk, MemOk, SnapsOk, LogsOk, LayersOk, GroupsOk, StampsOk, DiskOk, ReadersOk, MergeOk, FilesOk;
    hide SequenceOk;
    hide Contents, Covers, Distinct;
    var st' := Committed(st, true);
    var h, floor := Elements(st.hist), Floor(st.snaps, st.lastSeq);
    SinkFiles(st);
    FlushEdit(st);
    assert st'.current == st.current + st.job.edit.add;
    assert Settled(st') == Settled(st) && Imm(st') == {};
    LayersSink(h, Settled(st), Imm(st), Current(st), floor);
    MergeSinks(st.tables, st.current, st.merge, st.job, floor, st.job.edit.add, Imm(st), h);
    GroupsSink(st.groups, LoggedGroup(st.phase, st.pend), st.unread, h, Settled(st), Imm(st));
    StampsSink(st.tables, st.extra, st.disk, st.job, Imm(st), st.lastSeq);
    ReadersJob(h, Elements(st.pend), st.mems, st.tables, st.job, NoJob, st.readers);
    LogsSink(st.logs, st.mems, st.logfile, st.imm, st.logNumber, st.nextFile, Settled(st), InLog(st.phase, st.pend));
  }

  lemma FailsWriting(hist: seq<Entry>, groups: seq<seq<Entry>>, lastSeq: nat, phase: Phase, pend: seq<Entry>, bgError: bool)
    requires WritesOk(hist, groups, lastSeq, phase, pend, bgError)
    ensures WritesOk(hist, groups, lastSeq, phase, pend, true)
  {
    hide Flatten, Increasing;
  }

  lemma FlushFailFiles(st: State)
    requires Inv(st) && Enabled(st, Commit(false)) && st.job.flush
    ensures var st' := Committed(st, false);
            && FilesOk(st.tables, st.current, st.disk.files, st'.extra, st.nextFile, st.logNumber, NoJob, st.merge)
            && DiskOk(st.tables, st.current, st'.extra, st.disk, NoJob, st.merge, st.logNumber, st.logfile, st.imm, Imm(st),
                      st.nextFile, true)
            && SequenceOk(st.hist, st.logs, st.disk, NoJob, st.lastSeq)
            && st'.extra + Flushed(NoJob) == st.extra + Flushed(st.job)
  {
    hide WritesOk, MemOk, LayersOk, GroupsOk, StampsOk, SnapsOk, LogsOk, ReadersOk, MergeOk, Contents, LogContents;
    var st' := Committed(st, false);
    ContentsUnion(st.tables, st.extra, st.job.edit.add);
    assert st'.extra + Flushed(NoJob) == st.extra + Flushed(st.job);
  }

  lemma FlushCommitFailKeeps(st: State)
    requires Inv(st) && Enabled(st, Commit(false)) && st.job.flush
    ensures Inv(Committed(st, false))
  {
    hide WritesOk, MemOk, LogsOk, LayersOk, GroupsOk, StampsOk, FilesOk, DiskOk, SequenceOk, MergeOk, SnapsOk;
    hide ReadersOk, Contents, LogContents;
    var st' := Committed(st, false);
    FailsWriting(st.hist, st.groups, st.lastSeq, st.phase, st.pend, st.bgError);
    FlushFailFiles(st);
    StampsJob(st.tables, st.extra, st'.extra, st.disk, st.job, NoJob, Imm(st), st.lastSeq);
    ReadersJob(Elements(st.hist), Elements(st.pend), st.mems, st.tables, st.job, NoJob, st.readers);
    MergeJob(st.tables, st.current, st.merge, st.job, NoJob, Floor(st.snaps, st.lastSeq));
  }

  /** Installing a compaction: every sequence a reader may still ask for reads as before. */
  lemma MergedReads(h: Entries, tables: map<nat, Entries>, current: set<nat>, merge: Option<Merge>, job: Job, floor: nat)
    requires merge.Some? && ((job.Committing? && !job.flush) || job.Stuck?)
    requires MergeOk(tables, current, merge, job, floor) && Inputs(merge) <= current
    requires ReadAlike(Contents(tables, current), h, floor)
    ensures ReadAlike(Contents(tables, current - Inputs(merge) + Outputs(merge)), h, floor)
    ensures Contents(tables, current - Inputs(merge) + Outputs(merge)) <= Contents(tables, current)
  {
    hide Contents, Covers, Distinct, Sorted, Kept, Answer, Placed;
    var m, c := merge.value, Contents(tables, current);
    var kept := Elements(Kept(m.run, m.floor, m.isBase, |m.run|));
    var rest := current - m.inputs;
    var c' := Contents(tables, rest + m.outs);
    assert current == rest + m.inputs;
    ContentsUnion(tables, rest, m.inputs);
    ContentsUnion(tables, rest, m.outs);
    KeptWithin(m.run, m.floor, m.isBase);
    assert m.newer + Elements(m.run) + m.deeper == c && m.newer + kept + m.deeper == c';
    forall k, s | s >= floor ensures Answer(c', k, s) == Answer(h, k, s) {
      CompactionPreservesReads(m.newer, m.run, m.deeper, m.isBase, m.floor, k, s);
    }
  }

  /** The tables a written compaction edit makes of the current version stand in its place. */
  lemma MergedLayers(h: Entries, settled: Entries, imm: Entries, tables: map<nat, Entries>, current: set<nat>,
                     merge: Option<Merge>, job: Job, floor: nat)
    requires merge.Some? && ((job.Committing? && !job.flush) || job.Stuck?)
    requires MergeOk(tables, current, merge, job, floor) && Inputs(merge) <= current
    requires LayersOk(h, settled, imm, Contents(tables, current), floor)
    ensures LayersOk(h, settled, imm, Contents(tables, current - Inputs(merge) + Outputs(merge)), floor)
    ensures Contents(tables, current - Inputs(merge) + Outputs(merge)) <= Contents(tables, current)
  {
    hide Contents, MergeOk, Above, ReadAlike;
    MergedReads(Below(h, settled, imm), tables, current, merge, job, floor);
  }

  lemma MergedFiles(st: State)
    requires Inv(st) && st.job.Committing? && !st.job.flush && st.job.written
    ensures var st' := Committed(st, true);
            && FilesOk(st.tables, st'.current, st.disk.files, st.extra, st.nextFile, st'.logNumber, NoJob, None)
            && DiskOk(st.tables, st'.current, st.extra, st.disk, NoJob, None, st'.logNumber, st.logfile, st.imm, Imm(st),
                      st.nextFile, st.bgError)
            && SequenceOk(st.hist, st.logs, st.disk, NoJob, st.lastSeq)
            && st'.current == st.current - Inputs(st.merge) + Outputs(st.merge) && st'.logNumber == st.logNumber
            && st.merge.Some? && Inputs(st.merge) <= st.current
  {
    hide WritesOk, MemOk, LayersOk, GroupsOk, StampsOk, SnapsOk, LogsOk, ReadersOk, MergeOk, Contents, LogContents;
    var st' := Committed(st, true);
    ContentsUnion(st.tables, st.current - Inputs(st.merge), Outputs(st.merge));
    assert st'.current - {} == st'.current;
  }

  lemma MergeCommitKeeps(st: State)
    requires Inv(st) && Enabled(st, Commit(true)) && !st.job.flush
    ensures Inv(Committed(st, true))
  {
    hide WritesOk, MemOk, SnapsOk, LogsOk, LayersOk, GroupsOk, StampsOk, DiskOk, ReadersOk, FilesOk, SequenceOk;
    hide Contents, Distinct;
    var st' := Committed(st, true);
    var h, floor := Elements(st.hist), Floor(st.snaps, st.lastSeq);
    MergedFiles(st);
    HistoryDistinct(st);
    MergedLayers(h, Settled(st), Imm(st), st.tables, st.current, st.merge, st.job, floor);
    StampsJob(st.tables, st.extra, st.extra, st.disk, st.job, NoJob, Imm(st), st.lastSeq);
    ReadersJob(h, Elements(st.pend), st.mems, st.tables, st.job, NoJob, st.readers);
  }

  lemma HistoryDistinct(st: State)
    requires Inv(st)
    ensures Distinct(Elements(st.hist)) && Distinct(Elements(st.hist) + Elements(st.pend))
    ensures Above(Elements(st.pend), Elements(st.hist))
  {
    hide MemOk, SnapsOk, LogsOk, LayersOk, GroupsOk, StampsOk, DiskOk, ReadersOk, FilesOk, SequenceOk, MergeOk;
    PendAbove(st.hist, st.pend);
  }

  lemma MergeCommitFailKeeps(st: State)
    requires Inv(st) && Enabled(st, Commit(false)) && !st.job.flush
    ensures Inv(Committed(st, false))
  {
    hide WritesOk, MemOk, LayersOk, GroupsOk, StampsOk, SnapsOk, LogsOk, ReadersOk, MergeOk, Contents, LogContents;
    var st' := Committed(st, false);
    FailsWriting(st.hist, st.groups, st.lastSeq, st.phase, st.pend, st.bgError);
    StampsJob(st.tables, st.extra, st.extra, st.disk, st.job, st'.job, Imm(st), st.lastSeq);
    ReadersJob(Elements(st.hist), Elements(st.pend), st.mems, st.tables, st.job, st'.job, st.readers);
    SameMergeJob(st.tables, st.current, st.merge, st.job, st'.job, Floor(st.snaps, st.lastSeq));
  }

  // ---- compactions ----

  lemma MergeStartKeeps(st: State, inputs: set<nat>, run: seq<Entry>, isBase: Bytes -> bool, newer: Entries, deeper: Entries)
    requires Inv(st) && Enabled(st, MergeStart(inputs, run, isBase, newer, deeper))
    ensures Inv(Next(st, MergeStart(inputs, run, isBase, newer, deeper)))
  {
    hide WritesOk, MemOk, LayersOk, GroupsOk, StampsOk, SnapsOk, LogsOk, ReadersOk, SequenceOk, LogContents, Placed;
    hide Sorted, Kept;
    assert Contents(st.tables, {}) == {};
    hide Contents;
  }

  lemma MergeOutputKeeps(st: State, content: Entries)
    requires Inv(st) && Enabled(st, MergeOutput(content))
    ensures Inv(MergeOutputAdded(st, content))
  {
    hide WritesOk, MemOk, LayersOk, GroupsOk, StampsOk, SnapsOk, LogsOk, ReadersOk, SequenceOk, MergeOk, DiskOk;
    hide Contents, LogContents;
    var st' := MergeOutputAdded(st, content);
    assert st.nextFile !in st.tables;
    TablesFrame(st, st'.tables);
    MoreOutput(st, st'.tables, st'.merge.value.outs);
    LogsLater(st);
  }

  lemma LogsLater(st: State)
    requires LogsOk(st.logs, st.mems, st.logfile, st.imm, st.logNumber, st.nextFile, Settled(st), InLog(st.phase, st.pend))
    ensures LogsOk(st.logs, st.mems, st.logfile, st.imm, st.logNumber, st.nextFile + 1, Settled(st), InLog(st.phase, st.pend))
  {
    hide LogContents;
  }

  lemma MoreOutput(st: State, tables: map<nat, Entries>, outs: set<nat>)
    requires st.merge.Some? && st.job.NoJob?
    requires MergeOk(tables, st.current, st.merge, st.job, Floor(st.snaps, st.lastSeq))
    requires DiskOk(tables, st.current, st.extra, st.disk, st.job, st.merge, st.logNumber, st.logfile, st.imm, Imm(st),
                    st.nextFile, st.bgError)
    ensures MergeOk(tables, st.current, Some(st.merge.value.(outs := outs)), st.job, Floor(st.snaps, st.lastSeq))
    ensures DiskOk(tables, st.current, st.extra, st.disk, st.job, Some(st.merge.value.(outs := outs)),
                   st.logNumber, st.logfile, st.imm, Imm(st), st.nextFile + 1, st.bgError)
  {
    hide Contents, Placed, Sorted, Kept;
  }

  lemma MergeDoneKeeps(st: State)
    requires Inv(st) && Enabled(st, MergeCommit)
    ensures Inv(Next(st, MergeCommit))
  {
    hide MemOk, LayersOk, GroupsOk, StampsOk, SnapsOk, LogsOk, ReadersOk, Contents, LogContents, Placed, Sorted, Kept;
    hide Flatten, Increasing;
    var st' := Next(st, MergeCommit);
    StampsEdit(st.tables, st.extra, st.disk, st.job, st'.job, Imm(st), st.lastSeq);
    ReadersJob(Elements(st.hist), Elements(st.pend), st.mems, st.tables, st.job, st'.job, st.readers);
  }

  lemma MergeFailFiles(st: State)
    requires Inv(st) && Enabled(st, MergeFail)
    ensures FilesOk(st.tables, st.current, st.disk.files, st.extra, st.nextFile, st.logNumber, st.job, None)
    ensures DiskOk(st.tables, st.current, st.extra, st.disk, st.job, None, st.logNumber, st.logfile, st.imm, Imm(st),
                   st.nextFile, true)
  {
    hide WritesOk, MemOk, LayersOk, GroupsOk, StampsOk, SnapsOk, LogsOk, ReadersOk, SequenceOk, MergeOk, Contents, LogContents;
    var rest := st.current - Inputs(st.merge);
    assert st.current == rest + Inputs(st.merge);
    ContentsUnion(st.tables, rest, Inputs(st.merge));
    assert st.current - {} == st.current;
  }

  lemma MergeFailKeeps(st: State)
    requires Inv(st) && Enabled(st, MergeFail)
    ensures Inv(Next(st, MergeFail))
  {
    hide WritesOk, MemOk, LayersOk, GroupsOk, StampsOk, FilesOk, DiskOk, SnapsOk, LogsOk, ReadersOk, SequenceOk;
    hide Contents, LogContents, Kept, Placed, Sorted;
    FailsWriting(st.hist, st.groups, st.lastSeq, st.phase, st.pend, st.bgError);
    MergeFailFiles(st);
  }

  // ---- removing obsolete files ----

  lemma RemoveStartKeeps(st: State)
    requires Inv(st) && Enabled(st, RemoveStart)
    ensures Inv(Doomed(st))
  {
    hide WritesOk, MemOk, LayersOk, GroupsOk, StampsOk, SnapsOk, LogsOk, ReadersOk, MergeOk, Contents, LogContents;
    var st' := Doomed(st);
    assert st.disk.files == st.current;
    forall id | id in st.readers ensures st'.job.tables !! st.readers[id].version {
      assert forall n :: n in st.readers[id].version ==> InUse(st, n);
    }
    StampsJob(st.tables, st.extra, st.extra, st.disk, st.job, st'.job, Imm(st), st.lastSeq);
    ReadersJob(Elements(st.hist), Elements(st.pend), st.mems, st.tables, st.job, st'.job, st.readers);
    MergeJob(st.tables, st.current, st.merge, st.job, st'.job, Floor(st.snaps, st.lastSeq));
  }

  lemma RemoveTableKeeps(st: State, n: nat)
    requires Inv(st) && Enabled(st, RemoveTable(n))
    ensures Inv(Next(st, RemoveTable(n)))
  {
    hide WritesOk, MemOk, LayersOk, GroupsOk, StampsOk, SnapsOk, LogsOk, ReaderOk, SequenceOk, MergeOk, DiskOk;
    hide Contents, LogContents;
    hide ReadersOk;
    assert !Referenced(st, n) by { DoomedUnused(st, n); }
    TablesFrame(st, st.tables - {n});
  }

  lemma DoomedUnused(st: State, n: nat)
    requires Inv(st) && st.job.Removing? && n in st.job.tables
    ensures !Referenced(st, n)
  {
    hide WritesOk, MemOk, LayersOk, GroupsOk, StampsOk, SnapsOk, LogsOk, ReaderOk, SequenceOk, MergeOk, DiskOk;
    hide Contents, LogContents;
  }

  lemma LogGone(logs: map<nat, Entries>, n: nat, from: nat)
    requires n < from
    ensures LogContents(logs - {n}, from) == LogContents(logs, from)
  {
    forall e | e in LogContents(logs, from) ensures e in LogContents(logs - {n}, from) {
      var m :| m in logs && m >= from && e in logs[m];
      assert m in logs - {n} && e in (logs - {n})[m];
    }
  }

  lemma RemoveLogKeeps(st: State, n: nat)
    requires Inv(st) && Enabled(st, RemoveLog(n))
    ensures Inv(Next(st, RemoveLog(n)))
  {
    hide WritesOk, MemOk, LayersOk, GroupsOk, StampsOk, SnapsOk, ReadersOk, SequenceOk, MergeOk, Contents, LogContents;
    LogGone(st.logs - {st.logfile}, n, st.logNumber);
    assert st.logs - {n} - {st.logfile} == st.logs - {st.logfile} - {n};
    LogGone(st.logs, n, st.disk.logNumber);
    SequencesStay(st.hist, st.logs, st.logs - {n}, st.disk, st.job, st.lastSeq);
  }

  lemma RemoveDoneKeeps(st: State)
    requires Inv(st) && Enabled(st, RemoveDone)
    ensures Inv(Next(st, RemoveDone))
  {
    hide WritesOk, MemOk, LayersOk, GroupsOk, StampsOk, SnapsOk, LogsOk, ReadersOk, MergeOk, Contents, LogContents;
    StampsJob(st.tables, st.extra, st.extra, st.disk, st.job, NoJob, Imm(st), st.lastSeq);
    ReadersJob(Elements(st.hist), Elements(st.pend), st.mems, st.tables, st.job, NoJob, st.readers);
    MergeJob(st.tables, st.current, st.merge, st.job, NoJob, Floor(st.snaps, st.lastSeq));
  }

  // ---- snapshots and gets ----

  lemma {:induction false} GroupInHistory(groups: seq<seq<Entry>>, g: seq<Entry>, e: Entry)
    requires g in groups && e in g
    ensures e in Flatten(groups)
  {
    var front := groups[..|groups| - 1];
    assert groups == front + [groups[|groups| - 1]];
    if g in front {
      GroupInHistory(front, g, e);
    }
  }

  lemma LastIsWhole(st: State)
    requires Inv(st)
    ensures forall g :: g in st.groups ==> Whole(g, st.lastSeq)
  {
    hide MemOk, SnapsOk, LogsOk, LayersOk, GroupsOk, StampsOk, DiskOk, ReadersOk, FilesOk, SequenceOk, MergeOk, Flatten;
    forall g, e | g in st.groups && e in g ensures e.seqno <= st.lastSeq {
      GroupInHistory(st.groups, g, e);
    }
  }

  lemma SnapshotKeeps(st: State)
    requires Inv(st) && Enabled(st, TakeSnapshot)
    ensures Inv(Next(st, TakeSnapshot))
  {
    hide WritesOk, MemOk, LogsOk, LayersOk, GroupsOk, StampsOk, DiskOk, ReadersOk, FilesOk, SequenceOk, MergeOk, Whole;
    LastIsWhole(st);
  }

  lemma ReleaseKeeps(st: State, index: nat)
    requires Inv(st) && Enabled(st, ReleaseSnapshot(index))
    ensures Inv(Next(st, ReleaseSnapshot(index)))
  {
    hide WritesOk, MemOk, LogsOk, DiskOk, ReadersOk, FilesOk, SequenceOk, Whole, Answer, Covers, Contents, Placed;
    var st' := Next(st, ReleaseSnapshot(index));
    assert Floor(st.snaps, st.lastSeq) <= Floor(st'.snaps, st.lastSeq);
    HigherFloor(Elements(st.hist), Settled(st), Imm(st), Current(st), st.tables, st.current, st.merge, st.job,
                Floor(st.snaps, st.lastSeq), Floor(st'.snaps, st.lastSeq));
    hide LayersOk, GroupsOk, StampsOk, MergeOk;
  }

  lemma HigherFloor(h: Entries, m: Entries, i: Entries, c: Entries, tables: map<nat, Entries>, current: set<nat>,
                    merge: Option<Merge>, job: Job, floor: nat, higher: nat)
    requires floor <= higher && LayersOk(h, m, i, c, floor) && MergeOk(tables, current, merge, job, floor)
    ensures LayersOk(h, m, i, c, higher) && MergeOk(tables, current, merge, job, higher)
  {
    hide Answer, Covers, Contents, Placed, Kept, Sorted;
  }

  /** A get that captures the current state at a sequence no older than the floor. */
  lemma CapturedReads(h: Entries, settled: Entries, mem: Entries, pend: Entries, imm: Entries, files: Entries,
                      floor: nat, k: Bytes, s: nat)
    requires Layered(h, settled, imm, files, floor) && Distinct(h + pend) && Above(pend, h)
    requires settled <= mem <= settled + pend && floor <= s
    requires mem == settled || forall e :: e in pend ==> e.seqno > s
    ensures Answer(mem + imm + files, k, s) == Answer(h, k, s)
    ensures Covers(mem, imm) && Covers(mem, files)
  {
    hide Answer;
    if mem != settled {
      LaterUnseen(settled, imm, files, pend, h, k, s);
      var part := mem - settled;
      assert part <= pend && settled + part == mem;
    }
  }

  lemma MemIs(st: State)
    requires Inv(st)
    ensures Settled(st) <= Mem(st) <= Settled(st) + Elements(st.pend)
    ensures st.logfile in st.mems && st.mems[st.logfile] == Mem(st)
    ensures Mem(st) == Settled(st) || forall e :: e in st.pend ==> e.seqno > st.lastSeq
    ensures st.imm.Some? ==> st.imm.value in st.mems && st.imm.value < st.logfile
  {
    hide SnapsOk, LayersOk, GroupsOk, StampsOk, DiskOk, ReadersOk, FilesOk, SequenceOk, MergeOk, Flatten, Increasing;
    hide LogContents;
    if !st.phase.Inserting? {
      NoneInserted(Mem(st), st.pend);
    }
  }

  lemma NoneInserted(mem: Entries, pend: seq<Entry>)
    requires mem * Elements(pend) == Elements(pend[..0])
    ensures mem - Elements(pend) == mem
  {
    ElementsOf([], []);
    assert pend[..0] == [];
    NothingTaken(mem, Elements(pend));
  }

  lemma NewReader(st: State, id: nat, key: Bytes, snap: Option<nat>)
    requires Inv(st) && Enabled(st, Get(id, key, snap))
    ensures var st' := Captured(st, id, key, snap);
            var r := st'.readers[id];
            && Floor(st.snaps, st.lastSeq) <= r.seqno <= st.lastSeq
            && (forall g :: g in st.groups ==> Whole(g, r.seqno))
  {
    hide WritesOk, MemOk, LogsOk, LayersOk, GroupsOk, StampsOk, DiskOk, ReadersOk, FilesOk, SequenceOk, MergeOk, Whole;
    LastIsWhole(st);
  }

  lemma NewReaderReads(st: State, key: Bytes, s: nat)
    requires Inv(st) && Floor(st.snaps, st.lastSeq) <= s <= st.lastSeq
    ensures ReaderOk(Elements(st.hist), Elements(st.pend), Mem(st), Imm(st), Current(st),
                     Reader(key, s, st.logfile, st.imm, st.current, Start))
  {
    hide WritesOk, MemOk, LogsOk, SnapsOk, DiskOk, ReadersOk, FilesOk, SequenceOk, MergeOk, Answer, Covers;
    MemIs(st);
    HistoryDistinct(st);
    LayersRead(Elements(st.hist), Settled(st), Imm(st), Current(st), Floor(st.snaps, st.lastSeq));
    CapturedReads(Elements(st.hist), Settled(st), Mem(st), Elements(st.pend), Imm(st), Current(st),
                  Floor(st.snaps, st.lastSeq), key, s);
  }

  lemma FilesFacts(st: State)
    requires Inv(st)
    ensures st.current <= st.tables.Keys && (st.job.Removing? ==> st.job.tables !! st.current)
  {
    hide WritesOk, MemOk, LogsOk, SnapsOk, DiskOk, ReadersOk, LayersOk, GroupsOk, StampsOk, SequenceOk, MergeOk;
  }

  lemma GetKeeps(st: State, id: nat, key: Bytes, snap: Option<nat>)
    requires Inv(st) && Enabled(st, Get(id, key, snap))
    ensures Inv(Captured(st, id, key, snap))
  {
    hide WritesOk, MemOk, LogsOk, LayersOk, GroupsOk, StampsOk, DiskOk, ReaderOk, FilesOk, SequenceOk, MergeOk, Whole;
    hide Contents;
    var st' := Captured(st, id, key, snap);
    NewReader(st, id, key, snap);
    NewReaderReads(st, key, st'.readers[id].seqno);
    MemIs(st);
    FilesFacts(st);
  }

  /** Looking in a memtable, then in the older one, then in the tables, finds what the history says. */
  lemma LookDecides(h: Entries, p: Entries, mem: Entries, imm: Entries, files: Entries, r: Reader, from: Entries, missed: Stage)
    requires ReaderOk(h, p, mem, imm, files, r) && Distinct(h + p)
    requires || (r.stage.Start? && from == mem && missed == MissedMem)
             || (r.stage.MissedMem? && from == imm && missed == MissedImm)
             || (r.stage.MissedImm? && from == files && missed == Done(None))
    ensures var stage := if exists e :: Seen(from, r.key, r.seqno, e) then Done(Answer(from, r.key, r.seqno)) else missed;
            ReaderOk(h, p, mem, imm, files, r.(stage := stage))
  {
    hide Answer;
    DistinctWithin(h + p, mem + imm + files);
    DistinctWithin(h + p, imm + files);
    CoversBoth(mem, imm, files);
    assert mem + imm + files == mem + (imm + files);
    LayeredLookup(mem, imm + files, r.key, r.seqno);
    LayeredLookup(imm, files, r.key, r.seqno);
    if forall e :: !Seen(files, r.key, r.seqno, e) {
      AnswerNothing(files, r.key, r.seqno);
    }
  }

  lemma LookKeeps(st: State, id: nat, from: Entries, missed: Stage)
    requires Inv(st) && id in st.readers
    requires var r := st.readers[id];
             || (r.stage.Start? && from == MemAt(st, r.mem) && missed == MissedMem)
             || (r.stage.MissedMem? && from == ImmContents(st.mems, r.imm) && missed == MissedImm)
             || (r.stage.MissedImm? && from == Contents(st.tables, r.version) && missed == Done(None))
    ensures Inv(Looked(st, id, from, missed))
  {
    hide WritesOk, MemOk, LogsOk, LayersOk, GroupsOk, StampsOk, DiskOk, ReaderOk, FilesOk, SequenceOk, MergeOk, Whole;
    hide Contents, Answer, Distinct;
    var r := st.readers[id];
    HistoryDistinct(st);
    LookDecides(Elements(st.hist), Elements(st.pend), st.mems[r.mem], ImmContents(st.mems, r.imm),
                Contents(st.tables, r.version), r, from, missed);
  }

  lemma EndReadKeeps(st: State, id: nat)
    requires Inv(st) && Enabled(st, EndRead(id))
    ensures Inv(Next(st, EndRead(id)))
  {
    hide WritesOk, MemOk, LogsOk, LayersOk, GroupsOk, StampsOk, DiskOk, ReaderOk, FilesOk, SequenceOk, MergeOk, Whole;
    hide Contents;
  }
}
