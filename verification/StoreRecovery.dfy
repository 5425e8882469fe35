/** Crash recovery and the theorems about whole runs. */
module StoreRecovery {
  import opened Bytes
  import opened Mvcc
  import opened Snapshots
  import opened Compaction
  import opened LogTail
  import opened Store
  import opened StoreSafety

  // ---- what is on disk ----

  /** The tables the manifest stands for: the current version, or the one a written compaction edit makes of it. */
  ghost function Standing(st: State): Entries {
    Contents(st.tables, Base(st.current, st.job))
  }

  /** A flush of the immutable memtable is listed in the manifest, or its log is already behind. */
  ghost predicate FlushStands(st: State) {
    st.extra + Flushed(st.job) != {} || st.disk.logNumber != st.logNumber
  }

  lemma ContentsWithin(tables: map<nat, Entries>, a: set<nat>, b: set<nat>)
    requires a <= b
    ensures Contents(tables, a) <= Contents(tables, b)
  {
  }

  lemma NoContents(tables: map<nat, Entries>)
    ensures Contents(tables, {}) == {}
  {
  }

  /** Failed flush commits only repeat what is elsewhere. */
  lemma ExtraRepeats(st: State)
    requires Inv(st)
    ensures Contents(st.tables, st.extra) <= Imm(st) + Standing(st)
    ensures Contents(st.tables, Flushed(st.job)) <= Imm(st)
    ensures st.disk.files == Base(st.current, st.job) + st.extra + Flushed(st.job)
    ensures st.disk.logNumber == st.logNumber
            || (st.disk.logNumber == st.logfile && Imm(st) <= Contents(st.tables, st.extra + Flushed(st.job)))
    ensures st.extra + Flushed(st.job) != {} ==>
              Imm(st) <= Contents(st.tables, st.extra + Flushed(st.job)) && forall e :: e in Imm(st) ==> e.seqno <= st.disk.lastSeq
  {
    hide WritesOk, MemOk, LogsOk, SnapsOk, ReadersOk, LayersOk, GroupsOk, SequenceOk, MergeOk, Contents;
    assert st.current - Inputs(st.merge) <= Base(st.current, st.job) by { BaseKeepsRest(st); }
    ContentsWithin(st.tables, st.current - Inputs(st.merge), Base(st.current, st.job));
    NoContents(st.tables);
  }

  lemma BaseKeepsRest(st: State)
    requires Inv(st)
    ensures st.current - Inputs(st.merge) <= Base(st.current, st.job)
  {
    hide WritesOk, MemOk, LogsOk, SnapsOk, ReadersOk, LayersOk, GroupsOk, StampsOk, SequenceOk, MergeOk, DiskOk;
    hide Contents;
  }

  lemma LogFacts(st: State)
    requires Inv(st)
    ensures st.logfile in st.logs && st.logNumber <= st.logfile < st.nextFile
    ensures forall n :: n in st.logs ==> n <= st.logfile
    ensures st.logs[st.logfile] == Settled(st) + InLog(st.phase, st.pend)
    ensures LogContents(st.logs - {st.logfile}, st.logNumber) == Imm(st)
    ensures LogContents(st.logs - {st.logfile}, st.logfile) == {}
  {
    hide WritesOk, MemOk, DiskOk, SnapsOk, ReadersOk, LayersOk, GroupsOk, StampsOk, SequenceOk, MergeOk, FilesOk;
    hide Contents;
  }

  lemma FoundContents(logs: map<nat, Entries>, unread: Entries, from: nat)
    ensures LogContents(Found(logs, unread), from) == LogContents(logs, from) - unread
  {
    var found := Found(logs, unread);
    forall e | e in LogContents(logs, from) - unread ensures e in LogContents(found, from) {
      var n :| n in logs && n >= from && e in logs[n];
      assert n in found && e in found[n];
    }
    forall e | e in LogContents(found, from) ensures e in LogContents(logs, from) - unread {
      var n :| n in found && n >= from && e in found[n];
      assert n in logs && e in logs[n];
    }
  }

  /** The standing tables read as the current version does. */
  lemma StandingLayers(st: State)
    requires Inv(st)
    ensures LayersOk(Elements(st.hist), Settled(st), Imm(st), Standing(st), Floor(st.snaps, st.lastSeq))
    ensures Standing(st) <= Current(st)
  {
    hide WritesOk, MemOk, LogsOk, SnapsOk, ReadersOk, LayersOk, GroupsOk, StampsOk, SequenceOk, MergeOk, DiskOk;
    hide Contents;
    if Base(st.current, st.job) != st.current {
      MergedLayers(Elements(st.hist), Settled(st), Imm(st), st.tables, st.current, st.merge, st.job,
                   Floor(st.snaps, st.lastSeq));
    }
  }

  /** The operations of the memtables, of the tables, and of the group being written are all different ones. */
  lemma Apart(st: State)
    requires Inv(st)
    ensures var (h, z) := (Elements(st.hist), InLog(st.phase, st.pend));
            && Settled(st) <= h && Imm(st) <= h - Settled(st) && Standing(st) <= Below(h, Settled(st), Imm(st))
            && (forall e :: e in z ==> e !in h)
  {
    hide Inv, Settled, Imm, Standing, Current, LayersOk;
    ImmInHistory(st);
    StandingLayers(st);
    PendApart(st);
  }

  lemma PendApart(st: State)
    requires Inv(st)
    ensures forall e :: e in InLog(st.phase, st.pend) ==> e !in Elements(st.hist)
  {
    hide MemOk, LogsOk, SnapsOk, ReadersOk, LayersOk, GroupsOk, StampsOk, SequenceOk, MergeOk, DiskOk, FilesOk, Flatten;
    PendAbove(st.hist, st.pend);
    Disjoint(Elements(st.hist), Elements(st.pend));
  }

  /** What the manifest's tables hold, and what the logs it names were given. */
  lemma OnDisk(st: State)
    requires Inv(st)
    ensures st.disk.logNumber <= st.logfile
    ensures Contents(st.tables, st.disk.files) == Standing(st) + if FlushStands(st) then Imm(st) else {}
    ensures !FlushStands(st) ==> st.disk.logNumber == st.logNumber
    ensures FlushStands(st) ==> forall e :: e in Imm(st) ==> e.seqno <= st.disk.lastSeq
    ensures var older := LogContents(st.logs - {st.logfile}, st.disk.logNumber);
            && older <= Imm(st) && (!FlushStands(st) ==> older == Imm(st))
            && LogContents(st.logs, st.disk.logNumber) == older + Settled(st) + InLog(st.phase, st.pend)
  {
    hide Inv, Contents, LogContents, Settled, InLog, Imm, Flushed, Base;
    LogFacts(st);
    ExtraRepeats(st);
    Apart(st);
    SplitLogs(st.logs, st.logfile, st.disk.logNumber);
    ContentsUnion(st.tables, Base(st.current, st.job) + st.extra, Flushed(st.job));
    ContentsUnion(st.tables, Base(st.current, st.job), st.extra);
    ContentsUnion(st.tables, st.extra, Flushed(st.job));
    NoContents(st.tables);
  }

  /** What is missing was logged but is not read back, and is in no table. */
  lemma MissingIs(st: State)
    requires Inv(st)
    ensures Missing(st)
         == st.unread * (Settled(st) + InLog(st.phase, st.pend) + if FlushStands(st) then {} else Imm(st))
  {
    hide Inv, Contents, LogContents, Settled, InLog, Imm, Standing, FlushStands;
    OnDisk(st);
    Apart(st);
  }

  /**
   * What an open finds on disk is the memtables' operations, the standing tables and the group in the log, all but
   * the missing ones; without the last log, it is all but the missing ones of the rest.
   */
  lemma DurableIsAll(st: State)
    requires Inv(st)
    ensures Durable(st) == Settled(st) + Imm(st) + Standing(st) + InLog(st.phase, st.pend) - Missing(st)
    ensures Missing(st) <= st.unread && Missing(st) !! Durable(st)
    ensures Contents(st.tables, st.disk.files) + LogContents(Replayed(st, true), st.disk.logNumber)
         == Imm(st) + Standing(st) - Missing(st)
  {
    hide Inv, Contents, LogContents, Settled, InLog, Imm, Standing, FlushStands, Missing;
    OnDisk(st);
    Apart(st);
    MissingIs(st);
    FoundContents(st.logs, st.unread, st.disk.logNumber);
    FoundContents(st.logs - {st.logfile}, st.unread, st.disk.logNumber);
  }

  /** Once a sequence is past every entry, it reads like any later one. */
  lemma PastAll(a: Entries, k: Bytes, s: nat, t: nat)
    requires Distinct(a) && forall e :: e in a ==> e.seqno <= s && e.seqno <= t
    ensures Answer(a, k, s) == Answer(a, k, t)
  {
    if e :| Seen(a, k, s, e) {
      var n := NewestExists(a, k, s, e);
      assert Newest(a, k, t, n) by {
        forall f | Seen(a, k, t, f) ensures f.seqno <= n.seqno {
          assert Seen(a, k, s, f);
        }
      }
      AnswerIs(a, k, s, n);
      AnswerIs(a, k, t, n);
    } else {
      forall f ensures !Seen(a, k, t, f) {
        assert !Seen(a, k, s, f);
      }
    }
  }

  lemma AlikeAtTop(a: Entries, b: Entries, floor: nat, top: nat)
    requires ReadAlike(a, b, floor) && a <= b && Distinct(b) && forall e :: e in b ==> e.seqno <= top
    ensures ReadAlike(a, b, top)
  {
    forall k, s | s >= top ensures Answer(a, k, s) == Answer(b, k, s) {
      var t := if s < floor then floor else s;
      PastAll(a, k, s, t);
      PastAll(b, k, s, t);
    }
  }

  // ---- what survives ----

  /** The history a reopened database continues from. */
  ghost function Survived(st: State): seq<Entry> {
    Keep(st.hist + LoggedGroup(st.phase, st.pend), Missing(st))
  }

  lemma {:induction false} KeepElements(ops: seq<Entry>, missing: Entries)
    ensures Elements(Keep(ops, missing)) == Elements(ops) - missing
  {
    if ops != [] {
      var front, e := ops[..|ops| - 1], ops[|ops| - 1];
      KeepElements(front, missing);
      assert ops == front + [e];
      ElementsOf(front, [e]);
      ElementsOf(Keep(front, missing), if e in missing then [] else [e]);
      assert Elements([e]) == {e};
    }
  }

  lemma {:induction false} KeepIncreases(ops: seq<Entry>, missing: Entries)
    requires Increasing(ops)
    ensures Increasing(Keep(ops, missing))
  {
    if ops != [] {
      var front, e := ops[..|ops| - 1], ops[|ops| - 1];
      LastElement(ops);
      KeepIncreases(front, missing);
      KeepElements(front, missing);
      IncreasesBy(Keep(front, missing), e, Elements(front));
    }
  }

  lemma IncreasesBy(ops: seq<Entry>, e: Entry, before: Entries)
    requires Increasing(ops) && Elements(ops) <= before && Above({e}, before)
    ensures Increasing(ops + [e]) && ops + [] == ops
  {
    forall i | 0 <= i < |ops| ensures ops[i].seqno < e.seqno {
      assert ops[i] in Elements(ops);
    }
  }

  lemma KeepIs(ops: seq<Entry>, missing: Entries)
    ensures Elements(Keep(ops, missing)) == Elements(ops) - missing
    ensures Increasing(ops) ==> Increasing(Keep(ops, missing))
  {
    KeepElements(ops, missing);
    if Increasing(ops) {
      KeepIncreases(ops, missing);
    }
  }

  lemma {:induction false} KeepAll(ops: seq<Entry>, missing: Entries)
    requires forall e :: e in ops ==> e !in missing
    ensures Keep(ops, missing) == ops
  {
    if ops != [] {
      var front, e := ops[..|ops| - 1], ops[|ops| - 1];
      assert ops == front + [e] && e in ops && forall f :: f in front ==> f in ops;
      KeepAll(front, missing);
    }
  }

  lemma {:induction false} KeepNone(ops: seq<Entry>, missing: Entries)
    requires forall e :: e in ops ==> e in missing
    ensures Keep(ops, missing) == []
  {
    if ops != [] {
      var front, e := ops[..|ops| - 1], ops[|ops| - 1];
      assert ops == front + [e] && e in ops && forall f :: f in front ==> f in ops;
      KeepNone(front, missing);
    }
  }

  lemma {:induction false} KeepAppend(a: seq<Entry>, b: seq<Entry>, missing: Entries)
    ensures Keep(a + b, missing) == Keep(a, missing) + Keep(b, missing)
    decreases |b|
  {
    if b == [] {
      assert a + b == a;
    } else {
      var front := b[..|b| - 1];
      assert (a + b)[..|a + b| - 1] == a + front;
      KeepAppend(a, front, missing);
    }
  }

  /** Dropping operations group by group is dropping them. */
  lemma {:induction false} KeepFlattens(groups: seq<seq<Entry>>, missing: Entries)
    ensures Flatten(KeepEach(groups, missing)) == Keep(Flatten(groups), missing)
  {
    hide Keep;
    if groups == [] {
      assert Keep([], missing) == [] by { KeepAll([], missing); }
    } else {
      var front, g := groups[..|groups| - 1], groups[|groups| - 1];
      KeepFlattens(front, missing);
      FlattenAppend(KeepEach(front, missing), Keep(g, missing));
      KeepAppend(Flatten(front), g, missing);
    }
  }

  lemma {:induction false} KeepEachIs(groups: seq<seq<Entry>>, missing: Entries)
    ensures |KeepEach(groups, missing)| == |groups|
    ensures forall i :: 0 <= i < |groups| ==> KeepEach(groups, missing)[i] == Keep(groups[i], missing)
  {
    hide Keep;
    if groups != [] {
      KeepEachIs(groups[..|groups| - 1], missing);
    }
  }

  lemma SurvivedIs(st: State)
    requires Inv(st)
    ensures Increasing(Survived(st))
    ensures var (h, z) := (Elements(st.hist), InLog(st.phase, st.pend));
            && Elements(Survived(st)) == h + z - Missing(st)
            && Distinct(h + z) && Above(z, h)
  {
    hide MemOk, DiskOk, LogsOk, SnapsOk, ReadersOk, LayersOk, GroupsOk, StampsOk, SequenceOk, MergeOk, FilesOk;
    hide Flatten, Missing;
    PendAbove(st.hist, st.pend);
    var all := st.hist + LoggedGroup(st.phase, st.pend);
    ElementsOf(st.hist, LoggedGroup(st.phase, st.pend));
    assert st.hist + [] == st.hist;
    IncreasingIsDistinct(all);
    KeepIs(all, Missing(st));
  }

  /** The logs an open reads hold everything that survives and that the manifest's last sequence is not past. */
  lemma SurvivorsFound(st: State, e: Entry)
    requires Inv(st) && e in Elements(Survived(st))
    ensures e in LogContents(Found(st.logs, st.unread), st.disk.logNumber) || e.seqno <= st.disk.lastSeq
  {
    hide Inv, Contents, LogContents, Settled, InLog, Imm, Standing, FlushStands, Survived;
    OnDisk(st);
    Apart(st);
    SurvivedIs(st);
    FoundContents(st.logs, st.unread, st.disk.logNumber);
    if e in Elements(st.hist) && e !in LogContents(st.logs, st.disk.logNumber) {
      HistoryStamped(st, e);
    }
  }

  lemma HistoryStamped(st: State, e: Entry)
    requires Inv(st) && e in Elements(st.hist) && e !in LogContents(st.logs, st.disk.logNumber)
    ensures e.seqno <= st.disk.lastSeq
  {
    hide WritesOk, MemOk, DiskOk, LogsOk, SnapsOk, ReadersOk, LayersOk, GroupsOk, StampsOk, MergeOk, FilesOk;
    hide Contents, LogContents;
  }

  lemma SequencesBounded(st: State, top: nat)
    requires Inv(st) && Recovered(top, st.disk.lastSeq, LogContents(Found(st.logs, st.unread), st.disk.logNumber), NewestUsed(st))
    ensures forall e :: e in Elements(Survived(st)) ==> e.seqno <= top
  {
    hide Inv, LogContents, Survived;
    forall e | e in Elements(Survived(st)) ensures e.seqno <= top {
      SurvivorsFound(st, e);
    }
  }

  /** A database in layers, after a crash that takes some unflushed operations with it. */
  lemma SurvivingLayers(h: Entries, settled: Entries, imm: Entries, files: Entries, floor: nat, z: Entries, m: Entries, top: nat)
    requires LayersOk(h, settled, imm, files, floor) && Distinct(h + z) && Above(z, h) && forall e :: e in z ==> e !in h
    requires m <= settled + imm + z && forall e :: e in h + z - m ==> e.seqno <= top
    ensures LayersOk(h + z - m, settled + z - m, {}, files + imm - m, top)
    ensures LayersOk(h + z - m, {}, {}, files + imm + settled + z - m, top)
  {
    hide ReadAlike;
    var below := Below(h, settled, imm);
    var h', s', f' := h + z - m, settled + z - m, files + imm - m;
    AlikeUnder(files, below, imm - m, floor);
    assert files + (imm - m) == f' && below + (imm - m) == Below(h', s', {}) == h' - s';
    AlikeAtTop(f', h' - s', floor, top);
    LayersShift(h', s', f', top);
    LayersSink(h', {}, s', f', top);
    assert f' + s' == files + imm + settled + z - m;
  }

  // ---- reopening ----

  lemma ReopenedTables(tables: map<nat, Entries>, files: set<nat>, parts: map<nat, Entries>)
    requires files <= tables.Keys && files !! parts.Keys
    ensures var tables' := (map n | n in tables && n in files :: tables[n]) + parts;
            && tables'.Keys == files + parts.Keys
            && Contents(tables', files + parts.Keys) == Contents(tables, files) + Contents(parts, parts.Keys)
  {
    var tables' := (map n | n in tables && n in files :: tables[n]) + parts;
    ContentsUnion(tables', files, parts.Keys);
    Frame(tables, tables', files);
    Frame(parts, tables', parts.Keys);
  }

  /** Every edit written to the manifest can be read back. */
  predicate Legible(step: Step) {
    (step.WriteManifest? ==> step.shown) && (step.Recover? && step.manifest.Appended? ==> !step.manifest.torn)
  }

  ghost predicate Opens(st: State, step: Step) {
    Inv(st) && step.Recover? && Enabled(st, step) && Legible(step)
  }

  /** The memtable of the reopened database, and the tables it starts with. */
  lemma ReopenedContents(st: State, step: Step)
    requires Opens(st, step)
    ensures var st' := Next(st, step);
            var all := Standing(st) + Imm(st) + Settled(st) + InLog(st.phase, st.pend) - Missing(st);
            && Settled(st') == Mem(st')
            && Settled(st') == (if step.reuse then Settled(st) + InLog(st.phase, st.pend) - Missing(st) else {})
            && Imm(st') == {}
            && Current(st') == (if step.reuse then Standing(st) + Imm(st) - Missing(st) else all)
            && st'.tables.Keys == st.disk.files + step.parts.Keys
  {
    hide Inv, Contents, LogContents, Settled, InLog, Standing, Missing, Recovered, FlushStands, Imm;
    var st' := Next(st, step);
    ManifestFiles(st);
    ReopenedTables(st.tables, st.disk.files, step.parts);
    LogFacts(st);
    DurableIsAll(st);
    SettledAlone(st');
    NoImm(st');
    MissingOfLast(st);
  }

  lemma NoImm(st: State)
    requires st.imm.None?
    ensures Imm(st) == {}
  {
  }

  /** Of the current log, what is unread is what is missing. */
  lemma MissingOfLast(st: State)
    requires Inv(st)
    ensures Settled(st) + InLog(st.phase, st.pend) - st.unread == Settled(st) + InLog(st.phase, st.pend) - Missing(st)
  {
    hide Inv, Settled, InLog, Imm, Missing, FlushStands;
    MissingIs(st);
  }

  lemma ManifestFiles(st: State)
    requires Inv(st)
    ensures st.disk.files <= st.tables.Keys && forall n :: n in st.disk.files ==> n < st.disk.nextFile
    ensures st.disk.nextFile <= st.nextFile
  {
    hide WritesOk, MemOk, LogsOk, SnapsOk, ReadersOk, LayersOk, GroupsOk, StampsOk, SequenceOk, MergeOk, Contents;
  }

  lemma ReopenedHistory(st: State, step: Step)
    requires Opens(st, step)
    ensures Next(st, step).hist == Survived(st)
    ensures Recovered(step.top, st.disk.lastSeq, LogContents(Found(st.logs, st.unread), st.disk.logNumber), NewestUsed(st))
    ensures Next(st, step).lastSeq == step.top
  {
    hide Inv, Keep, KeepEach, Missing, Contents, LogContents, Recovered;
  }

  lemma ReopenedLayers(st: State, step: Step)
    requires Opens(st, step)
    ensures var st' := Next(st, step);
            LayersOk(Elements(st'.hist), Settled(st'), Imm(st'), Current(st'), step.top)
  {
    hide Inv, Contents, LogContents, InLog, Settled, Imm, Standing, Current, Distinct, Enabled, LayersOk;
    hide Recovered, Survived, Next, Missing, FlushStands;
    var h, z, m := Elements(st.hist), InLog(st.phase, st.pend), Missing(st);
    ReopenedContents(st, step);
    ReopenedHistory(st, step);
    StandingLayers(st);
    SurvivedIs(st);
    SequencesBounded(st, step.top);
    Apart(st);
    MissingIs(st);
    SurvivingLayers(h, Settled(st), Imm(st), Standing(st), Floor(st.snaps, st.lastSeq), z, m, step.top);
  }

  lemma ReopenedGroups(st: State, step: Step)
    requires Opens(st, step)
    ensures var st' := Next(st, step);
            GroupsOk(st'.groups, [], {}, Elements(st'.hist), Settled(st'), Imm(st'))
  {
    hide Inv, Contents, LogContents, InLog, Settled, Imm, Standing, Current, Enabled, LayersOk, Recovered, Missing;
    hide FlushStands, Keep, KeepEach;
    var st' := Next(st, step);
    var m, group := Missing(st), LoggedGroup(st.phase, st.pend);
    var all := st.groups + [group];
    ReopenedContents(st, step);
    KeepEachIs(all, m);
    Apart(st);
    ElementsOf([], []);
    forall g | g in st'.groups ensures Undivided(g, {}) && Undivided(g, Settled(st')) {
      var i :| 0 <= i < |all| && st'.groups[i] == g;
      KeepIs(all[i], m);
      KeptUndivided(st, all[i], g, m);
    }
  }

  lemma KeptUndivided(st: State, group: seq<Entry>, g: seq<Entry>, m: Entries)
    requires Inv(st) && Elements(g) == Elements(group) - m
    requires group in st.groups || group == LoggedGroup(st.phase, st.pend)
    ensures Undivided(g, Settled(st) + InLog(st.phase, st.pend) - m)
  {
    hide Inv, Settled, Imm, Standing;
    Apart(st);
    forall e ensures e in g <==> e in group && e !in m {
      assert e in Elements(g) <==> e in Elements(group) - m;
    }
    if group in st.groups {
      GroupsInHistory(st);
      GroupsFacts(st, group);
      assert forall e :: e in g ==> e !in InLog(st.phase, st.pend);
    }
  }

  lemma GroupsFacts(st: State, g: seq<Entry>)
    requires Inv(st)
    ensures g in st.groups ==> Undivided(g, st.unread) && Undivided(g, Settled(st)) && Undivided(g, Imm(st))
    ensures Undivided(LoggedGroup(st.phase, st.pend), st.unread)
    ensures st.unread <= Elements(st.hist) + InLog(st.phase, st.pend)
  {
    hide WritesOk, MemOk, LogsOk, SnapsOk, ReadersOk, LayersOk, StampsOk, SequenceOk, MergeOk, DiskOk, FilesOk;
  }

  lemma ReopenedLogs(st: State, step: Step)
    requires Opens(st, step)
    ensures var st' := Next(st, step);
            && LogsOk(st'.logs, st'.mems, st'.logfile, None, st'.logNumber, st'.nextFile, Settled(st'), {})
            && LogContents(Found(st.logs, st.unread), st.disk.logNumber) <= LogContents(st'.logs, st.disk.logNumber)
  {
    hide Inv, Contents, LogContents, Settled, InLog, Recovered, Missing, Keep, KeepEach;
    var st' := Next(st, step);
    var found := Found(st.logs, st.unread);
    LogFacts(st);
    OnDisk(st);
    SettledAlone(st');
    NoContents(step.parts);
    assert step.manifest.Untouched? ==> step.parts.Keys == {};
    LogInFull(st'.logs, st'.logfile, st'.logfile);
    NoOlder(st'.logs, st'.logfile);
    if step.reuse {
      assert st'.logs - {st.logfile} == Replayed(st, true);
    } else {
      NewLog(found, step.next, st.disk.logNumber);
      assert st'.logs - {step.next} == found;
    }
  }

  lemma NoOlder(logs: map<nat, Entries>, n: nat)
    requires forall m :: m in logs ==> m <= n
    ensures LogContents(logs - {n}, n) == {}
  {
  }

  lemma ReopenedFiles(st: State, step: Step)
    requires Opens(st, step)
    ensures var st' := Next(st, step);
            && FilesOk(st'.tables, st'.current, st'.disk.files, {}, st'.nextFile, st'.logNumber, NoJob, None)
            && DiskOk(st'.tables, st'.current, {}, st'.disk, NoJob, None, st'.logNumber, st'.logfile, None, {},
                      st'.nextFile, false)
            && StampsOk(st'.tables, {}, st'.disk, NoJob, {}, step.top)
  {
    hide Inv, Contents, LogContents, Keep, KeepEach, Missing;
    var st' := Next(st, step);
    ManifestFiles(st);
    ReopenedTables(st.tables, st.disk.files, step.parts);
    NoContents(st'.tables);
  }

  lemma ReopenedSequences(st: State, step: Step)
    requires Opens(st, step)
    ensures var st' := Next(st, step); SequenceOk(st'.hist, st'.logs, st'.disk, NoJob, step.top)
  {
    hide LogContents, Inv, Contents, Increasing, Recovered, Missing, Keep, KeepEach, Survived;
    var st' := Next(st, step);
    ReopenedHistory(st, step);
    SequencesBounded(st, step.top);
    ReopenedLogs(st, step);
    forall e | e in st'.hist ensures e in LogContents(st'.logs, st'.disk.logNumber) || e.seqno <= st'.disk.lastSeq {
      assert e in Elements(Survived(st));
      SurvivorsFound(st, e);
    }
  }

  lemma ReopenedWrites(st: State, step: Step)
    requires Opens(st, step)
    ensures var st' := Next(st, step); WritesOk(st'.hist, st'.groups, step.top, Idle, [], false)
  {
    hide LogContents, Inv, Contents, Increasing, Recovered, Missing, Keep, KeepEach, Survived, Flatten;
    var st' := Next(st, step);
    var group := LoggedGroup(st.phase, st.pend);
    ReopenedHistory(st, step);
    SequencesBounded(st, step.top);
    SurvivedIs(st);
    assert st'.hist + [] == st'.hist;
    assert forall e :: e in st'.hist ==> e in Elements(Survived(st));
    GroupedHistory(st);
    FlattenGroups(st.groups, group);
    KeepFlattens(st.groups + [group], Missing(st));
  }

  lemma GroupedHistory(st: State)
    requires Inv(st)
    ensures st.hist == Flatten(st.groups)
  {
    hide MemOk, LogsOk, SnapsOk, ReadersOk, LayersOk, GroupsOk, StampsOk, SequenceOk, MergeOk, DiskOk, FilesOk, Flatten;
  }

  /** Opening the database after a crash at any moment re-establishes everything. */
  lemma RecoverKeeps(st: State, step: Step)
    requires Opens(st, step)
    ensures Inv(Next(st, step))
  {
    hide LogContents, DiskOk, LogsOk, GroupsOk, StampsOk, MergeOk, FilesOk, Contents, WritesOk, SequenceOk, ReaderOk;
    hide Enabled, Settled, Imm, Current, ReadAlike, Above, Keep, KeepEach, Missing;
    var st' := Next(st, step);
    ReopenedLayers(st, step);
    ReopenedGroups(st, step);
    ReopenedLogs(st, step);
    ReopenedFiles(st, step);
    ReopenedSequences(st, step);
    ReopenedWrites(st, step);
    ReopenedContents(st, step);
    ElementsOf([], []);
    MergeNone(st'.tables, st'.current, step.top);
    SettledAlone(st');
  }

  lemma MergeNone(tables: map<nat, Entries>, current: set<nat>, floor: nat)
    ensures MergeOk(tables, current, None, NoJob, floor)
  {
  }

  // ---- whole runs ----

  /** A database that was just created and opened for the first time. */
  ghost function Created(): State {
    State([], [], 0, Idle, [], false, 4, map[3 := {}], 3, None, map[3 := {}], {}, Clean, Clean, map[], {}, 3, {},
          Disk({}, 3, 0, 4), NoJob, None, [], map[])
  }

  lemma CreatedOk()
    ensures Inv(Created())
  {
    var st := Created();
    hide SnapsOk;
    ElementsOf([], []);
    assert Settled(st) == {} && Imm(st) == {} && Current(st) == {} && Contents(st.tables, {}) == {};
    assert LogContents(st.logs - {3}, 3) == {};
    assert Below({}, {}, {}) == {};
    NoSnaps();
  }

  lemma NoSnaps()
    ensures SnapsOk([], map[], 0, [])
  {
  }

  /** Every step keeps the invariant. */
  lemma StepKeeps(st: State, step: Step)
    requires Inv(st) && Enabled(st, step) && Legible(step)
    ensures Inv(Next(st, step))
  {
    hide Inv, Enabled;
    match step {
      case BeginGroup(ops) => BeginKeeps(st, ops);
      case Append(outcome) => match outcome {
        case Wrote(shown, after) => LoggedKeeps(st, shown, after);
        case Failed(after) => LogFailKeeps(st, after);
      }
      case SyncFail => SyncFailKeeps(st);
      case Insert => InsertKeeps(st);
      case FinishGroup => FinishKeeps(st);
      case Switch(closed) => SwitchKeeps(st, closed);
      case FlushStart => FlushStartKeeps(st);
      case FlushBuilt(ok) => if ok { FlushBuiltKeeps(st); } else { FlushFailKeeps(st); }
      case WriteManifest(shown, after) => ManifestKeeps(st, after);
      case Commit(ok) => CommitKeeps(st, ok);
      case MergeStart(inputs, run, isBase, newer, deeper) => MergeStartKeeps(st, inputs, run, isBase, newer, deeper);
      case MergeOutput(content) => MergeOutputKeeps(st, content);
      case MergeCommit => MergeDoneKeeps(st);
      case MergeFail => MergeFailKeeps(st);
      case RemoveStart => RemoveStartKeeps(st);
      case RemoveTable(n) => RemoveTableKeeps(st, n);
      case RemoveLog(n) => RemoveLogKeeps(st, n);
      case RemoveDone => RemoveDoneKeeps(st);
      case TakeSnapshot => SnapshotKeeps(st);
      case ReleaseSnapshot(i) => ReleaseKeeps(st, i);
      case Get(id, key, snap) => GetKeeps(st, id, key, snap);
      case ReadMem(id) => ReadKeeps(st, step);
      case ReadImm(id) => ReadKeeps(st, step);
      case ReadTables(id) => ReadKeeps(st, step);
      case EndRead(id) => EndReadKeeps(st, id);
      case Recover(_, _, _, _, _, _, _) => RecoverKeeps(st, step);
    }
  }

  lemma CommitKeeps(st: State, ok: bool)
    requires Inv(st) && Enabled(st, Commit(ok))
    ensures Inv(Committed(st, ok))
  {
    hide Inv;
    if st.job.flush {
      if ok { FlushCommitKeeps(st); } else { FlushCommitFailKeeps(st); }
    } else {
      if ok { MergeCommitKeeps(st); } else { MergeCommitFailKeeps(st); }
    }
  }

  lemma ReadKeeps(st: State, step: Step)
    requires Inv(st) && Enabled(st, step) && (step.ReadMem? || step.ReadImm? || step.ReadTables?)
    ensures Inv(Next(st, step))
  {
    hide Inv;
    var r := st.readers[step.id];
    match step {
      case ReadMem(id) => LookKeeps(st, id, MemAt(st, r.mem), MissedMem);
      case ReadImm(id) => LookKeeps(st, id, ImmContents(st.mems, r.imm), MissedImm);
      case ReadTables(id) => LookKeeps(st, id, Contents(st.tables, r.version), Done(None));
    }
  }

  ghost predicate Runs(st: State, steps: seq<Step>, end: State)
    decreases |steps|
  {
    if steps == [] then st == end else Enabled(st, steps[0]) && Runs(Next(st, steps[0]), steps[1..], end)
  }

  /** Every edit that the run writes to the manifest can be read back. */
  ghost predicate Careful(steps: seq<Step>) {
    forall step :: step in steps ==> Legible(step)
  }

  /** It can whenever the end of the manifest is clean. */
  lemma CleanIsLegible(st: State, shown: bool, after: Tail)
    requires Enabled(st, WriteManifest(shown, after)) && st.manifest.Clean?
    ensures Legible(WriteManifest(shown, after)) && Next(st, WriteManifest(shown, after)).manifest.Clean?
  {
  }

  lemma CarefulSteps(steps: seq<Step>)
    requires Careful(steps) && steps != []
    ensures Legible(steps[0]) && Careful(steps[1..])
  {
    hide Legible;
    assert steps[0] in steps && forall step :: step in steps[1..] ==> step in steps;
  }

  lemma {:induction false} RunKeeps(st: State, steps: seq<Step>, end: State)
    requires Inv(st) && Runs(st, steps, end) && Careful(steps)
    ensures Inv(end)
    decreases |steps|
  {
    if steps != [] {
      hide Inv, Enabled, Next, Legible;
      CarefulSteps(steps);
      StepKeeps(st, steps[0]);
      RunKeeps(Next(st, steps[0]), steps[1..], end);
    }
  }

  lemma HistoryIncreases(st: State)
    requires Inv(st)
    ensures Increasing(st.hist)
  {
    hide MemOk, LogsOk, LayersOk, GroupsOk, StampsOk, FilesOk, DiskOk, SequenceOk, MergeOk, SnapsOk, ReadersOk, Flatten;
    PendAbove(st.hist, st.pend);
  }

  /** A finished get returns what replaying the operations up to its sequence returns. */
  lemma GetIsReplay(st: State, id: nat)
    requires Inv(st) && id in st.readers && st.readers[id].stage.Done?
    ensures var r := st.readers[id];
            && r.stage.result == Find(Replay(st.hist, r.seqno), r.key)
            && r.stage.result == Answer(Elements(st.hist), r.key, r.seqno)
  {
    hide WritesOk, MemOk, LogsOk, LayersOk, GroupsOk, StampsOk, FilesOk, DiskOk, SequenceOk, MergeOk, SnapsOk;
    HistoryIncreases(st);
    ReplayIsAnswer(st.hist, st.readers[id].key, st.readers[id].seqno);
  }

  /** In every run, a finished get returns what replaying the operations of the history up to its sequence returns. */
  lemma GetsReplay(steps: seq<Step>, end: State, id: nat)
    requires Runs(Created(), steps, end) && Careful(steps)
    requires id in end.readers && end.readers[id].stage.Done?
    ensures var r := end.readers[id];
            r.stage.result == Find(Replay(end.hist, r.seqno), r.key)
  {
    hide Runs, Careful, Inv;
    CreatedOk();
    RunKeeps(Created(), steps, end);
    GetIsReplay(end, id);
  }

  /** In every run, no get sees part of a write group: it sees all of it or none of it. */
  lemma GroupsAreAtomic(steps: seq<Step>, end: State, id: nat, g: seq<Entry>)
    requires Runs(Created(), steps, end) && Careful(steps) && id in end.readers && g in end.groups
    ensures Whole(g, end.readers[id].seqno) && end.hist == Flatten(end.groups)
  {
    hide Runs, Careful, MemOk, LogsOk, LayersOk, GroupsOk, StampsOk, FilesOk, DiskOk, SequenceOk, MergeOk, ReadersOk;
    CreatedOk();
    RunKeeps(Created(), steps, end);
  }

  /** A crash takes a write group whole or not at all, the one being written included. */
  lemma GroupsVanishWhole(st: State, step: Step, i: nat)
    requires Opens(st, step) && i <= |st.groups|
    ensures var all := st.groups + [LoggedGroup(st.phase, st.pend)];
            var st' := Next(st, step);
            && |st'.groups| == |all|
            && (st'.groups[i] == all[i] || (st'.groups[i] == [] && forall e :: e in all[i] ==> e in Missing(st)))
  {
    hide Inv, Contents, LogContents, Settled, InLog, Imm, FlushStands, Enabled, Keep, KeepEach, Missing;
    var all := st.groups + [LoggedGroup(st.phase, st.pend)];
    var g, m := all[i], Missing(st);
    KeepEachIs(all, m);
    MissingUndivided(st, g);
    if forall e :: e in g ==> e in m {
      KeepNone(g, m);
    } else {
      KeepAll(g, m);
    }
  }

  lemma MissingUndivided(st: State, g: seq<Entry>)
    requires Inv(st) && (g in st.groups || g == LoggedGroup(st.phase, st.pend))
    ensures Undivided(g, Missing(st))
  {
    hide Inv, Settled, Imm, FlushStands, Missing;
    MissingIs(st);
    GroupsFacts(st, g);
    Apart(st);
    var z := InLog(st.phase, st.pend);
    if g in st.groups {
      GroupsInHistory(st);
      assert forall e :: e in g ==> e !in z;
    } else {
      assert forall e :: e in g ==> e in z;
    }
  }

  // ---- what a crash takes ----

  predicate Writes(step: Step) {
    step.BeginGroup? || step.Append? || step.SyncFail? || step.Insert? || step.FinishGroup? || step.Switch?
  }

  predicate Reads(step: Step) {
    || step.TakeSnapshot? || step.ReleaseSnapshot? || step.Get? || step.ReadMem? || step.ReadImm? || step.ReadTables?
    || step.EndRead?
  }

  predicate Commits(step: Step) {
    step.FlushStart? || step.FlushBuilt? || step.WriteManifest? || step.Commit?
  }

  /** Steps of the background thread and of readers change neither the history nor the last sequence. */
  lemma BackgroundKeepsHistory(st: State, step: Step)
    requires Enabled(st, step) && !Writes(step) && !Reads(step) && !step.Recover?
    ensures var st' := Next(st, step); st'.hist == st.hist && st'.lastSeq == st.lastSeq && st'.unread == st.unread
  {
    if Commits(step) {
      CommitsKeepHistory(st, step);
    } else {
      MergesKeepHistory(st, step);
    }
    hide Next, Enabled;
  }

  predicate SameHistory(st: State, st': State) {
    st'.hist == st.hist && st'.lastSeq == st.lastSeq && st'.unread == st.unread
  }

  lemma BuiltSameHistory(st: State, ok: bool)
    requires st.job.Building?
    ensures SameHistory(st, Built(st, ok))
  {
    hide Imm;
  }

  lemma CommittedSameHistory(st: State, ok: bool)
    requires st.job.Committing?
    ensures SameHistory(st, Committed(st, ok))
  {
    hide MergeBelow, Contents;
  }

  lemma WrittenSameHistory(st: State, shown: bool, after: Tail)
    requires st.job.Committing?
    ensures SameHistory(st, ManifestWritten(st, shown, after))
  {
  }

  lemma CommitsKeepHistory(st: State, step: Step)
    requires Enabled(st, step) && Commits(step)
    ensures var st' := Next(st, step); st'.hist == st.hist && st'.lastSeq == st.lastSeq && st'.unread == st.unread
  {
    hide Begin, Logged, Inserted, Finished, Switched, Captured, Looked, Reopened, MergeOutputAdded, Doomed;
    hide Built, ManifestWritten, Committed;
    hide Contents, LogContents, Recovered, Replayed, Found, Placed, Sorted, Kept, Elements, Imm, Mem, MergeBelow, Floor;
    match step {
      case FlushStart =>
      case FlushBuilt(ok) => BuiltSameHistory(st, ok);
      case WriteManifest(shown, after) => WrittenSameHistory(st, shown, after);
      case Commit(ok) => CommittedSameHistory(st, ok);
    }
  }

  lemma MergesKeepHistory(st: State, step: Step)
    requires Enabled(st, step) && !Commits(step) && !Writes(step) && !Reads(step) && !step.Recover?
    ensures var st' := Next(st, step); st'.hist == st.hist && st'.lastSeq == st.lastSeq && st'.unread == st.unread
  {
    hide Begin, Logged, Inserted, Finished, Switched, Captured, Looked, Reopened, Built, ManifestWritten, Committed;
    hide InUse;
    hide Contents, LogContents, Recovered, Replayed, Found, Placed, Sorted, Kept, Elements, Imm, Mem, Floor;
  }

  lemma ReadersKeepHistory(st: State, step: Step)
    requires Enabled(st, step) && Reads(step)
    ensures var st' := Next(st, step); st'.hist == st.hist && st'.lastSeq == st.lastSeq && st'.unread == st.unread
  {
    hide Begin, Logged, Inserted, Finished, Switched, Built, ManifestWritten, Committed, MergeOutputAdded, Doomed;
    hide Reopened;
    hide Contents, ImmContents, MemAt, LogContents;
    hide Recovered, Replayed, Found, Placed, Sorted, Kept, Elements, Imm, Mem, AfterReopening, ManifestMayBe;
  }

  lemma LoggedHistory(st: State, outcome: Outcome)
    ensures var st' := Logged(st, outcome);
            && st'.hist == st.hist && st.lastSeq <= st'.lastSeq
            && (MayEnd(st.tail, outcome) && st.tail.Clean? ==> st'.unread == st.unread)
  {
    hide LogAt, Elements;
  }

  lemma OtherWritesHistory(st: State, closed: bool, ops: seq<Entry>)
    ensures SameHistory(st, Begin(st, ops)) && SameHistory(st, Switched(st, closed))
    ensures var st' := Finished(st); st'.hist == st.hist + st.pend && st.lastSeq <= st'.lastSeq && st'.unread == st.unread
  {
  }

  lemma InsertedHistory(st: State)
    requires Enabled(st, Insert)
    ensures SameHistory(st, Inserted(st))
  {
    hide Mem;
  }

  lemma WritesGrowHistory(st: State, step: Step)
    requires Enabled(st, step) && Writes(step)
    ensures Next(st, step).hist == (if step.FinishGroup? then st.hist + st.pend else st.hist)
    ensures st.lastSeq <= Next(st, step).lastSeq
    ensures (step.Append? ==> st.tail.Clean?) ==> Next(st, step).unread == st.unread
  {
    hide Captured, Looked, Built, ManifestWritten, Committed, MergeOutputAdded, Doomed, Reopened, Contents;
    hide LogContents, Mem, LogAt;
    hide Begin, Logged, Inserted, Finished, Switched;
    hide Recovered, Replayed, Found, Placed, Sorted, Kept, Elements, Imm, AfterReopening, ManifestMayBe, Consecutive;
    match step {
      case BeginGroup(ops) => OtherWritesHistory(st, false, ops);
      case Append(outcome) => LoggedHistory(st, outcome);
      case SyncFail =>
      case Insert => InsertedHistory(st);
      case FinishGroup => OtherWritesHistory(st, false, []);
      case Switch(closed) => OtherWritesHistory(st, closed, []);
    }
  }

  /** Only a crash takes operations back. */
  lemma HistoryGrows(st: State, step: Step)
    requires Enabled(st, step) && !step.Recover?
    ensures st.hist <= Next(st, step).hist
  {
    hide Enabled, Begin, Logged, Inserted, Finished, Switched, Built, ManifestWritten, Committed, MergeOutputAdded;
    hide Doomed;
    hide Captured, Looked, Contents, LogContents;
    if Writes(step) {
      WritesGrowHistory(st, step);
    } else if Reads(step) {
      ReadersKeepHistory(st, step);
    } else {
      BackgroundKeepsHistory(st, step);
    }
  }

  /** A crash takes exactly the missing operations: of a log that could not be read back, and in no table. */
  lemma CrashTakesMissing(st: State, step: Step, e: Entry)
    requires Opens(st, step) && e in st.hist
    ensures e in Next(st, step).hist <==> e !in Missing(st)
    ensures e in Missing(st) ==> var st' := Next(st, step); e !in Mem(st') && e !in Imm(st') && e !in Current(st')
  {
    hide Inv, Enabled, Next, Contents, LogContents, Settled, InLog, Imm, Standing, Missing, Survived, Mem, Current;
    ReopenedHistory(st, step);
    SurvivedIs(st);
    assert e in Elements(st.hist);
    assert e in Next(st, step).hist <==> e in Elements(Survived(st));
    ReopenedContents(st, step);
  }

  // ---- snapshots over time ----

  /** Operations past a sequence do not show in a replay up to it. */
  lemma {:induction false} ReplayIgnoresLater(log: seq<Entry>, more: seq<Entry>, s: nat)
    requires forall e :: e in more ==> e.seqno > s
    ensures Replay(log + more, s) == Replay(log, s)
    decreases |more|
  {
    if more == [] {
      assert log + more == log;
    } else {
      var front, last := more[..|more| - 1], more[|more| - 1];
      assert last in more && forall e :: e in front ==> e in more;
      assert (log + more)[..|log + more| - 1] == log + front;
      ReplayIgnoresLater(log, front, s);
    }
  }

  /** What succeeds later is numbered after everything so far, as long as the process lives. */
  lemma StepAddsLater(st: State, step: Step)
    requires Inv(st) && Enabled(st, step) && !step.Recover?
    ensures var st' := Next(st, step);
            && st.lastSeq <= st'.lastSeq && (st'.hist == st.hist || st'.hist == st.hist + st.pend)
            && (st'.hist != st.hist ==> forall e :: e in st.pend ==> e.seqno > st.lastSeq)
  {
    if Writes(step) {
      WritesGrowHistory(st, step);
      hide Next;
      if step.FinishGroup? {
        GroupIsLater(st);
      }
    } else if Reads(step) {
      ReadersKeepHistory(st, step);
    } else {
      BackgroundKeepsHistory(st, step);
    }
    hide Next, Inv, Enabled;
  }

  lemma GroupIsLater(st: State)
    requires Inv(st) && st.phase.Inserting?
    ensures forall e :: e in st.pend ==> e.seqno > st.lastSeq
  {
    hide MemOk, LogsOk, LayersOk, GroupsOk, StampsOk, FilesOk, DiskOk, SequenceOk, MergeOk, SnapsOk, ReadersOk;
    hide Flatten, Increasing;
  }

  lemma {:induction false} ReplayIsStable(st: State, steps: seq<Step>, end: State, s: nat)
    requires Inv(st) && Runs(st, steps, end) && Careful(steps)
    requires s <= st.lastSeq && forall step :: step in steps ==> !step.Recover?
    ensures Replay(end.hist, s) == Replay(st.hist, s)
    decreases |steps|
  {
    if steps != [] {
      hide Inv, Enabled, Next, Legible;
      CarefulSteps(steps);
      assert steps[0] in steps && forall step :: step in steps[1..] ==> step in steps;
      var next := Next(st, steps[0]);
      StepKeeps(st, steps[0]);
      StepAddsLater(st, steps[0]);
      if next.hist != st.hist {
        ReplayIgnoresLater(st.hist, st.pend, s);
      }
      ReplayIsStable(next, steps[1..], end, s);
    }
  }

  /**
   * As long as the process lives, a get at a sequence that was reached at some moment, such as a snapshot's, returns
   * what the map of that moment held, whatever is written, flushed or compacted before the get or during it.
   */
  lemma SnapshotIsStable(before: seq<Step>, st: State, steps: seq<Step>, end: State, id: nat)
    requires Runs(Created(), before, st) && Careful(before)
    requires Runs(st, steps, end) && Careful(steps) && forall step :: step in steps ==> !step.Recover?
    requires id in end.readers && end.readers[id].stage.Done? && end.readers[id].seqno <= st.lastSeq
    ensures var r := end.readers[id]; r.stage.result == Find(Replay(st.hist, r.seqno), r.key)
  {
    hide Runs, Careful, Inv;
    CreatedOk();
    RunKeeps(Created(), before, st);
    RunKeeps(st, steps, end);
    ReplayIsStable(st, steps, end, end.readers[id].seqno);
    GetIsReplay(end, id);
  }

  // ---- what a get reads at ----

  /** Neither readers nor snapshots are touched. */
  predicate SameReaders(a: State, b: State) {
    b.readers == a.readers && b.snaps == a.snaps
  }

  lemma OthersSameReaders(st: State, step: Step)
    requires Enabled(st, step) && !Reads(step) && !step.Recover?
    ensures SameReaders(st, Next(st, step))
  {
    if Writes(step) {
      WritesSameReaders(st, step);
    } else if Commits(step) {
      CommitsSameReaders(st, step);
    } else {
      MergesSameReaders(st, step);
    }
    hide *;
  }

  lemma WritesSameReaders(st: State, step: Step)
    requires Enabled(st, step) && Writes(step)
    ensures SameReaders(st, Next(st, step))
  {
    hide Captured, Looked, Built, ManifestWritten, Committed, MergeOutputAdded, Doomed, Reopened, Contents;
    hide LogContents, Mem, LogAt;
  }

  lemma CommitsSameReaders(st: State, step: Step)
    requires Enabled(st, step) && Commits(step)
    ensures SameReaders(st, Next(st, step))
  {
    hide Begin, Logged, Inserted, Finished, Switched, Captured, Looked, Reopened, MergeOutputAdded, Doomed;
    hide Built, ManifestWritten, Committed;
    hide Contents, LogContents, Recovered, Replayed, Found, Placed, Sorted, Kept, Elements, Imm, Mem, MergeBelow, Floor;
    match step {
      case FlushStart =>
      case FlushBuilt(ok) => BuiltSameReaders(st, ok);
      case WriteManifest(shown, after) =>
        WrittenSameReaders(st, shown, after);
      case Commit(ok) => CommittedSameReaders(st, ok);
    }
  }

  lemma BuiltSameReaders(st: State, ok: bool)
    requires st.job.Building?
    ensures SameReaders(st, Built(st, ok))
  {
    hide Imm;
  }

  lemma WrittenSameReaders(st: State, shown: bool, after: Tail)
    requires st.job.Committing?
    ensures SameReaders(st, ManifestWritten(st, shown, after))
  {
  }

  lemma CommittedSameReaders(st: State, ok: bool)
    requires st.job.Committing?
    ensures SameReaders(st, Committed(st, ok))
  {
    hide MergeBelow, Contents;
  }

  lemma MergesSameReaders(st: State, step: Step)
    requires Enabled(st, step) && !Commits(step) && !Writes(step) && !Reads(step) && !step.Recover?
    ensures SameReaders(st, Next(st, step))
  {
    hide Begin, Logged, Inserted, Finished, Switched, Captured, Looked, Reopened, Built, ManifestWritten, Committed;
    hide InUse, Contents, LogContents, Imm, Mem;
  }

  /** The get goes on: it is not ended, and the process lives. */
  ghost predicate Undisturbed(steps: seq<Step>, id: nat) {
    forall step :: step in steps ==> !step.Recover? && step != EndRead(id)
  }

  lemma StepKeepsReader(st: State, step: Step, id: nat)
    requires Enabled(st, step) && !step.Recover? && step != EndRead(id) && id in st.readers
    ensures var st' := Next(st, step);
            id in st'.readers && st'.readers[id].key == st.readers[id].key && st'.readers[id].seqno == st.readers[id].seqno
  {
    if Reads(step) {
      hide Begin, Logged, Inserted, Finished, Switched, Built, ManifestWritten, Committed, MergeOutputAdded, Doomed;
      hide Reopened, Contents, ImmContents, MemAt, LogContents, Answer;
    } else {
      OthersSameReaders(st, step);
      hide Next, Enabled;
    }
  }

  /** A get keeps its key and its sequence. */
  lemma {:induction false} ReaderStays(st: State, steps: seq<Step>, end: State, id: nat)
    requires Runs(st, steps, end) && Undisturbed(steps, id) && id in st.readers
    ensures id in end.readers && end.readers[id].key == st.readers[id].key && end.readers[id].seqno == st.readers[id].seqno
    decreases |steps|
  {
    if steps != [] {
      hide Enabled, Next;
      assert steps[0] in steps && forall step :: step in steps[1..] ==> step in steps;
      StepKeepsReader(st, steps[0], id);
      ReaderStays(Next(st, steps[0]), steps[1..], end, id);
    }
  }

  /** A get of the key that begins at st and has finished at end. */
  ghost predicate GetRuns(st: State, id: nat, key: Bytes, snap: Option<nat>, steps: seq<Step>, end: State) {
    && Enabled(st, Get(id, key, snap)) && Runs(Next(st, Get(id, key, snap)), steps, end)
    && Careful(steps) && Undisturbed(steps, id)
    && id in end.readers && end.readers[id].stage.Done?
  }

  /** What it returns is the replay of the history as it was when the get began, up to the sequence captured then. */
  lemma {:induction false} GetReads(st: State, id: nat, key: Bytes, snap: Option<nat>, steps: seq<Step>, end: State, s: nat)
    requires Inv(st) && GetRuns(st, id, key, snap, steps, end) && s <= st.lastSeq
    requires Captured(st, id, key, snap).readers[id].seqno == s && Captured(st, id, key, snap).readers[id].key == key
    ensures Inv(end) && end.readers[id].stage.result == Find(Replay(st.hist, s), key)
  {
    hide Inv, Runs, Careful;
    var step := Get(id, key, snap);
    var begun := Next(st, step);
    StepKeeps(st, step);
    ReadersKeepHistory(st, step);
    hide Captured, Next, Enabled;
    RunKeeps(begun, steps, end);
    ReaderStays(begun, steps, end, id);
    ReplayIsStable(begun, steps, end, s);
    GetIsReplay(end, id);
  }

  lemma HistoryUpToLast(st: State)
    requires Inv(st)
    ensures forall e :: e in st.hist ==> e.seqno <= st.lastSeq
  {
    hide MemOk, LogsOk, LayersOk, GroupsOk, StampsOk, FilesOk, DiskOk, SequenceOk, MergeOk, SnapsOk, ReadersOk, Flatten;
    hide Increasing;
  }

  /**
   * In every run, a get without a snapshot, whatever happens while it runs, returns what replaying everything that had
   * succeeded when it began returns.
   */
  lemma {:induction false} GetReadsNow(before: seq<Step>, st: State, id: nat, key: Bytes, steps: seq<Step>, end: State)
    requires Runs(Created(), before, st) && Careful(before) && GetRuns(st, id, key, None, steps, end)
    ensures end.readers[id].stage.result == Find(Replay(st.hist, st.lastSeq), key)
    ensures forall e :: e in st.hist ==> e.seqno <= st.lastSeq
  {
    hide Runs, Careful, Inv, GetRuns;
    CreatedOk();
    RunKeeps(Created(), before, st);
    HistoryUpToLast(st);
    GetReads(st, id, key, None, steps, end, st.lastSeq);
  }

  /** The places a get still has to look in. */
  function Ahead(stage: Stage): nat {
    match stage
    case Start => 3
    case MissedMem => 2
    case MissedImm => 1
    case Done(_) => 0
  }

  /** One look is always possible, and leaves fewer. */
  lemma {:induction false} LooksOnce(st: State, id: nat) returns (step: Step, st': State)
    requires id in st.readers && Ahead(st.readers[id].stage) > 0
    ensures step == ReadMem(id) || step == ReadImm(id) || step == ReadTables(id)
    ensures Enabled(st, step) && st' == Next(st, step) && id in st'.readers
    ensures Ahead(st'.readers[id].stage) < Ahead(st.readers[id].stage)
  {
    hide Contents, ImmContents, MemAt, Answer;
    match st.readers[id].stage {
      case Start => step := ReadMem(id);
      case MissedMem => step := ReadImm(id);
      case MissedImm => step := ReadTables(id);
    }
    st' := Next(st, step);
  }

  lemma {:induction false} LooksFinish(st: State, id: nat) returns (steps: seq<Step>, end: State)
    requires id in st.readers
    ensures Runs(st, steps, end) && id in end.readers && end.readers[id].stage.Done? && |steps| <= Ahead(st.readers[id].stage)
    ensures forall step :: step in steps ==> step == ReadMem(id) || step == ReadImm(id) || step == ReadTables(id)
    decreases Ahead(st.readers[id].stage)
  {
    hide Enabled, Next;
    if Ahead(st.readers[id].stage) == 0 {
      steps, end := [], st;
    } else {
      var step, st' := LooksOnce(st, id);
      var rest, last := LooksFinish(st', id);
      OneMore(st, step, rest, last);
      steps, end := [step] + rest, last;
    }
  }

  /** A get that begins can always finish, in at most three looks. */
  lemma {:induction false} GetFinishes(st: State, id: nat, key: Bytes, snap: Option<nat>) returns (steps: seq<Step>, end: State)
    requires Enabled(st, Get(id, key, snap))
    ensures GetRuns(st, id, key, snap, steps, end) && |steps| <= 3
  {
    var begun := Next(st, Get(id, key, snap));
    assert id in begun.readers && Ahead(begun.readers[id].stage) == 3;
    hide Enabled, Next, Runs;
    steps, end := LooksFinish(begun, id);
  }

  /** Where the i-th snapshot is after the steps, unless it has been released. */
  function SnapAfter(steps: seq<Step>, i: nat): Option<nat>
    decreases |steps|
  {
    if steps == [] then Some(i)
    else if !steps[0].ReleaseSnapshot? || steps[0].index > i then SnapAfter(steps[1..], i)
    else if steps[0].index == i then None
    else SnapAfter(steps[1..], i - 1)
  }

  lemma StepKeepsSnap(st: State, step: Step, i: nat)
    requires Enabled(st, step) && !step.Recover? && i < |st.snaps|
    ensures var snaps := Next(st, step).snaps;
            if !step.ReleaseSnapshot? || step.index > i then i < |snaps| && snaps[i] == st.snaps[i]
            else step.index < i ==> i - 1 < |snaps| && snaps[i - 1] == st.snaps[i]
  {
    if Reads(step) {
      hide Begin, Logged, Inserted, Finished, Switched, Built, ManifestWritten, Committed, MergeOutputAdded, Doomed;
      hide Reopened, Contents, ImmContents, MemAt, LogContents, Answer;
    } else {
      OthersSameReaders(st, step);
      hide Next, Enabled;
    }
  }

  lemma {:induction false} SnapStays(st: State, steps: seq<Step>, end: State, i: nat)
    requires Runs(st, steps, end) && (forall step :: step in steps ==> !step.Recover?)
    requires i < |st.snaps| && SnapAfter(steps, i).Some?
    ensures var j := SnapAfter(steps, i).value; j < |end.snaps| && end.snaps[j] == st.snaps[i]
    decreases |steps|
  {
    if steps != [] {
      hide Enabled, Next;
      assert steps[0] in steps && forall step :: step in steps[1..] ==> step in steps;
      StepKeepsSnap(st, steps[0], i);
      SnapStays(Next(st, steps[0]), steps[1..], end,
                if !steps[0].ReleaseSnapshot? || steps[0].index > i then i else i - 1);
    }
  }

  /**
   * In every run, a get with a snapshot returns what replaying everything that had succeeded when that snapshot was taken
   * returns, whatever happened since and whichever other snapshots were taken and released.
   */
  lemma {:induction false} GetReadsSnapshot(before: seq<Step>, taken: State, between: seq<Step>, st: State, i: nat, id: nat,
                                            key: Bytes, steps: seq<Step>, end: State)
    requires Runs(Created(), before, taken) && Careful(before)
    requires Runs(Next(taken, TakeSnapshot), between, st) && Careful(between)
    requires (forall step :: step in between ==> !step.Recover?) && SnapAfter(between, |taken.snaps|) == Some(i)
    requires GetRuns(st, id, key, Some(i), steps, end)
    ensures end.readers[id].stage.result == Find(Replay(taken.hist, taken.lastSeq), key)
    ensures forall e :: e in taken.hist ==> e.seqno <= taken.lastSeq
  {
    var start := Next(taken, TakeSnapshot);
    assert start.snaps[|taken.snaps|] == taken.lastSeq;
    hide Runs, Careful, Inv, GetRuns, Legible, Enabled;
    CreatedOk();
    RunKeeps(Created(), before, taken);
    HistoryUpToLast(taken);
    StepKeeps(taken, TakeSnapshot);
    RunKeeps(start, between, st);
    SnapStays(start, between, st, |taken.snaps|);
    RunOfLast(start, between, st);
    ReplayIsStable(start, between, st, taken.lastSeq);
    GetReads(st, id, key, Some(i), steps, end, taken.lastSeq);
  }

  lemma {:induction false} RunOfLast(st: State, steps: seq<Step>, end: State)
    requires Inv(st) && Runs(st, steps, end) && Careful(steps) && forall step :: step in steps ==> !step.Recover?
    ensures st.lastSeq <= end.lastSeq
    decreases |steps|
  {
    if steps != [] {
      hide Inv, Enabled, Next, Legible;
      CarefulSteps(steps);
      assert steps[0] in steps && forall step :: step in steps[1..] ==> step in steps;
      StepKeeps(st, steps[0]);
      StepAddsLater(st, steps[0]);
      RunOfLast(Next(st, steps[0]), steps[1..], end);
    }
  }

  /** The last operation on its key. */
  predicate LastOn(hist: seq<Entry>, e: Entry) {
    e in hist && forall f :: f in hist && f.key == e.key ==> f.seqno <= e.seqno
  }

  /** Every get of e's key that begins now returns e. */
  ghost predicate Returned(st: State, e: Entry) {
    forall id, steps, end :: GetRuns(st, id, e.key, None, steps, end) ==> end.readers[id].stage.result == Reading(e)
  }

  lemma {:induction false} LastIsReturned(st: State, e: Entry)
    requires Inv(st) && LastOn(st.hist, e)
    ensures Returned(st, e)
  {
    hide Inv, Runs, Careful, Undisturbed, Enabled;
    HistoryUpToLast(st);
    HistoryIncreases(st);
    IncreasingIsDistinct(st.hist);
    ReplayIsAnswer(st.hist, e.key, st.lastSeq);
    AnswerIs(Elements(st.hist), e.key, st.lastSeq, e);
    forall id, steps, end | GetRuns(st, id, e.key, None, steps, end)
      ensures end.readers[id].stage.result == Reading(e)
    {
      GetReads(st, id, e.key, None, steps, end, st.lastSeq);
    }
  }

  // ---- what survives is read ----

  /** No crash in the run finds the operation missing. */
  ghost predicate Spared(st: State, steps: seq<Step>, e: Entry)
    decreases |steps|
  {
    steps != [] ==>
      && Enabled(st, steps[0]) && (steps[0].Recover? ==> e !in Missing(st))
      && Spared(Next(st, steps[0]), steps[1..], e)
  }

  lemma {:induction false} SparedStays(st: State, steps: seq<Step>, end: State, e: Entry)
    requires Inv(st) && Runs(st, steps, end) && Careful(steps) && Spared(st, steps, e) && e in st.hist
    ensures e in end.hist
    decreases |steps|
  {
    if steps != [] {
      hide Inv, Enabled, Next, Missing, Legible;
      CarefulSteps(steps);
      StepKeeps(st, steps[0]);
      if steps[0].Recover? {
        CrashTakesMissing(st, steps[0], e);
      } else {
        HistoryGrows(st, steps[0]);
      }
      SparedStays(Next(st, steps[0]), steps[1..], end, e);
    }
  }

  /**
   * An operation that succeeded stays, across any crashes that do not find it missing, and as long as it is the last one on
   * its key every get that begins then returns it.
   */
  lemma {:induction false} SparedIsRead(before: seq<Step>, middle: State, after: seq<Step>, end: State, e: Entry)
    requires Runs(Created(), before, middle) && Careful(before)
    requires Runs(middle, after, end) && Careful(after)
    requires e in middle.hist && Spared(middle, after, e)
    ensures e in end.hist && (LastOn(end.hist, e) ==> Returned(end, e))
  {
    hide Runs, Careful, Spared, Inv, Returned;
    CreatedOk();
    RunKeeps(Created(), before, middle);
    RunKeeps(middle, after, end);
    SparedStays(middle, after, end, e);
    if LastOn(end.hist, e) {
      LastIsReturned(end, e);
    }
  }

  /** Nothing is appended to a log whose end is not clean: not after a torn record, not after a failed append. */
  ghost predicate Tidy(st: State, steps: seq<Step>)
    decreases |steps|
  {
    steps != [] ==>
      && Enabled(st, steps[0]) && (steps[0].Append? ==> st.tail.Clean?)
      && Tidy(Next(st, steps[0]), steps[1..])
  }

  lemma TidyStep(st: State, step: Step)
    requires Enabled(st, step) && st.unread == {} && (step.Append? ==> st.tail.Clean?)
    ensures Next(st, step).unread == {} && Missing(st) == {}
  {
    hide Enabled, Begin, Inserted, Finished, Switched, Built, ManifestWritten, Committed, MergeOutputAdded, Doomed;
    hide Captured, Looked, Contents, LogContents, Keep, KeepEach, Found;
    if Writes(step) {
      WritesGrowHistory(st, step);
    } else if Reads(step) {
      ReadersKeepHistory(st, step);
    } else if !step.Recover? {
      BackgroundKeepsHistory(st, step);
    }
  }

  lemma {:induction false} TidySpares(st: State, steps: seq<Step>, end: State, e: Entry)
    requires Runs(st, steps, end) && Tidy(st, steps) && st.unread == {}
    ensures end.unread == {} && Spared(st, steps, e)
    decreases |steps|
  {
    hide Enabled, Next, Missing;
    if steps != [] {
      TidyStep(st, steps[0]);
      TidySpares(Next(st, steps[0]), steps[1..], end, e);
    }
  }

  /**
   * As long as no log is written on after a torn record or a failed append, every operation that succeeded stays, across
   * any number of crashes, and as long as it is the last one on its key every get that begins then returns it.
   */
  lemma {:induction false} NothingIsLost(before: seq<Step>, middle: State, after: seq<Step>, end: State, e: Entry)
    requires Runs(Created(), before, middle) && Careful(before) && Tidy(Created(), before)
    requires Runs(middle, after, end) && Careful(after) && Tidy(middle, after)
    requires e in middle.hist
    ensures e in end.hist && (LastOn(end.hist, e) ==> Returned(end, e))
  {
    hide Runs, Careful, Tidy, Spared, Returned;
    TidySpares(Created(), before, middle, e);
    TidySpares(middle, after, end, e);
    SparedIsRead(before, middle, after, end, e);
  }

  /** An operation that is not unreadable stays so, whatever happens to its log later. */
  lemma ReadableStays(st: State, step: Step, e: Entry)
    requires Inv(st) && Enabled(st, step) && e in st.hist && e !in st.unread
    ensures e !in Next(st, step).unread && e !in Missing(st)
  {
    hide Inv, Enabled, Begin, Logged, Inserted, Finished, Switched, Built, ManifestWritten, Committed, MergeOutputAdded;
    hide Doomed, Captured, Looked, Contents, LogContents, Keep, KeepEach, Found;
    if step.Append? {
      LoggedReadable(st, step.outcome, e);
    } else if Writes(step) {
      WritesGrowHistory(st, step);
    } else if Reads(step) {
      ReadersKeepHistory(st, step);
    } else if !step.Recover? {
      BackgroundKeepsHistory(st, step);
    }
  }

  lemma LoggedReadable(st: State, outcome: Outcome, e: Entry)
    requires Inv(st) && e in st.hist && e !in st.unread
    ensures e !in Logged(st, outcome).unread
  {
    hide MemOk, LogsOk, LayersOk, GroupsOk, StampsOk, FilesOk, DiskOk, SequenceOk, MergeOk, SnapsOk, ReadersOk, Flatten;
    PendAbove(st.hist, st.pend);
    Disjoint(Elements(st.hist), Elements(st.pend));
  }

  lemma {:induction false} ReadableIsSpared(st: State, steps: seq<Step>, end: State, e: Entry)
    requires Inv(st) && Runs(st, steps, end) && Careful(steps) && e in st.hist && e !in st.unread
    ensures Spared(st, steps, e)
    decreases |steps|
  {
    if steps != [] {
      hide Inv, Enabled, Next, Missing, Legible;
      CarefulSteps(steps);
      StepKeeps(st, steps[0]);
      ReadableStays(st, steps[0], e);
      if steps[0].Recover? {
        CrashTakesMissing(st, steps[0], e);
      } else {
        HistoryGrows(st, steps[0]);
      }
      ReadableIsSpared(Next(st, steps[0]), steps[1..], end, e);
    }
  }

  /** The state after a group has been written and acknowledged, and its record will be read back or not. */
  ghost function Acknowledged(st: State, ops: seq<Entry>, shown: bool, after: Tail): State {
    var es := Elements(ops);
    st.(phase := Idle, lastSeq := st.lastSeq + |ops|, hist := st.hist + ops, groups := st.groups + [ops], pend := [],
        mems := st.mems[st.logfile := Mem(st) + es], logs := st.logs[st.logfile := LogAt(st, st.logfile) + es],
        unread := if shown then st.unread else st.unread + es, tail := after)
  }

  function WriteSteps(ops: seq<Entry>, shown: bool, after: Tail): seq<Step> {
    [BeginGroup(ops), Append(Wrote(shown, after))] + InsertSteps(|ops|)
  }

  /** Inserting the last n operations of a group, and finishing it. */
  function InsertSteps(n: nat): seq<Step> {
    if n == 0 then [FinishGroup] else [Insert] + InsertSteps(n - 1)
  }

  lemma OneMore(st: State, step: Step, rest: seq<Step>, end: State)
    requires Enabled(st, step) && Runs(Next(st, step), rest, end)
    ensures Runs(st, [step] + rest, end)
  {
    hide Enabled, Next;
    assert ([step] + rest)[1..] == rest;
  }

  /** The group is finished, with everything that was still to be inserted in the memtable. */
  ghost function AllInserted(st: State): State
    requires st.phase.Inserting? && st.phase.done <= |st.pend|
  {
    Finished(st.(mems := st.mems[st.logfile := Mem(st) + Elements(st.pend[st.phase.done..])]))
  }

  lemma {:induction false} InsertingRuns(st: State, n: nat)
    requires st.phase.Inserting? && st.phase.done + n == |st.pend| && st.logfile in st.mems
    ensures Runs(st, InsertSteps(n), AllInserted(st))
    decreases n
  {
    hide Captured, Looked, Built, ManifestWritten, Committed, MergeOutputAdded, Doomed, Reopened, Switched, Logged;
    if n == 0 {
      LastInserted(st);
      RunsOne(st, FinishGroup);
    } else {
      InsertsOne(st);
      InsertingRuns(Inserted(st), n - 1);
      hide Enabled, Next, AllInserted;
      OneMore(st, Insert, InsertSteps(n - 1), AllInserted(st));
    }
  }

  lemma LastInserted(st: State)
    requires st.phase == Inserting(|st.pend|) && st.logfile in st.mems
    ensures AllInserted(st) == Finished(st)
  {
    ElementsOf([], []);
    assert Mem(st) + Elements(st.pend[|st.pend|..]) == Mem(st);
    assert st.mems[st.logfile := Mem(st)] == st.mems;
  }

  lemma InsertsOne(st: State)
    requires Enabled(st, Insert)
    ensures AllInserted(Inserted(st)) == AllInserted(st) && st.logfile in Inserted(st).mems
  {
    var more := st.pend[st.phase.done..];
    var mem := Mem(st) + {more[0]};
    FirstInserted(st.mems, st.logfile, Mem(st), more);
    assert Mem(Inserted(st)) == mem && st.pend[st.phase.done + 1..] == more[1..];
  }

  lemma FirstInserted(mems: map<nat, Entries>, n: nat, mem: Entries, more: seq<Entry>)
    requires more != []
    ensures mems[n := mem + {more[0]}][n := mem + {more[0]} + Elements(more[1..])] == mems[n := mem + Elements(more)]
  {
    assert more == [more[0]] + more[1..];
    ElementsOf([more[0]], more[1..]);
    assert Elements([more[0]]) == {more[0]};
    assert mem + {more[0]} + Elements(more[1..]) == mem + Elements(more);
  }

  lemma AcknowledgedIs(st: State, ops: seq<Entry>, shown: bool, after: Tail)
    requires st.phase.Idle? && st.logfile in st.mems
    ensures var s2 := Logged(Begin(st, ops), Wrote(shown, after));
            && s2.phase == Inserting(0) && s2.pend == ops && s2.logfile in s2.mems
            && AllInserted(s2) == Acknowledged(st, ops, shown, after)
  {
    assert ops[0..] == ops;
  }

  lemma WriteEnabled(st: State, ops: seq<Entry>, shown: bool, after: Tail)
    requires st.phase.Idle? && !st.bgError && Consecutive(ops, st.lastSeq) && AfterAppend(st.tail, shown, after)
    ensures Enabled(st, BeginGroup(ops)) && Next(st, BeginGroup(ops)) == Begin(st, ops)
    ensures Enabled(Begin(st, ops), Append(Wrote(shown, after)))
    ensures Next(Begin(st, ops), Append(Wrote(shown, after))) == Logged(Begin(st, ops), Wrote(shown, after))
  {
    hide Reopened, Built, ManifestWritten, Committed, Doomed, Captured, Looked;
  }

  lemma AcknowledgedRuns(st: State, ops: seq<Entry>, shown: bool, after: Tail)
    requires st.phase.Idle? && !st.bgError && Consecutive(ops, st.lastSeq) && AfterAppend(st.tail, shown, after)
    requires st.logfile in st.mems
    ensures Runs(st, WriteSteps(ops, shown, after), Acknowledged(st, ops, shown, after))
    ensures Careful(WriteSteps(ops, shown, after))
  {
    var s1 := Begin(st, ops);
    WriteEnabled(st, ops, shown, after);
    AcknowledgedIs(st, ops, shown, after);
    hide Enabled, Next, Begin, Logged, Acknowledged, AllInserted, Runs, InsertSteps, Consecutive;
    InsertingRuns(Logged(s1, Wrote(shown, after)), |ops|);
    TwoMore(st, BeginGroup(ops), Append(Wrote(shown, after)), InsertSteps(|ops|), Acknowledged(st, ops, shown, after));
    InsertingCareful(|ops|);
  }

  lemma TwoMore(st: State, a: Step, b: Step, rest: seq<Step>, end: State)
    requires Enabled(st, a) && Enabled(Next(st, a), b) && Runs(Next(Next(st, a), b), rest, end)
    ensures Runs(st, [a, b] + rest, end)
  {
    hide Enabled, Next, Runs;
    OneMore(Next(st, a), b, rest, end);
    OneMore(st, a, [b] + rest, end);
    assert [a] + ([b] + rest) == [a, b] + rest;
  }

  lemma {:induction false} InsertingCareful(n: nat)
    ensures forall step :: step in InsertSteps(n) ==> step.Insert? || step.FinishGroup?
  {
    if n > 0 {
      InsertingCareful(n - 1);
    }
  }

  /** In every reachable state, a group written now survives a following crash exactly when its record is read back. */
  lemma SurvivesIffShown(before: seq<Step>, st: State, ops: seq<Entry>, shown: bool, after: Tail)
    requires Runs(Created(), before, st) && Careful(before)
    requires st.phase.Idle? && !st.bgError && Consecutive(ops, st.lastSeq) && AfterAppend(st.tail, shown, after)
    ensures Runs(st, WriteSteps(ops, shown, after), Acknowledged(st, ops, shown, after))
    ensures forall op :: op in ops ==>
              && op in Acknowledged(st, ops, shown, after).hist
              && (op in Survived(Acknowledged(st, ops, shown, after)) <==> shown)
  {
    hide Runs, Careful, Inv, Survived, Acknowledged, Missing, WriteSteps;
    CreatedOk();
    RunKeeps(Created(), before, st);
    HasMemtable(st);
    AcknowledgedRuns(st, ops, shown, after);
    RunKeeps(st, WriteSteps(ops, shown, after), Acknowledged(st, ops, shown, after));
    AcknowledgedSurvives(st, ops, shown, after);
  }

  lemma HasMemtable(st: State)
    requires Inv(st)
    ensures st.logfile in st.mems
  {
    hide WritesOk, MemOk, LayersOk, GroupsOk, StampsOk, FilesOk, DiskOk, SequenceOk, MergeOk, SnapsOk, ReadersOk;
    hide Contents, LogContents;
  }

  lemma AcknowledgedSurvives(st: State, ops: seq<Entry>, shown: bool, after: Tail)
    requires Inv(st) && Inv(Acknowledged(st, ops, shown, after)) && st.phase.Idle? && Consecutive(ops, st.lastSeq)
    ensures forall op :: op in ops ==>
              && op in Acknowledged(st, ops, shown, after).hist && op !in st.unread
              && (op in Survived(Acknowledged(st, ops, shown, after)) <==> shown)
  {
    hide Inv, Settled, InLog, Imm, FlushStands, Missing, Survived, Consecutive;
    var st' := Acknowledged(st, ops, shown, after);
    MissingIs(st');
    Apart(st');
    SurvivedIs(st');
    IdlePend(st');
    SettledAlone(st');
    forall op | op in ops
      ensures op in st'.hist && op !in st.unread && (op in Survived(st') <==> shown)
    {
      NotYetSeen(st, ops, op);
      assert op in Survived(st') <==> op in Elements(Survived(st'));
      assert op in Elements(ops) && op in Settled(st');
      assert op in Elements(st'.hist);
    }
  }

  lemma NotYetSeen(st: State, ops: seq<Entry>, op: Entry)
    requires Inv(st) && st.phase.Idle? && Consecutive(ops, st.lastSeq) && op in ops
    ensures op !in st.unread
  {
    hide MemOk, LogsOk, LayersOk, StampsOk, FilesOk, DiskOk, SequenceOk, MergeOk, SnapsOk, ReadersOk, Flatten;
    ElementsOf([], []);
    assert op.seqno > st.lastSeq;
    assert op in Elements(st.hist) ==> op in st.hist;
  }

  // ---- recovery ----

  /**
   * Recovery rebuilds the same map: a reopened database holds, in its memtable and tables, what reads as the
   * surviving history at every sequence from the recovered one on, which is at least every recovered sequence.
   */
  lemma RecoveryRebuilds(steps: seq<Step>, st: State, step: Step, k: Bytes, s: nat)
    requires Runs(Created(), steps, st) && Careful(steps)
    requires step.Recover? && Enabled(st, step) && Legible(step) && step.top <= s
    ensures var st' := Next(st, step);
            && st'.hist == Keep(st.hist + LoggedGroup(st.phase, st.pend), Missing(st))
            && st'.lastSeq == step.top && (forall e :: e in st'.hist ==> e.seqno <= step.top)
            && Answer(Mem(st') + Current(st'), k, s) == Find(Replay(st'.hist, s), k)
  {
    hide Runs, Careful, Enabled, Inv, Contents, LogContents, Recovered, Settled, Current, Covers, Answer, Next;
    hide Survived, LayersOk, Keep;
    var st' := Next(st, step);
    CreatedOk();
    RunKeeps(Created(), steps, st);
    RecoverKeeps(st, step);
    ReopenedHistory(st, step);
    SurvivedUnfolds(st);
    ReopenedLayers(st, step);
    ReopenedContents(st, step);
    SequencesBounded(st, step.top);
    forall e | e in st'.hist ensures e.seqno <= step.top {
      assert e in Elements(Survived(st));
    }
    HistoryIncreases(st');
    IncreasingIsDistinct(st'.hist);
    LayersRead(Elements(st'.hist), Settled(st'), Imm(st'), Current(st'), step.top);
    ReplayIsAnswer(st'.hist, k, s);
    assert Mem(st') + Current(st') == Settled(st') + Imm(st') + Current(st');
  }

  lemma SurvivedUnfolds(st: State)
    ensures Survived(st) == Keep(st.hist + LoggedGroup(st.phase, st.pend), Missing(st))
  {
    hide Keep, Missing;
  }

  lemma {:induction false} Largest(es: Entries, least: nat) returns (top: nat)
    ensures least <= top && (forall e :: e in es ==> e.seqno <= top)
    ensures top == least || exists e :: e in es && e.seqno == top
    decreases es
  {
    top := least;
    if e :| e in es && e.seqno > least {
      top := Largest(es - {e}, e.seqno);
      assert top == e.seqno || exists f :: f in es && f.seqno == top;
    }
  }

  /** Nothing on disk is newer than what is in use. */
  ghost predicate InUseOnDisk(st: State) {
    st.disk.lastSeq <= NewestUsed(st) && forall e :: e in LogContents(st.logs, st.disk.logNumber) ==> e.seqno <= NewestUsed(st)
  }

  lemma DiskInUse(st: State)
    requires Inv(st)
    ensures InUseOnDisk(st)
  {
    hide Inv, Contents, LogContents, Settled, InLog, Imm, Standing, FlushStands;
    OnDisk(st);
    Apart(st);
    HistoryInUse(st);
  }

  lemma HistoryInUse(st: State)
    requires Inv(st)
    ensures forall e :: e in Elements(st.hist) + InLog(st.phase, st.pend) ==> e.seqno <= NewestUsed(st)
    ensures st.disk.lastSeq <= st.lastSeq
  {
    hide MemOk, LogsOk, SnapsOk, ReadersOk, LayersOk, GroupsOk, SequenceOk, MergeOk, DiskOk, FilesOk, Flatten, Contents;
  }

  /** What an open finds in the logs. */
  ghost function FoundInLogs(st: State): Entries {
    LogContents(Found(st.logs, st.unread), st.disk.logNumber)
  }

  /** An open can always put all of it in one new table, and start a new log and a new manifest. */
  lemma OpensFresh(st: State)
    requires Inv(st)
    ensures OpensWith(st, map[st.nextFile := FoundInLogs(st)], false, Fresh, st.nextFile + 1, st.nextFile + 2)
  {
    hide Inv, Contents, LogContents, Found;
    ManifestFiles(st);
    LogFacts(st);
    var parts := map[st.nextFile := FoundInLogs(st)];
    OneTable(parts, st.nextFile);
    assert parts.Keys == {st.nextFile};
  }

  /** Whatever was deleted, an open after a crash at any point of a run finds every file it needs. */
  lemma CanReopen(steps: seq<Step>, st: State) returns (step: Step)
    requires Runs(Created(), steps, st) && Careful(steps)
    ensures step.Recover? && Enabled(st, step) && Legible(step) && st.disk.files <= st.tables.Keys
  {
    hide Runs, Careful, Inv, Contents, LogContents, Found, OpensWith;
    CreatedOk();
    RunKeeps(Created(), steps, st);
    ManifestFiles(st);
    DiskInUse(st);
    FoundContents(st.logs, st.unread, st.disk.logNumber);
    var top := Largest(FoundInLogs(st), st.disk.lastSeq);
    var n := st.nextFile;
    OpensFresh(st);
    step := Recover(map[n := FoundInLogs(st)], false, false, Fresh, n + 1, n + 2, top);
  }

  /** What the removal of obsolete files takes is exactly what nothing holds, and the logs below the current number. */
  lemma DoomedExactly(st: State)
    requires Enabled(st, RemoveStart)
    ensures var job := Next(st, RemoveStart).job;
            && job.Removing?
            && (forall n :: n in st.tables ==>
                  (n in job.tables
                   <==> && n !in st.current && (st.merge.Some? ==> n !in st.merge.value.outs)
                        && forall id :: id in st.readers ==> n !in st.readers[id].version))
            && (forall n :: n in st.logs ==> (n in job.logs <==> n < st.logNumber))
            && job.tables <= st.tables.Keys && job.logs <= st.logs.Keys
  {
    hide Contents, LogContents;
  }

  /** A compaction forgets below the least live snapshot, or the last sequence when there is none: no more and no less. */
  lemma MergeFloorIs(st: State, step: Step)
    requires Inv(st) && Enabled(st, step) && step.MergeStart?
    ensures var floor := Next(st, step).merge.value.floor;
            if st.snaps == [] then floor == st.lastSeq
            else floor in st.snaps && forall s :: s in st.snaps ==> floor <= s
  {
    hide WritesOk, MemOk, LogsOk, LayersOk, GroupsOk, StampsOk, FilesOk, DiskOk, SequenceOk, MergeOk, ReadersOk;
    hide Contents, LogContents, Placed, Kept;
  }

  // ---- a torn manifest that is written on ----

  lemma {:induction false} RunsJoin(a: State, x: seq<Step>, b: State, y: seq<Step>, c: State)
    requires Runs(a, x, b) && Runs(b, y, c)
    ensures Runs(a, x + y, c)
    decreases |x|
  {
    hide Enabled, Next;
    if x == [] {
      assert x + y == y;
    } else {
      assert (x + y)[1..] == x[1..] + y;
      RunsJoin(Next(a, x[0]), x[1..], b, y, c);
    }
  }

  lemma RunsOne(st: State, step: Step)
    requires Enabled(st, step)
    ensures Runs(st, [step], Next(st, step))
  {
    hide Enabled, Next;
    assert [step][1..] == [];
  }

  /** One operation was acknowledged; its memtable has been flushed to table 5, and the edit is about to be written. */
  ghost function Flushing(e: Entry): State {
    State([e], [[e]], 1, Idle, [], false, 6, map[3 := {e}, 4 := {}], 4, Some(3), map[3 := {e}, 4 := {}], {}, Clean, Clean,
          map[5 := {e}], {}, 3, {}, Disk({}, 3, 0, 4), Committing(Edit({5}, {}, 4, 1, 6), true, false), None, [], map[])
  }

  /**
   * The process crashed in the middle of that edit and the database was opened with the same manifest: log 3 became
   * table 6, log 4 was reused, and the edit that says so stands after the torn one, where no reader finds it.
   */
  ghost function Mistaken(e: Entry): State {
    State([e], [[e], []], 1, Idle, [], false, 8, map[4 := {}], 4, None, map[3 := {e}, 4 := {}], {}, Clean, Torn,
          map[6 := {e}], {6}, 4, {}, Disk({}, 3, 0, 4), NoJob, None, [], map[])
  }

  lemma FlushingRuns(e: Entry) returns (steps: seq<Step>)
    requires e.seqno == 1
    ensures Runs(Created(), steps, Flushing(e))
  {
    var s0 := Created();
    AcknowledgedRuns(s0, [e], true, Clean);
    var s4 := Acknowledged(s0, [e], true, Clean);
    steps := WriteSteps([e], true, Clean);
    FlushingFrom(e);
    hide Enabled, Next, Acknowledged, Created, Flushing, WriteSteps;
    var s5 := Next(s4, Switch(true));
    RunsOne(s4, Switch(true));
    RunsJoin(s0, steps, s4, [Switch(true)], s5);
    steps := steps + [Switch(true)];
    var s6 := Next(s5, FlushStart);
    RunsOne(s5, FlushStart);
    RunsJoin(s0, steps, s5, [FlushStart], s6);
    steps := steps + [FlushStart];
    RunsOne(s6, FlushBuilt(true));
    RunsJoin(s0, steps, s6, [FlushBuilt(true)], Next(s6, FlushBuilt(true)));
    steps := steps + [FlushBuilt(true)];
  }

  lemma FlushingFrom(e: Entry)
    requires e.seqno == 1
    ensures var s4 := Acknowledged(Created(), [e], true, Clean);
            && Enabled(s4, Switch(true))
            && Enabled(Switched(s4, true), FlushStart)
            && var s6 := Next(Switched(s4, true), FlushStart);
               Enabled(s6, FlushBuilt(true)) && Built(s6, true) == Flushing(e)
  {
    var s4 := Acknowledged(Created(), [e], true, Clean);
    assert Elements([e]) == {e} && Mem(Created()) + {e} == {e} && LogAt(Created(), 3) + {e} == {e};
    assert s4.hist == [e] && s4.groups == [[e]];
    var s5 := Switched(s4, true);
    assert s5.mems == map[3 := {e}, 4 := {}] && s5.logs == map[3 := {e}, 4 := {}];
    var s6 := Next(s5, FlushStart);
    assert Imm(s6) == {e};
    var s7 := Built(s6, true);
    assert s7.tables == map[5 := {e}];
  }

  /** Log 3, its only durable copy, is deleted as obsolete. */
  lemma MistakenRuns(e: Entry) returns (steps: seq<Step>, end: State)
    requires e.seqno == 1
    ensures Runs(Flushing(e), steps, end)
    ensures end == Mistaken(e).(logs := map[4 := {}])
  {
    var step := Recover(map[6 := {e}], true, false, Appended(true, Torn), 7, 8, 1);
    OpensMistaken(e);
    RunsOne(Flushing(e), step);
    var s1 := Mistaken(e);
    RemovesMistaken(e);
    var s2 := Next(s1, RemoveStart);
    var s3 := Next(s2, RemoveLog(3));
    end := Next(s3, RemoveDone);
    hide Enabled, Next, Flushing, Mistaken;
    RunsOne(s1, RemoveStart);
    RunsOne(s2, RemoveLog(3));
    RunsOne(s3, RemoveDone);
    RunsJoin(Flushing(e), [step], s1, [RemoveStart], s2);
    RunsJoin(Flushing(e), [step] + [RemoveStart], s2, [RemoveLog(3)], s3);
    RunsJoin(Flushing(e), [step] + [RemoveStart] + [RemoveLog(3)], s3, [RemoveDone], end);
    steps := [step] + [RemoveStart] + [RemoveLog(3)] + [RemoveDone];
  }

  lemma OpensMistaken(e: Entry)
    requires e.seqno == 1
    ensures var step := Recover(map[6 := {e}], true, false, Appended(true, Torn), 7, 8, 1);
            Enabled(Flushing(e), step) && Next(Flushing(e), step) == Mistaken(e)
  {
    OpenEnabled(e);
    OpenedIs(e);
  }

  lemma TwoLogs(e: Entry)
    ensures LogContents(map[3 := {e}, 4 := {}], 3) == {e} && LogContents(map[3 := {e}], 3) == {e}
  {
    var logs := map[3 := {e}, 4 := {}];
    assert 3 in logs && e in logs[3];
    var one := map[3 := {e}];
    assert 3 in one && e in one[3];
  }

  lemma FoundAll(logs: map<nat, Entries>)
    ensures Found(logs, {}) == logs
  {
    forall n | n in logs ensures logs[n] - {} == logs[n] {
    }
  }

  lemma OpenEnabled(e: Entry)
    requires e.seqno == 1
    ensures Enabled(Flushing(e), Recover(map[6 := {e}], true, false, Appended(true, Torn), 7, 8, 1))
  {
    hide LogContents, Contents;
    var st := Flushing(e);
    FoundAll(st.logs);
    FoundAll(map[3 := {e}]);
    assert st.logs - {4} == map[3 := {e}];
    TwoLogs(e);
    assert e in {e} && e.seqno == 1;
    OneTable(map[6 := {e}], 6);
    assert map[6 := {e}].Keys == {6};
  }

  lemma OpenedIs(e: Entry)
    ensures Reopened(Flushing(e), map[6 := {e}], true, false, Appended(true, Torn), 7, 8, 1) == Mistaken(e)
  {
    hide LogContents, Contents, Keep, KeepEach;
    var st := Flushing(e);
    FoundAll(st.logs);
    NothingMissing(e);
    KeepAll([e], {});
    KeepAll([], {});
    assert [e] + [] == [e];
    KeepEachIs([[e]] + [[]], {});
    assert KeepEach([[e]] + [[]], {}) == [[e], []];
    NoneListed(st.tables, st.disk.files, map[6 := {e}]);
    assert {} + {6} == {6} && map[6 := {e}].Keys == {6};
  }

  lemma NoneListed(tables: map<nat, Entries>, files: set<nat>, parts: map<nat, Entries>)
    ensures files == {} ==> (map n | n in tables && n in files :: tables[n]) + parts == parts
  {
  }

  lemma NothingMissing(e: Entry)
    ensures Missing(Flushing(e)) == {}
  {
    hide LogContents, Contents;
  }

  lemma RemovesMistaken(e: Entry)
    ensures var s1 := Mistaken(e);
            && Enabled(s1, RemoveStart)
            && var s2 := Next(s1, RemoveStart);
               && Enabled(s2, RemoveLog(3))
               && var s3 := Next(s2, RemoveLog(3));
                  && Enabled(s3, RemoveDone)
                  && Next(s3, RemoveDone) == s1.(logs := map[4 := {}])
  {
    DoomsLog(e);
    hide Doomed, Enabled;
    var s2 := Doomed(Mistaken(e));
    assert s2.logs - {3} == map[4 := {}];
    RemovesLog(s2);
  }

  lemma DoomsLog(e: Entry)
    ensures var s1 := Mistaken(e);
            var s2 := Doomed(s1);
            && Enabled(s1, RemoveStart) && s2 == s1.(job := s2.job) && s2.job.Removing? && 3 in s2.job.logs
  {
    hide InUse, Recovered, Found, Replayed, Contents, LogContents;
  }

  lemma RemovesLog(s2: State)
    requires s2.job.Removing? && 3 in s2.job.logs
    ensures Enabled(s2, RemoveLog(3)) && Enabled(s2.(logs := s2.logs - {3}), RemoveDone)
  {
    hide InUse, Recovered, Found, Replayed, Contents, LogContents;
  }

  /**
   * Why the manifest must be clean: a crash in the middle of an edit, an open that reuses the manifest, the removal of
   * what it takes for obsolete, and another crash. The operation was acknowledged and is missing from no log, yet the
   * reopened database is empty.
   */
  lemma TornManifestLoses(e: Entry) returns (steps: seq<Step>, st: State, step: Step)
    requires e.seqno == 1
    ensures Runs(Created(), steps, st) && e in st.hist && Missing(st) == {}
    ensures step.Recover? && Enabled(st, step) && Legible(step)
    ensures var st' := Next(st, step); Mem(st') == {} && Imm(st') == {} && Current(st') == {}
  {
    var more;
    steps := FlushingRuns(e);
    more, st := MistakenRuns(e);
    RunsJoin(Created(), steps, Flushing(e), more, st);
    steps := steps + more;
    step := Recover(map[], false, false, Fresh, 8, 9, 0);
    LastOpen(e);
  }

  lemma LastOpen(e: Entry)
    ensures var st := Mistaken(e).(logs := map[4 := {}]);
            var step := Recover(map[], false, false, Fresh, 8, 9, 0);
            && Missing(st) == {} && Enabled(st, step)
            && var st' := Next(st, step); Mem(st') == {} && Imm(st') == {} && Current(st') == {}
  {
    LastOpenEnabled(e);
    LastOpenEmpty(e);
  }

  lemma LastOpenEnabled(e: Entry)
    ensures var st := Mistaken(e).(logs := map[4 := {}]);
            Missing(st) == {} && Enabled(st, Recover(map[], false, false, Fresh, 8, 9, 0))
  {
    var st := Mistaken(e).(logs := map[4 := {}]);
    FoundAll(st.logs);
    assert LogContents(st.logs, 3) == {};
    hide LogContents;
    var none: map<nat, Entries> := map[];
    assert Contents(none, none.Keys) == {};
  }

  lemma LastOpenEmpty(e: Entry)
    ensures var st' := Reopened(Mistaken(e).(logs := map[4 := {}]), map[], false, false, Fresh, 8, 9, 0);
            Mem(st') == {} && Imm(st') == {} && Current(st') == {}
  {
    hide Keep, KeepEach, LogContents, Found;
  }

  // ---- an edit behind an unclean end, from any state ----

  /** A flush edit is about to be written to a manifest whose end is not clean. */
  ghost predicate FlushesUncleanly(st: State) {
    Inv(st) && WritingManifest(st.job) && st.job.flush && !st.bgError && !st.manifest.Clean?
  }

  /** The edit was written where no reader finds it, the flush was installed, and what looks obsolete was doomed. */
  ghost function Misled(st: State): State
    requires st.job.Committing?
  {
    Doomed(Committed(ManifestWritten(st, false, st.manifest), true))
  }

  lemma MisledRuns(st: State) returns (steps: seq<Step>)
    requires Inv(st) && WritingManifest(st.job) && !st.bgError && !st.manifest.Clean?
    ensures steps == [WriteManifest(false, st.manifest), Commit(true), RemoveStart] && Runs(st, steps, Misled(st))
  {
    hide Inv;
    var s1 := ManifestWritten(st, false, st.manifest);
    var s2 := Committed(s1, true);
    assert Enabled(st, WriteManifest(false, st.manifest));
    assert Enabled(s1, Commit(true));
    assert Enabled(s2, RemoveStart) by { CommittedIdle(s1); }
    hide Enabled, ManifestWritten, Committed, Doomed;
    OneMore(s2, RemoveStart, [], Doomed(s2));
    OneMore(s1, Commit(true), [RemoveStart], Doomed(s2));
    OneMore(st, WriteManifest(false, st.manifest), [Commit(true), RemoveStart], Doomed(s2));
    assert [RemoveStart] + [] == [RemoveStart] && [Commit(true)] + [RemoveStart] == [Commit(true), RemoveStart];
    steps := [WriteManifest(false, st.manifest)] + [Commit(true), RemoveStart];
  }

  lemma CommittedIdle(st: State)
    requires st.job.Committing? && !st.bgError
    ensures Committed(st, true).job.NoJob? && !Committed(st, true).bgError
  {
    hide MergeBelow, Contents;
  }

  /** What the misled state shares with the one before, and what it has doomed. */
  lemma MisledFlush(st: State)
    requires FlushesUncleanly(st)
    ensures var s3 := Misled(st);
            && s3.job.Removing? && s3.job.logs == (set n | n in st.logs && n < st.logfile)
            && s3 == st.(job := s3.job, current := s3.current, logNumber := s3.logNumber, imm := None, merge := s3.merge)
  {
    hide WritesOk, MemOk, LayersOk, GroupsOk, StampsOk, SnapsOk, LogsOk, ReadersOk, MergeOk, SequenceOk, FilesOk;
    hide InUse, MergeBelow, Contents;
  }

  /** All doomed logs can be removed. */
  lemma {:induction false} RemovesLogs(st: State, logs: set<nat>) returns (steps: seq<Step>)
    requires st.job.Removing? && logs <= st.job.logs
    ensures Runs(st, steps, st.(logs := st.logs - logs)) && forall step :: step in steps ==> step.RemoveLog?
    decreases |logs|
  {
    if logs == {} {
      steps := [];
      assert st.logs - {} == st.logs;
    } else {
      var n :| n in logs;
      var next := st.(logs := st.logs - {n});
      assert Enabled(st, RemoveLog(n)) && Next(st, RemoveLog(n)) == next;
      hide Enabled, Next;
      var rest := RemovesLogs(next, logs - {n});
      assert st.logs - {n} - (logs - {n}) == st.logs - logs;
      OneMore(st, RemoveLog(n), rest, st.(logs := st.logs - logs));
      steps := [RemoveLog(n)] + rest;
    }
  }

  /** The disk then holds what the manifest listed before, and only the current log. */
  lemma FlushLost(st: State, logs: map<nat, Entries>, e: Entry)
    requires FlushesUncleanly(st) && e in Imm(st) && logs == st.logs - (set n | n in st.logs && n < st.logfile)
    ensures e !in Contents(st.tables, st.disk.files) && forall from :: e !in LogContents(logs, from)
    ensures e in Elements(st.hist)
    ensures forall n :: n in logs ==> n == st.logfile
  {
    hide Inv, Contents, LogContents, Settled, InLog, Imm, Standing;
    NoFlushStands(st, e);
    OnDisk(st);
    Apart(st);
    LogFacts(st);
    forall from ensures e !in LogContents(logs, from) {
      OnlyLog(logs, st.logfile, from);
    }
  }

  lemma OnlyLog(logs: map<nat, Entries>, n: nat, from: nat)
    requires forall m :: m in logs ==> m == n
    ensures n in logs ==> LogContents(logs, from) <= logs[n]
    ensures n !in logs ==> LogContents(logs, from) == {}
  {
  }

  lemma NoFlushStands(st: State, e: Entry)
    requires FlushesUncleanly(st) && e in Imm(st)
    ensures !FlushStands(st)
  {
    hide WritesOk, MemOk, LayersOk, GroupsOk, StampsOk, SnapsOk, LogsOk, ReadersOk, MergeOk, SequenceOk, FilesOk;
    NoContents(st.tables);
    assert st.extra + Flushed(st.job) == {};
    hide Contents, Imm;
  }

  /** An open that finds no entry e on disk has none. */
  lemma OpensWithout(st: State, e: Entry) returns (step: Step)
    requires forall n :: n in st.logs ==> n < st.nextFile
    requires st.disk.files <= st.tables.Keys && st.disk.nextFile <= st.nextFile
    requires forall n :: n in st.disk.files ==> n < st.disk.nextFile
    requires e !in Contents(st.tables, st.disk.files) && e !in LogContents(st.logs, st.disk.logNumber)
    requires InUseOnDisk(st)
    ensures step.Recover? && Enabled(st, step) && Legible(step)
    ensures var end := Next(st, step); e !in Mem(end) && e !in Imm(end) && e !in Current(end)
    ensures Next(st, step).hist == Survived(st)
  {
    hide Contents, LogContents, Keep, KeepEach, Missing;
    var logged := LogContents(Found(st.logs, st.unread), st.disk.logNumber);
    FoundContents(st.logs, st.unread, st.disk.logNumber);
    var top := Largest(logged, st.disk.lastSeq);
    var n := st.nextFile;
    var parts := map[n := logged];
    OneTable(parts, n);
    assert parts.Keys == {n};
    step := Recover(parts, false, false, Fresh, n + 1, n + 2, top);
    ReopenedTables(st.tables, st.disk.files, parts);
  }

  /**
   * From every state that is about to write a flush edit to an unclean manifest, there is a run in which the edit cannot
   * be read back, the flush is installed, the old logs are removed, and the process crashes; all further steps are
   * sound, no log misses the operation, and the reopened database has lost it.
   */
  lemma {:induction false} UncleanFlushLoses(before: seq<Step>, st: State, e: Entry)
    returns (steps: seq<Step>, last: State, open: Step)
    requires Runs(Created(), before, st) && Careful(before)
    requires WritingManifest(st.job) && st.job.flush && !st.bgError && !st.manifest.Clean?
    requires e in Imm(st) && e !in st.unread
    ensures Runs(st, steps, last) && steps != [] && steps[0].WriteManifest? && Careful(steps[1..])
    ensures open.Recover? && Enabled(last, open) && Legible(open)
    ensures e in st.hist && e !in Missing(last)
    ensures var end := Next(last, open);
            e in end.hist && e !in Mem(end) && e !in Imm(end) && e !in Current(end)
  {
    hide Runs, Inv, Enabled, Next, Imm, Contents, LogContents, Doomed, Committed, Missing, Mem, Current, Misled;
    CreatedOk();
    RunKeeps(Created(), before, st);
    steps := MisledRuns(st);
    MisledFlush(st);
    var s3 := Misled(st);
    var doomed := set n | n in st.logs && n < st.logfile;
    var more := RemovesLogs(s3, doomed);
    last := s3.(logs := st.logs - doomed);
    RunsJoin(st, steps, s3, more, last);
    FlushLost(st, last.logs, e);
    LogFacts(st);
    DiskInUse(st);
    FewerLogs(st.logs, doomed, st.disk.logNumber);
    ManifestFiles(st);
    open := OpensWithout(last, e);
    NotMissing(last, e);
    KeepIs(last.hist + LoggedGroup(last.phase, last.pend), Missing(last));
    ElementsOf(last.hist, LoggedGroup(last.phase, last.pend));
    SurvivedUnfolds(last);
    assert e in Elements(Survived(last));
    RestIsCareful(steps, more);
    steps := steps + more;
  }

  lemma FewerLogs(logs: map<nat, Entries>, gone: set<nat>, from: nat)
    ensures LogContents(logs - gone, from) <= LogContents(logs, from)
  {
    forall e | e in LogContents(logs - gone, from) ensures e in LogContents(logs, from) {
      var n :| n in logs - gone && n >= from && e in (logs - gone)[n];
      assert n in logs && e in logs[n];
    }
  }

  lemma NotMissing(st: State, e: Entry)
    requires e !in st.unread
    ensures e !in Missing(st)
  {
  }

  lemma RestIsCareful(steps: seq<Step>, more: seq<Step>)
    requires |steps| == 3 && steps[1] == Commit(true) && steps[2] == RemoveStart && forall step :: step in more ==> step.RemoveLog?
    ensures Careful((steps + more)[1..])
  {
    assert (steps + more)[1..] == [steps[1], steps[2]] + more;
  }

  /**
   * From every state that is about to write a compaction edit to an unclean manifest, there is a run in which the edit
   * cannot be read back and an input that no reader holds is deleted: the manifest still lists it, so no open succeeds.
   */
  lemma {:induction false} UncleanMergeBlocks(before: seq<Step>, st: State, n: nat) returns (steps: seq<Step>, last: State)
    requires Runs(Created(), before, st) && Careful(before)
    requires WritingManifest(st.job) && !st.job.flush && !st.bgError && !st.manifest.Clean?
    requires n in Inputs(st.merge) && forall id :: id in st.readers ==> n !in st.readers[id].version
    ensures Runs(st, steps, last) && steps != [] && steps[0].WriteManifest? && Careful(steps[1..])
    ensures n in last.disk.files && n !in last.tables
  {
    hide Runs, Inv, Misled;
    CreatedOk();
    RunKeeps(Created(), before, st);
    steps := MisledRuns(st);
    InputDoomed(st, n);
    var s3 := Misled(st);
    hide Doomed, Committed, Next, Enabled;
    last := s3.(tables := s3.tables - {n});
    RunsOne(s3, RemoveTable(n));
    RunsJoin(st, steps, s3, [RemoveTable(n)], last);
    assert (steps + [RemoveTable(n)])[1..] == [Commit(true), RemoveStart, RemoveTable(n)];
    steps := steps + [RemoveTable(n)];
  }

  lemma InputDoomed(st: State, n: nat)
    requires Inv(st) && WritingManifest(st.job) && !st.job.flush && n in Inputs(st.merge)
    requires forall id :: id in st.readers ==> n !in st.readers[id].version
    ensures var s3 := Misled(st);
            && s3.job.Removing? && n in s3.job.tables && n in s3.disk.files
            && Enabled(s3, RemoveTable(n)) && Next(s3, RemoveTable(n)) == s3.(tables := s3.tables - {n})
  {
    hide WritesOk, MemOk, LayersOk, GroupsOk, StampsOk, SnapsOk, LogsOk, ReadersOk, MergeOk, SequenceOk;
    hide Contents, MergeBelow;
  }
}
