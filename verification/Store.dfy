/**
 * The database as a transition system: group writes that insert with the mutex released, memtable switches,
 * flushes, compactions, obsolete-file removal, reads, crashes and recovery (db_impl.c, version_set.c).
 * Every step is what happens while the mutex is held once, or one file operation while it is released.
 */
module Store {
  import opened Bytes
  import opened Mvcc
  import opened Snapshots
  import opened Compaction
  import opened LogTail

  type Entries = set<Entry>

  /** The write group in progress: being logged, being inserted, or logged but lost to a failed sync. */
  datatype Phase = Idle | Logging | Inserting(done: nat) | Lost

  datatype Stage = Start | MissedMem | MissedImm | Done(result: Option<Bytes>)

  /** A get: what it captured under the mutex, and how far it has looked. */
  datatype Reader = Reader(key: Bytes, seqno: nat, mem: nat, imm: Option<nat>, version: set<nat>, stage: Stage)

  datatype Edit = Edit(add: set<nat>, remove: set<nat>, logNumber: nat, lastSeq: nat, nextFile: nat)

  /** What the one background thread is doing. Stuck: a compaction whose manifest write failed. */
  datatype Job =
    | NoJob
    | Building(table: nat)
    | Committing(edit: Edit, flush: bool, written: bool)
    | Stuck(edit: Edit, written: bool)
    | Removing(tables: set<nat>, logs: set<nat>)

  /** A compaction in progress, with where its inputs sit among the other tables. */
  datatype Merge = Merge(inputs: set<nat>, run: seq<Entry>, floor: nat, isBase: Bytes -> bool,
                         outs: set<nat>, newer: Entries, deeper: Entries)

  /**
   * How an append to the log ends: the record is there, and will be read back or not, or it is not there whole; and the
   * tail it leaves. LogLife says which of these an append has, from the bytes.
   */
  datatype Outcome = Wrote(shown: bool, after: Tail) | Failed(after: Tail)

  /** The manifest of a reopened database: a new one, or the old one, torn or not, with or without an edit appended. */
  datatype Manifest = Fresh | Appended(torn: bool, after: Tail) | Untouched(torn: bool)

  /** What the manifest says. */
  datatype Disk = Disk(files: set<nat>, logNumber: nat, lastSeq: nat, nextFile: nat)

  datatype State = State(
    hist: seq<Entry>,            // every successful operation, in sequence order
    groups: seq<seq<Entry>>,     // the same, by write group
    lastSeq: nat,
    phase: Phase,
    pend: seq<Entry>,            // the group in progress
    bgError: bool,
    nextFile: nat,
    mems: map<nat, Entries>,     // memtables, by the number of their log
    logfile: nat,                // the current log, and memtable
    imm: Option<nat>,
    logs: map<nat, Entries>,     // log files: everything that was appended whole
    unread: Entries,             // what of it no reader will find
    tail: Tail,                  // of the current log
    manifest: Tail,
    tables: map<nat, Entries>,   // table files
    current: set<nat>,           // the current version
    logNumber: nat,
    extra: set<nat>,             // tables the manifest may list because of a failed flush commit
    disk: Disk,
    job: Job,
    merge: Option<Merge>,
    snaps: seq<nat>,
    readers: map<nat, Reader>)

  // ---- contents ----

  ghost function Contents(tables: map<nat, Entries>, files: set<nat>): Entries {
    set n, e | n in files && n in tables && e in tables[n] :: e
  }

  /** What the logs numbered from `from` on hold. */
  ghost function LogContents(logs: map<nat, Entries>, from: nat): Entries {
    set n, e | n in logs && n >= from && e in logs[n] :: e
  }

  ghost function ImmContents(mems: map<nat, Entries>, imm: Option<nat>): Entries {
    if imm.Some? && imm.value in mems then mems[imm.value] else {}
  }

  ghost function Mem(st: State): Entries {
    if st.logfile in st.mems then st.mems[st.logfile] else {}
  }

  /** The memtable without the group in progress. */
  ghost function Settled(st: State): Entries {
    Mem(st) - Elements(st.pend)
  }

  ghost function Imm(st: State): Entries {
    ImmContents(st.mems, st.imm)
  }

  ghost function Current(st: State): Entries {
    Contents(st.tables, st.current)
  }

  /** The group in progress, once it is in the log. */
  function LoggedGroup(phase: Phase, pend: seq<Entry>): seq<Entry> {
    if phase.Inserting? || phase.Lost? then pend else []
  }

  ghost function InLog(phase: Phase, pend: seq<Entry>): Entries {
    Elements(LoggedGroup(phase, pend))
  }

  /** What readers of the log files find. */
  ghost function Found(logs: map<nat, Entries>, unread: Entries): map<nat, Entries> {
    map n | n in logs :: logs[n] - unread
  }

  /** What a process that opens the database now finds on disk. */
  ghost function Durable(st: State): Entries {
    Contents(st.tables, st.disk.files) + LogContents(Found(st.logs, st.unread), st.disk.logNumber)
  }

  /** What it should find in a log, does not, and finds in no table either. */
  ghost function Missing(st: State): Entries {
    st.unread * LogContents(st.logs, st.disk.logNumber) - Contents(st.tables, st.disk.files)
  }

  /** Operations in their order, without the missing ones. */
  ghost function Keep(ops: seq<Entry>, missing: Entries): seq<Entry> {
    if ops == [] then []
    else
      var e := ops[|ops| - 1];
      Keep(ops[..|ops| - 1], missing) + if e in missing then [] else [e]
  }

  ghost function KeepEach(groups: seq<seq<Entry>>, missing: Entries): seq<seq<Entry>> {
    if groups == [] then []
    else KeepEach(groups[..|groups| - 1], missing) + [Keep(groups[|groups| - 1], missing)]
  }

  // ---- steps ----

  datatype Step =
    | BeginGroup(ops: seq<Entry>)
    | Append(outcome: Outcome)
    | SyncFail
    | Insert
    | FinishGroup
    | Switch(closed: bool)
    | FlushStart
    | FlushBuilt(ok: bool)
    | WriteManifest(shown: bool, after: Tail)
    | Commit(ok: bool)
    | MergeStart(inputs: set<nat>, run: seq<Entry>, isBase: Bytes -> bool, newer: Entries, deeper: Entries)
    | MergeOutput(content: Entries)
    | MergeCommit
    | MergeFail
    | RemoveStart
    | RemoveTable(n: nat)
    | RemoveLog(n: nat)
    | RemoveDone
    | TakeSnapshot
    | ReleaseSnapshot(index: nat)
    | Get(id: nat, key: Bytes, snap: Option<nat>)
    | ReadMem(id: nat)
    | ReadImm(id: nat)
    | ReadTables(id: nat)
    | EndRead(id: nat)
    | Recover(parts: map<nat, Entries>, reuse: bool, torn: bool, manifest: Manifest, next: nat, counter: nat, top: nat)

  /** Numbered consecutively from the sequence after `last`. */
  predicate Consecutive(ops: seq<Entry>, last: nat) {
    forall i :: 0 <= i < |ops| ==> ops[i].seqno == last + 1 + i
  }

  /**
   * The last sequence of a recovered database: at least the manifest's and every one found in the logs; a group without
   * operations that is found there may raise it, but to no more than was in use.
   */
  ghost predicate Recovered(top: nat, manifest: nat, logged: Entries, newest: nat) {
    manifest <= top <= newest && forall e :: e in logged ==> e.seqno <= top
  }

  /** The newest sequence in use, the group in progress included. */
  function NewestUsed(st: State): nat {
    st.lastSeq + |st.pend|
  }

  /** What a file is reopened with. */
  function Reopening(torn: bool): Tail {
    if torn then Torn else Clean
  }

  /** An open may come after another that crashed in the middle of its own edit, so the manifest may always be torn. */
  predicate ManifestMayBe(tail: Tail, writing: bool, m: Manifest) {
    match m
    case Fresh => true
    case Appended(torn, after) => AfterReopening(tail, writing, torn) && AfterAppend(Reopening(torn), !torn, after)
    case Untouched(torn) => AfterReopening(tail, writing, torn)
  }

  predicate AfterReopening(tail: Tail, writing: bool, torn: bool) {
    torn || AfterCrash(tail, writing, Clean)
  }

  predicate MayEnd(tail: Tail, outcome: Outcome) {
    match outcome
    case Wrote(shown, after) => AfterAppend(tail, shown, after)
    case Failed(after) => AfterFailure(tail, after)
  }

  predicate WritingManifest(job: Job) {
    job.Committing? && !job.written
  }

  ghost predicate Enabled(st: State, step: Step) {
    match step
    case BeginGroup(ops) => st.phase.Idle? && !st.bgError && Consecutive(ops, st.lastSeq)
    case Append(outcome) => st.phase.Logging? && MayEnd(st.tail, outcome)
    case SyncFail => st.phase == Inserting(0)
    case Insert => st.phase.Inserting? && st.phase.done < |st.pend|
    case FinishGroup => st.phase == Inserting(|st.pend|)
    case Switch(_) => st.phase.Idle? && !st.bgError && st.imm.None?
    case FlushStart => st.job.NoJob? && st.imm.Some?
    case FlushBuilt(_) => st.job.Building?
    case WriteManifest(shown, after) => WritingManifest(st.job) && AfterAppend(st.manifest, shown, after)
    case Commit(ok) => st.job.Committing? && (ok ==> st.job.written)
    case MergeStart(inputs, run, isBase, newer, deeper) =>
      && st.job.NoJob? && st.merge.None? && !st.bgError && inputs <= st.current
      && Sorted(run) && Elements(run) == Contents(st.tables, inputs)
      && newer + deeper == Contents(st.tables, st.current - inputs)
      && Placed(newer, Elements(run), deeper, isBase)
    case MergeOutput(content) => st.job.NoJob? && st.merge.Some?
    case MergeCommit =>
      && st.job.NoJob? && st.merge.Some?
      && var m := st.merge.value;
         Contents(st.tables, m.outs) == Elements(Kept(m.run, m.floor, m.isBase, |m.run|))
    case MergeFail => st.job.NoJob? && st.merge.Some?
    case RemoveStart => st.job.NoJob? && !st.bgError
    case RemoveTable(n) => st.job.Removing? && n in st.job.tables
    case RemoveLog(n) => st.job.Removing? && n in st.job.logs
    case RemoveDone => st.job.Removing?
    case TakeSnapshot => true
    case ReleaseSnapshot(i) => i < |st.snaps|
    case Get(id, _, snap) => id !in st.readers && (snap.Some? ==> snap.value < |st.snaps|)
    case ReadMem(id) => id in st.readers && st.readers[id].stage.Start?
    case ReadImm(id) => id in st.readers && st.readers[id].stage.MissedMem?
    case ReadTables(id) => id in st.readers && st.readers[id].stage.MissedImm?
    case EndRead(id) => id in st.readers
    case Recover(parts, reuse, torn, manifest, next, counter, top) =>
      && Recovered(top, st.disk.lastSeq, LogContents(Found(st.logs, st.unread), st.disk.logNumber), NewestUsed(st))
      && (reuse ==> AfterCrash(st.tail, st.phase.Logging?, Reopening(torn)))
      && OpensWith(st, parts, reuse, manifest, next, counter)
  }

  /** The tables made of the logs, the log to write on, the manifest, and the numbers an open chooses. */
  ghost predicate OpensWith(st: State, parts: map<nat, Entries>, reuse: bool, manifest: Manifest, next: nat, counter: nat) {
    && (forall n :: n in parts ==> st.disk.nextFile <= n < counter)
    && st.disk.nextFile <= next < counter && (forall n :: n in st.logs ==> n < next)
    && (reuse ==> st.logfile >= st.disk.logNumber)
    && ManifestMayBe(st.manifest, WritingManifest(st.job), manifest)
    && Contents(parts, parts.Keys) == LogContents(Replayed(st, reuse), st.disk.logNumber)
    && (manifest.Untouched? ==> parts == map[])
  }

  /** What the logs that are not reused hold for an open to turn into tables. */
  ghost function Replayed(st: State, reuse: bool): map<nat, Entries> {
    Found(if reuse then st.logs - {st.logfile} else st.logs, st.unread)
  }

  ghost function Begin(st: State, ops: seq<Entry>): State {
    st.(phase := Logging, pend := ops)
  }

  /** The writer that fails to log gives up its sequence numbers. */
  ghost function Logged(st: State, outcome: Outcome): State {
    match outcome
    case Wrote(shown, after) =>
      st.(phase := Inserting(0),
          logs := st.logs[st.logfile := LogAt(st, st.logfile) + Elements(st.pend)],
          unread := if shown then st.unread else st.unread + Elements(st.pend),
          tail := after)
    case Failed(after) => st.(phase := Idle, pend := [], lastSeq := st.lastSeq + |st.pend|, tail := after)
  }

  ghost function LogAt(st: State, n: nat): Entries {
    if n in st.logs then st.logs[n] else {}
  }

  ghost function Inserted(st: State): State
    requires Enabled(st, Insert)
  {
    st.(phase := Inserting(st.phase.done + 1),
        mems := st.mems[st.logfile := Mem(st) + {st.pend[st.phase.done]}])
  }

  ghost function Finished(st: State): State {
    st.(phase := Idle, pend := [], lastSeq := st.lastSeq + |st.pend|,
        hist := st.hist + st.pend, groups := st.groups + [st.pend])
  }

  /** A new log and memtable; the old memtable becomes immutable. */
  ghost function Switched(st: State, closed: bool): State {
    st.(logfile := st.nextFile, imm := Some(st.logfile), nextFile := st.nextFile + 1,
        mems := st.mems[st.nextFile := {}], logs := st.logs[st.nextFile := {}], tail := Clean, bgError := !closed)
  }

  ghost function Built(st: State, ok: bool): State
    requires st.job.Building?
  {
    if ok then
      var n := st.job.table;
      var add := if Imm(st) == {} then {} else {n};
      st.(tables := st.tables[n := Imm(st)],
          job := Committing(Edit(add, {}, st.logfile, st.lastSeq, st.nextFile), true, false))
    else st.(job := NoJob, bgError := true)
  }

  ghost function ManifestWritten(st: State, shown: bool, after: Tail): State
    requires st.job.Committing?
  {
    var e := st.job.edit;
    var next := st.(job := Committing(e, st.job.flush, true), manifest := after);
    if shown then next.(disk := Disk(st.disk.files - e.remove + e.add, e.logNumber, e.lastSeq, e.nextFile)) else next
  }

  ghost function Committed(st: State, ok: bool): State
    requires st.job.Committing?
  {
    var e := st.job.edit;
    if ok then
      var next := st.(current := st.current - e.remove + e.add, logNumber := e.logNumber, job := NoJob);
      if st.job.flush then next.(imm := None, merge := MergeBelow(st.merge, Contents(st.tables, e.add)))
      else next.(merge := None)
    else
      var failed := st.(bgError := true, manifest := if st.job.written then st.manifest else Skewed);
      if st.job.flush then failed.(job := NoJob, extra := st.extra + if st.job.written then e.add else {})
      else failed.(job := Stuck(e, st.job.written))
  }

  /** A flush during a compaction puts its table above the compaction's inputs. */
  ghost function MergeBelow(merge: Option<Merge>, flushed: Entries): Option<Merge> {
    if merge.Some? then Some(merge.value.(newer := merge.value.newer + flushed)) else None
  }

  ghost function MergeOutputAdded(st: State, content: Entries): State
    requires st.merge.Some?
  {
    st.(tables := st.tables[st.nextFile := content], nextFile := st.nextFile + 1,
        merge := Some(st.merge.value.(outs := st.merge.value.outs + {st.nextFile})))
  }

  ghost function Outputs(merge: Option<Merge>): set<nat> {
    if merge.Some? then merge.value.outs else {}
  }

  ghost predicate InUse(st: State, n: nat) {
    n in st.current || n in Outputs(st.merge) || exists id :: id in st.readers && n in st.readers[id].version
  }

  /** First half of ldb_remove_obsolete_files: what nothing references any more. */
  ghost function Doomed(st: State): State {
    st.(job := Removing(set n | n in st.tables && !InUse(st, n), set n | n in st.logs && n < st.logNumber))
  }

  ghost function Captured(st: State, id: nat, key: Bytes, snap: Option<nat>): State
    requires snap.Some? ==> snap.value < |st.snaps|
  {
    var s := if snap.Some? then st.snaps[snap.value] else st.lastSeq;
    st.(readers := st.readers[id := Reader(key, s, st.logfile, st.imm, st.current, Start)])
  }

  ghost function Looked(st: State, id: nat, from: Entries, missed: Stage): State
    requires id in st.readers
  {
    var r := st.readers[id];
    var stage := if exists e :: Seen(from, r.key, r.seqno, e) then Done(Answer(from, r.key, r.seqno)) else missed;
    st.(readers := st.readers[id := r.(stage := stage)])
  }

  ghost function MemAt(st: State, n: nat): Entries {
    if n in st.mems then st.mems[n] else {}
  }

  /** ldb_open after a crash, at any moment: what is volatile is gone, the logs are replayed. */
  ghost function Reopened(st: State, parts: map<nat, Entries>, reuse: bool, torn: bool, manifest: Manifest,
                          next: nat, counter: nat, top: nat): State
  {
    var group := LoggedGroup(st.phase, st.pend);
    var found := Found(st.logs, st.unread);
    var logfile := if reuse then st.logfile else next;
    var mem := if reuse && st.logfile in found then found[st.logfile] else {};
    var files := st.disk.files + parts.Keys;
    State(
      Keep(st.hist + group, Missing(st)), KeepEach(st.groups + [group], Missing(st)), top, Idle, [], false, counter,
      map[logfile := mem], logfile, None,
      if reuse then found else found[next := {}],
      {},
      if reuse then Reopening(torn) else Clean,
      match manifest { case Fresh => Clean case Appended(_, after) => after case Untouched(t) => Reopening(t) },
      (map n | n in st.tables && n in st.disk.files :: st.tables[n]) + parts,
      files,
      if manifest.Untouched? then st.disk.logNumber else logfile,
      {},
      if manifest.Fresh? || (manifest.Appended? && !manifest.torn) then Disk(files, logfile, top, counter) else st.disk,
      NoJob, None, [], map[])
  }

  ghost function Next(st: State, step: Step): State
    requires Enabled(st, step)
  {
    match step
    case BeginGroup(ops) => Begin(st, ops)
    case Append(outcome) => Logged(st, outcome)
    case SyncFail => st.(phase := Lost, bgError := true, lastSeq := st.lastSeq + |st.pend|)
    case Insert => Inserted(st)
    case FinishGroup => Finished(st)
    case Switch(closed) => Switched(st, closed)
    case FlushStart => st.(job := Building(st.nextFile), nextFile := st.nextFile + 1)
    case FlushBuilt(ok) => Built(st, ok)
    case WriteManifest(shown, after) => ManifestWritten(st, shown, after)
    case Commit(ok) => Committed(st, ok)
    case MergeStart(inputs, run, isBase, newer, deeper) =>
      st.(merge := Some(Merge(inputs, run, Floor(st.snaps, st.lastSeq), isBase, {}, newer, deeper)))
    case MergeOutput(content) => MergeOutputAdded(st, content)
    case MergeCommit =>
      var m := st.merge.value;
      st.(job := Committing(Edit(m.outs, m.inputs, st.logNumber, st.lastSeq, st.nextFile), false, false))
    case MergeFail => st.(merge := None, bgError := true)
    case RemoveStart => Doomed(st)
    case RemoveTable(n) => st.(tables := st.tables - {n})
    case RemoveLog(n) => st.(logs := st.logs - {n})
    case RemoveDone => st.(job := NoJob)
    case TakeSnapshot => st.(snaps := st.snaps + [st.lastSeq])
    case ReleaseSnapshot(i) => st.(snaps := st.snaps[..i] + st.snaps[i + 1..])
    case Get(id, key, snap) => Captured(st, id, key, snap)
    case ReadMem(id) => Looked(st, id, MemAt(st, st.readers[id].mem), MissedMem)
    case ReadImm(id) => Looked(st, id, ImmContents(st.mems, st.readers[id].imm), MissedImm)
    case ReadTables(id) =>
      Looked(st, id, Contents(st.tables, st.readers[id].version), Done(None))
    case EndRead(id) => st.(readers := st.readers - {id})
    case Recover(parts, reuse, torn, manifest, next, counter, top) =>
      Reopened(st, parts, reuse, torn, manifest, next, counter, top)
  }
}
