/**
 * The database with its log files as bytes: what a log gives back, and the tail it has, are no longer choices of the
 * transition system but follow from everything that was written to the file (db_impl.c, log_writer.c, log_reader.c).
 */
module StoreLog {
  import opened Bytes
  import opened Mvcc
  import opened WriteBatch
  import opened LogTail
  import Format
  import LogFormat
  import LogReader
  import Memtable
  import S = Store
  import Safety = StoreSafety
  import Recovery = StoreRecovery
  import Life = LogLife
  import Replay = LogReplay

  /** What happened to one log file, group by group. */
  datatype Event =
    | Wrote(group: Replay.Group)
    | Failed(group: Replay.Group, kept: nat)
    | Crashed(group: Replay.Group, kept: nat)

  function RecordOf(g: Replay.Group): Bytes {
    Rep(g.first, g.ops)
  }

  function AsBytes(event: Event): Life.Event {
    match event
    case Wrote(g) => Life.Append(RecordOf(g))
    case Failed(g, kept) => Life.Fail(RecordOf(g), kept)
    case Crashed(g, kept) => Life.Crash(RecordOf(g), kept)
  }

  function AllAsBytes(events: seq<Event>): (r: seq<Life.Event>)
    ensures |r| == |events|
  {
    seq(|events|, i requires 0 <= i < |events| => AsBytes(events[i]))
  }

  /** The file that these events make. */
  function FileOf(events: seq<Event>): (r: Life.Log)
    ensures r.offset <= LogFormat.BLOCK
  {
    Life.Run(Life.NEW, AllAsBytes(events))
  }

  /** Will a group that is appended to this file come back? */
  predicate ComesBack(log: Life.Log, g: Replay.Group)
    requires log.offset <= LogFormat.BLOCK
  {
    Life.Good(log.inStep, |log.file|, log.offset, RecordOf(g))
  }

  /** The groups that come back. */
  function Shown(events: seq<Event>): seq<Replay.Group> {
    if events == [] then []
    else
      var front, event := events[..|events| - 1], events[|events| - 1];
      Shown(front) + if event.Wrote? && ComesBack(FileOf(front), event.group) then [event.group] else []
  }

  lemma FileGrows(events: seq<Event>, event: Event)
    ensures FileOf(events + [event]) == Life.Next(FileOf(events), AsBytes(event))
    ensures Life.Valid(FileOf(events))
    ensures Life.Back(Life.NEW, AllAsBytes(events + [event]))
         == Life.Back(Life.NEW, AllAsBytes(events)) + Life.Back(FileOf(events), [AsBytes(event)])
  {
    hide Life.Next, Life.Good, Life.Back, Life.Valid;
    assert AllAsBytes(events + [event]) == AllAsBytes(events) + [AsBytes(event)];
    Life.NewIsValid();
    Life.RunJoins(Life.NEW, AllAsBytes(events), [AsBytes(event)]);
    Life.RunIsValid(Life.NEW, AllAsBytes(events));
    assert Life.Run(FileOf(events), [AsBytes(event)]) == Life.Next(FileOf(events), AsBytes(event)) by {
      OneEvent(FileOf(events), AsBytes(event));
    }
  }

  lemma OneEvent(log: Life.Log, event: Life.Event)
    requires log.offset <= LogFormat.BLOCK
    ensures Life.Run(log, [event]) == Life.Next(log, event)
    ensures Life.Back(log, [event])
         == if event.Append? && Life.Good(log.inStep, |log.file|, log.offset, event.data) then [event.data] else []
  {
    hide Life.Next, Life.Good;
    assert [event][1..] == [];
  }

  lemma ShownGrows(events: seq<Event>, event: Event)
    ensures Shown(events + [event])
         == Shown(events) + if event.Wrote? && ComesBack(FileOf(events), event.group) then [event.group] else []
  {
    hide FileOf, ComesBack;
    assert (events + [event])[..|events|] == events;
  }

  /** The records that come back are those of the groups that do. */
  lemma {:induction false} ShownIsBack(events: seq<Event>)
    ensures Life.Back(Life.NEW, AllAsBytes(events)) == Replay.LogRecords(Shown(events))
    decreases |events|
  {
    hide Rep, FileOf, Life.Good, Life.Next, Life.Run;
    if events == [] {
      NoRecords();
    } else {
      var front, event := events[..|events| - 1], events[|events| - 1];
      assert events == front + [event];
      ShownIsBack(front);
      FileGrows(front, event);
      OneEvent(FileOf(front), AsBytes(event));
      ShownGrows(front, event);
      var more := if event.Wrote? && ComesBack(FileOf(front), event.group) then [event.group] else [];
      Replay.JoinedRecords(Shown(front), more);
    }
  }

  lemma NoRecords()
    ensures Life.Back(Life.NEW, AllAsBytes([])) == Replay.LogRecords(Shown([]))
  {
  }

  // ---- the database and its files ----

  /** The database, what happened to each of its log files, and the group being written. */
  datatype State = State(store: S.State, lives: map<nat, seq<Event>>, writing: Replay.Group)

  /** A failed append or a crash says how much of the group being written is in the log. */
  datatype Step =
    | Begin(ops: seq<Op>)
    | Append
    | FailAppend(kept: nat)
    | Reopen(parts: map<nat, S.Entries>, reuse: bool, manifest: S.Manifest, next: nat, counter: nat, top: nat, kept: nat)
    | Other(s: S.Step)

  /** What happened to a log. */
  function EventsOf(lives: map<nat, seq<Event>>, n: nat): seq<Event> {
    if n in lives then lives[n] else []
  }

  /** What happened to the log being written, and its file. */
  function LogEvents(st: State): seq<Event> {
    EventsOf(st.lives, st.store.logfile)
  }

  function LogNow(st: State): (r: Life.Log)
    ensures r.offset <= LogFormat.BLOCK
  {
    FileOf(LogEvents(st))
  }

  /** The current log after one more event. */
  function LogThen(st: State, event: Event): Life.Log {
    Life.Next(LogNow(st), AsBytes(event))
  }

  /** The step of the database: what the append comes to, and the tail it leaves, are what the bytes say. */
  ghost function StoreStep(st: State, step: Step): S.Step {
    match step
    case Begin(ops) => S.BeginGroup(Numbered(ops, st.store.lastSeq + 1))
    case Append => S.Append(S.Wrote(ComesBack(LogNow(st), st.writing), TailOf(LogThen(st, Wrote(st.writing)))))
    case FailAppend(kept) => S.Append(S.Failed(TailOf(LogThen(st, Failed(st.writing, kept)))))
    case Reopen(parts, reuse, manifest, next, counter, top, kept) =>
      S.Recover(parts, reuse, TailOf(LogThen(st, Crashed(st.writing, kept))).Torn?, manifest, next, counter, top)
    case Other(s) => s
  }

  function TailOf(log: Life.Log): Tail {
    Life.TailOf(log)
  }

  /** The last sequence that replaying the logs comes to: the largest of the manifest's and theirs (db_impl.c:1081-1082). */
  ghost predicate IsTop(st: State, top: nat) {
    && st.store.disk.lastSeq <= top
    && (forall n :: n in st.store.logs && n >= st.store.disk.logNumber ==> LastIn(st, n) <= top)
    && (top == st.store.disk.lastSeq
        || exists n :: n in st.store.logs && n >= st.store.disk.logNumber && LastIn(st, n) == top)
  }

  function LastIn(st: State, n: nat): nat {
    Replay.MaxSequence(Shown(EventsOf(st.lives, n)))
  }

  /** Nothing is asked of how an append ends, or of what a crash leaves in the file. */
  ghost predicate Enabled(st: State, step: Step) {
    match step
    case Begin(ops) =>
      st.store.phase.Idle? && !st.store.bgError && Replay.GroupFits(Replay.Group(st.store.lastSeq + 1, ops))
    case Append => st.store.phase.Logging?
    case FailAppend(_) => st.store.phase.Logging?
    case Reopen(parts, reuse, manifest, next, counter, top, kept) =>
      && (kept > 0 ==> st.store.phase.Logging?) && IsTop(st, top)
      && S.OpensWith(st.store, parts, reuse, manifest, next, counter)
    case Other(s) => !s.BeginGroup? && !s.Append? && !s.Recover? && S.Enabled(st.store, s)
  }

  ghost function LivesAfter(st: State, step: Step): map<nat, seq<Event>> {
    var n := st.store.logfile;
    match step
    case Begin(_) => st.lives
    case Append => st.lives[n := LogEvents(st) + [Wrote(st.writing)]]
    case FailAppend(kept) => st.lives[n := LogEvents(st) + [Failed(st.writing, kept)]]
    case Reopen(_, reuse, _, next, _, _, kept) =>
      var closed := st.lives[n := LogEvents(st) + [Crashed(st.writing, kept)]];
      if reuse then closed else closed[next := []]
    case Other(s) =>
      match s {
        case Switch(_) => st.lives[st.store.nextFile := []]
        case RemoveLog(m) => st.lives - {m}
        case _ => st.lives
      }
  }

  /** A step is always one of the database's (StepAllowed). */
  ghost function Next(st: State, step: Step): State {
    var s := StoreStep(st, step);
    State(if S.Enabled(st.store, s) then S.Next(st.store, s) else st.store, LivesAfter(st, step),
          if step.Begin? then Replay.Group(st.store.lastSeq + 1, step.ops) else st.writing)
  }

  // ---- the database and its files agree ----

  /** No logged group has a sequence number from here on. */
  function Unused(store: S.State): nat {
    store.lastSeq + 1 + if store.phase.Logging? then 0 else |store.pend|
  }

  /** The groups that come back are what the database says is found, in order and below `unused`. */
  ghost predicate LogOk(events: seq<Event>, found: S.Entries, unused: nat) {
    var groups := Shown(events);
    && Replay.Entries(groups) == found && Replay.Loggable(groups)
    && forall i :: 0 <= i < |groups| ==> groups[i].first + |groups[i].ops| <= unused
  }

  ghost predicate LogsOk(lives: map<nat, seq<Event>>, found: map<nat, S.Entries>, from: nat, unused: nat) {
    forall n :: n in found && n >= from ==> n in lives && LogOk(lives[n], found[n], unused)
  }

  ghost predicate WritingOk(store: S.State, writing: Replay.Group) {
    store.phase.Logging? ==>
      store.pend == Numbered(writing.ops, writing.first) && writing.first == store.lastSeq + 1 && Replay.GroupFits(writing)
  }

  /** Every log the database may still need is, byte for byte, what it believes it to be. */
  ghost predicate Linked(st: State) {
    && LogsOk(st.lives, S.Found(st.store.logs, st.store.unread), st.store.logNumber, Unused(st.store))
    && st.store.tail == TailOf(LogNow(st))
    && WritingOk(st.store, st.writing)
  }

  // ---- what the bytes do is allowed ----

  lemma LogIsValid(events: seq<Event>)
    ensures Life.Valid(FileOf(events))
  {
    hide Life.Valid;
    Life.NewIsValid();
    Life.RunIsValid(Life.NEW, AllAsBytes(events));
  }

  lemma AppendAllowed(st: State)
    requires Linked(st) && Enabled(st, Append)
    ensures S.Enabled(st.store, StoreStep(st, Append))
  {
    hide LogsOk, WritingOk, FileOf, Life.Next, Life.Good, Life.TailOf, Life.Valid, Rep;
    LogIsValid(LogEvents(st));
    Life.RulesHold(LogNow(st), AsBytes(Wrote(st.writing)));
  }

  lemma FailAllowed(st: State, kept: nat)
    requires Linked(st) && Enabled(st, FailAppend(kept))
    ensures S.Enabled(st.store, StoreStep(st, FailAppend(kept)))
  {
    hide LogsOk, WritingOk, FileOf, Life.Next, Life.Good, Life.TailOf, Life.Valid, Rep;
    LogIsValid(LogEvents(st));
    Life.RulesHold(LogNow(st), AsBytes(Failed(st.writing, kept)));
  }

  lemma CrashTail(st: State, kept: nat)
    requires Linked(st) && (kept > 0 ==> st.store.phase.Logging?)
    ensures AfterCrash(st.store.tail, st.store.phase.Logging?, TailOf(LogThen(st, Crashed(st.writing, kept))))
  {
    hide LogsOk, WritingOk, FileOf, Life.Next, Life.Good, Life.TailOf, Life.Valid, Rep;
    LogIsValid(LogEvents(st));
    Life.RulesHold(LogNow(st), AsBytes(Crashed(st.writing, kept)));
    if kept == 0 {
      NothingKept(LogNow(st), RecordOf(st.writing));
    }
  }

  lemma NothingKept(log: Life.Log, data: Bytes)
    requires log.offset <= LogFormat.BLOCK
    ensures Life.Emitted(log, Life.Crash(data, 0)) == []
  {
  }

  lemma MaxIs(groups: seq<Replay.Group>)
    ensures forall i :: 0 <= i < |groups| ==> groups[i].first + |groups[i].ops| <= Replay.MaxSequence(groups) + 1
    ensures Replay.MaxSequence(groups) == 0
            || exists i :: 0 <= i < |groups| && groups[i].first + |groups[i].ops| == Replay.MaxSequence(groups) + 1
  {
    if groups != [] {
      var front, g := groups[..|groups| - 1], groups[|groups| - 1];
      MaxIs(front);
      forall i | 0 <= i < |groups| ensures groups[i].first + |groups[i].ops| <= Replay.MaxSequence(groups) + 1 {
        assert i < |front| ==> groups[i] == front[i];
      }
      if Replay.MaxSequence(groups) != 0 && g.first + |g.ops| != Replay.MaxSequence(groups) + 1 {
        var i :| 0 <= i < |front| && front[i].first + |front[i].ops| == Replay.MaxSequence(front) + 1;
        assert groups[i] == front[i];
      }
    }
  }

  /** What replaying one log accounts for: every operation in it, and nothing that is not in use. */
  lemma LogIsUsed(events: seq<Event>, found: S.Entries, unused: nat)
    requires LogOk(events, found, unused) && unused > 0
    ensures var last := Replay.MaxSequence(Shown(events));
            && last < unused && (forall e :: e in found ==> e.seqno <= last)
            && forall i :: 0 <= i < |Shown(events)| ==> Shown(events)[i].first + |Shown(events)[i].ops| <= last + 1
  {
    hide Shown, Replay.Entries, Replay.MaxSequence, Replay.Loggable;
    var groups := Shown(events);
    MaxIs(groups);
    Replay.EntriesBelow(groups, Replay.MaxSequence(groups) + 1);
  }

  /** The last sequence that replaying comes to is one the database may reopen with. */
  lemma TopIsRecovered(st: State, top: nat)
    requires Safety.Inv(st.store) && Linked(st) && IsTop(st, top)
    ensures S.Recovered(top, st.store.disk.lastSeq, Recovery.FoundInLogs(st.store), S.NewestUsed(st.store))
  {
    hide Safety.Inv, LogOk, Shown, Replay.MaxSequence, S.Contents, WritingOk, LogNow, Life.TailOf;
    var store := st.store;
    var found := S.Found(store.logs, store.unread);
    Recovery.OnDisk(store);
    Recovery.LogFacts(store);
    Recovery.DiskInUse(store);
    DiskFrom(store);
    forall n | n in found && n >= store.disk.logNumber
      ensures LastIn(st, n) <= S.NewestUsed(store) && forall e: Entry :: e in found[n] ==> e.seqno <= LastIn(st, n)
    {
      assert LogOk(st.lives[n], found[n], Unused(store));
      LogIsUsed(st.lives[n], found[n], Unused(store));
    }
    forall e | e in S.LogContents(found, store.disk.logNumber) ensures e.seqno <= top {
      var n :| n in found && n >= store.disk.logNumber && e in found[n];
      assert LastIn(st, n) <= top;
    }
  }

  lemma DiskFrom(store: S.State)
    requires Safety.Inv(store)
    ensures store.logNumber <= store.disk.logNumber <= store.logfile
  {
    hide Safety.Inv;
    Recovery.LogFacts(store);
    Recovery.OnDisk(store);
    if Recovery.FlushStands(store) {
      Recovery.ExtraRepeats(store);
    }
  }

  lemma ReopenAllowed(st: State, step: Step)
    requires Safety.Inv(st.store) && Linked(st) && step.Reopen? && Enabled(st, step)
    ensures S.Enabled(st.store, StoreStep(st, step))
  {
    hide Safety.Inv, Linked, IsTop, LogThen, TailOf, S.Recovered, S.OpensWith;
    CrashTail(st, step.kept);
    TopIsRecovered(st, step.top);
  }

  lemma BeginAllowed(st: State, ops: seq<Op>)
    requires Enabled(st, Begin(ops))
    ensures S.Enabled(st.store, StoreStep(st, Begin(ops)))
  {
    NumberedIs(ops, st.store.lastSeq + 1);
  }

  /** Whatever an append leaves in the file and whatever a crash cuts off, the database's rules for steps allow it. */
  lemma StepAllowed(st: State, step: Step)
    requires Safety.Inv(st.store) && Linked(st) && Enabled(st, step)
    ensures S.Enabled(st.store, StoreStep(st, step))
  {
    hide Safety.Inv, Linked;
    match step {
      case Begin(ops) => BeginAllowed(st, ops);
      case Append => AppendAllowed(st);
      case FailAppend(kept) => FailAllowed(st, kept);
      case Reopen(_, _, _, _, _, _, _) => ReopenAllowed(st, step);
      case Other(s) =>
    }
  }

  // ---- every step keeps files and database in agreement ----

  /** Nothing that the logs are about changes, but for logs that are no longer needed. */
  ghost predicate SameLogs(a: S.State, b: S.State) {
    && b.logs == a.logs && b.unread == a.unread && b.logfile == a.logfile && b.tail == a.tail && a.logNumber <= b.logNumber
    && (b.phase.Logging? ==> a.phase.Logging? && b.pend == a.pend && b.lastSeq == a.lastSeq)
    && Unused(a) <= Unused(b)
  }

  ghost predicate TouchesLogs(s: S.Step) {
    s.BeginGroup? || s.Append? || s.Recover? || s.Switch? || s.RemoveLog?
  }

  lemma OthersSameLogs(store: S.State, s: S.Step)
    requires Safety.Inv(store) && S.Enabled(store, s) && !TouchesLogs(s)
    ensures SameLogs(store, S.Next(store, s))
  {
    hide Safety.Inv, S.Enabled, S.Next, SameLogs;
    if s.Commit? {
      CommitSameLogs(store, s.ok);
    } else if Recovery.Reads(s) {
      ReadersSameLogs(store, s);
    } else if Recovery.Writes(s) {
      WritersSameLogs(store, s);
    } else {
      BackgroundSameLogs(store, s);
    }
  }

  lemma ReadersSameLogs(store: S.State, s: S.Step)
    requires S.Enabled(store, s) && Recovery.Reads(s)
    ensures SameLogs(store, S.Next(store, s))
  {
    hide S.Begin, S.Logged, S.Inserted, S.Finished, S.Switched, S.Built, S.ManifestWritten, S.Committed, S.Doomed;
    hide S.MergeOutputAdded, S.Reopened, S.Contents, S.ImmContents, S.MemAt, S.LogContents;
  }

  lemma WritersSameLogs(store: S.State, s: S.Step)
    requires S.Enabled(store, s) && Recovery.Writes(s) && !TouchesLogs(s)
    ensures SameLogs(store, S.Next(store, s))
  {
    hide S.Built, S.ManifestWritten, S.Committed, S.Doomed, S.MergeOutputAdded, S.Reopened, S.Captured, S.Looked;
    hide S.Contents, S.LogContents, S.Mem;
  }

  lemma BackgroundSameLogs(store: S.State, s: S.Step)
    requires S.Enabled(store, s) && !Recovery.Reads(s) && !Recovery.Writes(s) && !TouchesLogs(s) && !s.Commit?
    ensures SameLogs(store, S.Next(store, s))
  {
    hide S.Begin, S.Logged, S.Inserted, S.Finished, S.Switched, S.Committed, S.Reopened, S.Captured, S.Looked;
    hide S.Built, S.ManifestWritten, S.Doomed, S.MergeOutputAdded;
    hide S.Contents, S.LogContents, S.Imm, S.Mem, S.OpensWith, S.Recovered, S.MayEnd;
    match s {
      case FlushBuilt(ok) => BuiltSameLogs(store, ok);
      case WriteManifest(shown, after) => WrittenSameLogs(store, shown, after);
      case RemoveStart => DoomedSameLogs(store);
      case MergeOutput(content) => MergedSameLogs(store, content);
      case _ =>
    }
  }

  lemma BuiltSameLogs(store: S.State, ok: bool)
    requires store.job.Building?
    ensures SameLogs(store, S.Built(store, ok))
  {
    hide S.Imm;
  }

  lemma WrittenSameLogs(store: S.State, shown: bool, after: Tail)
    requires store.job.Committing?
    ensures SameLogs(store, S.ManifestWritten(store, shown, after))
  {
  }

  lemma DoomedSameLogs(store: S.State)
    ensures SameLogs(store, S.Doomed(store))
  {
    hide S.InUse;
  }

  lemma MergedSameLogs(store: S.State, content: S.Entries)
    requires store.merge.Some?
    ensures SameLogs(store, S.MergeOutputAdded(store, content))
  {
  }

  lemma CommitSameLogs(store: S.State, ok: bool)
    requires Safety.Inv(store) && S.Enabled(store, S.Commit(ok))
    ensures SameLogs(store, S.Next(store, S.Commit(ok)))
  {
    Recovery.LogFacts(store);
    EditedLogs(store);
    CommittedSameLogs(store, ok);
    hide *;
  }

  lemma CommittedSameLogs(store: S.State, ok: bool)
    requires store.job.Committing? && store.logNumber <= store.logfile
    requires store.job.edit.logNumber == store.logfile || store.job.edit.logNumber == store.logNumber
    ensures SameLogs(store, S.Committed(store, ok))
  {
    hide S.MergeBelow, S.Contents;
  }

  lemma EditedLogs(store: S.State)
    requires Safety.Inv(store) && store.job.Committing?
    ensures store.job.edit.logNumber == store.logfile || store.job.edit.logNumber == store.logNumber
  {
    hide Safety.WritesOk, Safety.MemOk, Safety.LayersOk, Safety.GroupsOk, Safety.StampsOk, Safety.FilesOk, Safety.LogsOk;
    hide Safety.SequenceOk, Safety.MergeOk, Safety.ReadersOk, Safety.SnapsOk, S.Contents, S.LogContents;
  }

  lemma OtherLinks(st: State, s: S.Step)
    requires Safety.Inv(st.store) && Linked(st) && Enabled(st, Other(s)) && !TouchesLogs(s)
    ensures Linked(Next(st, Other(s)))
  {
    hide Safety.Inv, S.Enabled, S.Next, LogOk, FileOf, Life.TailOf;
    OthersSameLogs(st.store, s);
    assert LivesAfter(st, Other(s)) == st.lives;
    LogsStayOk(st.lives, S.Found(st.store.logs, st.store.unread), st.store.logNumber,
               S.Next(st.store, s).logNumber, Unused(st.store), Unused(S.Next(st.store, s)));
  }

  lemma LogsStayOk(lives: map<nat, seq<Event>>, found: map<nat, S.Entries>, from: nat, from': nat, unused: nat, unused': nat)
    requires LogsOk(lives, found, from, unused) && from <= from' && unused <= unused'
    ensures LogsOk(lives, found, from', unused')
  {
    hide Shown, Replay.Entries, Replay.Loggable;
  }

  // ---- steps on the logs ----

  /** What of the live logs is not being written was written before. */
  lemma LogsInHistory(store: S.State)
    requires Safety.Inv(store) && store.phase.Logging?
    ensures store.logfile in store.logs && store.logNumber <= store.logfile
    ensures forall n :: n in store.logs && n >= store.logNumber ==> store.logs[n] <= Elements(store.hist)
    ensures store.unread <= Elements(store.hist) && Elements(store.hist) * Elements(store.pend) == {}
  {
    hide Safety.Inv, S.Contents, S.Settled, S.Imm, S.InLog;
    Recovery.LogFacts(store);
    Safety.ImmInHistory(store);
    NothingLogged(store);
    forall n | n in store.logs && n >= store.logNumber && n != store.logfile
      ensures store.logs[n] <= Elements(store.hist)
    {
      assert (store.logs - {store.logfile})[n] == store.logs[n];
      OneOf(store.logs - {store.logfile}, n, store.logNumber);
    }
  }

  lemma OneOf(logs: map<nat, S.Entries>, n: nat, from: nat)
    requires n in logs && n >= from
    ensures logs[n] <= S.LogContents(logs, from)
  {
  }

  lemma NothingLogged(store: S.State)
    requires Safety.Inv(store) && store.phase.Logging?
    ensures S.InLog(store.phase, store.pend) == {} && store.unread <= Elements(store.hist)
    ensures Elements(store.hist) * Elements(store.pend) == {}
  {
    hide Safety.MemOk, Safety.LogsOk, Safety.LayersOk, Safety.StampsOk, Safety.FilesOk, Safety.DiskOk;
    hide Safety.SequenceOk, Safety.MergeOk, Safety.ReadersOk, Safety.SnapsOk, S.Contents;
    Safety.ElementsOf([], []);
    Safety.PendAbove(store.hist, store.pend);
  }

  /** A group that is appended is found if it comes back, and nothing else changes. */
  lemma FoundAfter(logs: map<nat, S.Entries>, unread: S.Entries, n: nat, from: nat, h: S.Entries, group: S.Entries,
                   shown: bool)
    requires n in logs && n >= from && unread <= h && h * group == {}
    requires forall m :: m in logs && m >= from ==> logs[m] <= h
    ensures var found := S.Found(logs, unread);
            var found' := S.Found(logs[n := logs[n] + group], if shown then unread else unread + group);
            && found'.Keys == found.Keys
            && forall m :: m in found && m >= from ==>
                 found'[m] == found[m] + if m == n && shown then group else {}
  {
    forall e | e in group ensures e !in h {
      assert e in h ==> e in h * group;
    }
  }

  /** One more group, below everything unused so far, if it comes back. */
  lemma LogOkGrows(events: seq<Event>, found: S.Entries, unused: nat, event: Event, unused': nat)
    requires LogOk(events, found, unused) && unused <= unused'
    requires event.Wrote? ==>
               && Replay.GroupFits(event.group) && unused <= event.group.first
               && event.group.first + |event.group.ops| <= unused'
    ensures var back := event.Wrote? && ComesBack(FileOf(events), event.group);
            var more := if back then Elements(Numbered(event.group.ops, event.group.first)) else {};
            LogOk(events + [event], found + more, unused')
  {
    hide FileOf, ComesBack, Numbered, Replay.GroupFits, Shown, Replay.Entries, Replay.Loggable;
    ShownGrows(events, event);
    var groups := Shown(events);
    if event.Wrote? && ComesBack(FileOf(events), event.group) {
      OneMoreGroup(groups, event.group);
    } else {
      assert groups + [] == groups && found + {} == found;
    }
  }

  lemma OneMoreGroup(groups: seq<Replay.Group>, g: Replay.Group)
    requires Replay.Loggable(groups) && Replay.GroupFits(g)
    requires forall i :: 0 <= i < |groups| ==> groups[i].first + |groups[i].ops| <= g.first
    ensures Replay.Loggable(groups + [g]) && (groups + [g])[|groups|] == g
    ensures Replay.Entries(groups + [g]) == Replay.Entries(groups) + Elements(Numbered(g.ops, g.first))
  {
    hide Numbered, Replay.GroupFits;
    assert (groups + [g])[..|groups|] == groups;
  }

  /** An append, whether it succeeds or not, is one more event of the current log. */
  lemma AppendLinks(st: State, step: Step)
    requires Safety.Inv(st.store) && Linked(st) && (step.Append? || step.FailAppend?) && Enabled(st, step)
    requires S.Enabled(st.store, StoreStep(st, step))
    ensures Linked(Next(st, step))
  {
    hide Safety.Inv, LogsOk, FileOf, Life.TailOf, Life.Next, Life.Good, Replay.GroupFits, S.Found, Numbered, S.Enabled;
    FileGrows(LogEvents(st), if step.Append? then Wrote(st.writing) else Failed(st.writing, step.kept));
    if step.Append? {
      WroteLinks(st);
    } else {
      FailedLinks(st, step.kept);
    }
  }

  lemma WroteLinks(st: State)
    requires Safety.Inv(st.store) && Linked(st) && st.store.phase.Logging?
    ensures var store' := S.Logged(st.store, StoreStep(st, Append).outcome);
            LogsOk(LivesAfter(st, Append), S.Found(store'.logs, store'.unread), st.store.logNumber, Unused(store'))
  {
    hide Safety.Inv, LogOk, FileOf, TailOf, Life.Next, Life.Good, Shown, Replay.GroupFits, S.Found, Numbered;
    var store, n := st.store, st.store.logfile;
    var shown := ComesBack(LogNow(st), st.writing);
    var store' := S.Logged(store, StoreStep(st, Append).outcome);
    NumberedIs(st.writing.ops, st.writing.first);
    LogsInHistory(store);
    SameKeys(store);
    FoundAfter(store.logs, store.unread, n, store.logNumber, Elements(store.hist), Elements(store.pend), shown);
    MoreLogged(st.lives, S.Found(store.logs, store.unread), S.Found(store'.logs, store'.unread), store.logNumber,
               Unused(store), n, Wrote(st.writing), Unused(store'));
  }

  lemma FailedLinks(st: State, kept: nat)
    requires Safety.Inv(st.store) && Linked(st) && st.store.phase.Logging?
    ensures LogsOk(LivesAfter(st, FailAppend(kept)), S.Found(st.store.logs, st.store.unread), st.store.logNumber,
                   st.store.lastSeq + |st.store.pend| + 1)
  {
    hide Safety.Inv, LogOk, FileOf, Life.Good, Shown, Replay.GroupFits, S.Found, Numbered, TailOf;
    var found := S.Found(st.store.logs, st.store.unread);
    LogsInHistory(st.store);
    SameKeys(st.store);
    assert forall m :: m in found ==> found[m] + {} == found[m];
    MoreLogged(st.lives, found, found, st.store.logNumber, Unused(st.store), st.store.logfile, Failed(st.writing, kept),
               st.store.lastSeq + |st.store.pend| + 1);
  }

  /** One more event in one log. */
  lemma MoreLogged(lives: map<nat, seq<Event>>, found: map<nat, S.Entries>, found': map<nat, S.Entries>, from: nat,
                   unused: nat, n: nat, event: Event, unused': nat)
    requires LogsOk(lives, found, from, unused) && n in found && n >= from && found'.Keys == found.Keys && unused <= unused'
    requires event.Wrote? ==>
               && Replay.GroupFits(event.group) && unused <= event.group.first
               && event.group.first + |event.group.ops| <= unused'
    requires var back := event.Wrote? && ComesBack(FileOf(EventsOf(lives, n)), event.group);
             forall m :: m in found && m >= from ==>
               found'[m] == found[m] + if m == n && back then Elements(Numbered(event.group.ops, event.group.first)) else {}
    ensures LogsOk(lives[n := EventsOf(lives, n) + [event]], found', from, unused')
  {
    hide LogOk, FileOf, ComesBack, Numbered, Replay.GroupFits;
    forall m | m in found' && m >= from && m != n ensures m in lives && LogOk(lives[m], found'[m], unused') {
      assert found'[m] == found[m] + {} == found[m];
      StaysOk(lives[m], found[m], unused, unused');
    }
    LogOkGrows(lives[n], found[n], unused, event, unused');
  }

  lemma SameKeys(store: S.State)
    ensures S.Found(store.logs, store.unread).Keys == store.logs.Keys
  {
  }

  lemma StaysOk(events: seq<Event>, found: S.Entries, unused: nat, unused': nat)
    requires LogOk(events, found, unused) && unused <= unused'
    ensures LogOk(events, found, unused')
  {
    hide Shown, Replay.Entries, Replay.Loggable;
  }

  lemma BeginLinks(st: State, ops: seq<Op>)
    requires Safety.Inv(st.store) && Linked(st) && Enabled(st, Begin(ops))
    requires S.Enabled(st.store, StoreStep(st, Begin(ops)))
    ensures Linked(Next(st, Begin(ops)))
  {
    hide Safety.Inv, LogsOk, FileOf, Life.TailOf, Replay.GroupFits, S.Found, Numbered;
    Safety.IdlePend(st.store);
  }

  lemma EmptyLog(unused: nat)
    ensures LogOk([], {}, unused) && TailOf(FileOf([])).Clean?
  {
    assert AllAsBytes([]) == [];
  }

  lemma SwitchLinks(st: State, closed: bool)
    requires Safety.Inv(st.store) && Linked(st) && Enabled(st, Other(S.Switch(closed)))
    ensures Linked(Next(st, Other(S.Switch(closed))))
  {
    hide Safety.Inv, LogOk, FileOf, Life.TailOf, S.Settled, S.InLog, S.Imm, S.Contents, S.LogContents;
    var store := st.store;
    Recovery.LogFacts(store);
    EmptyLog(Unused(store));
    var st' := Next(st, Other(S.Switch(closed)));
    assert st'.store == S.Switched(store, closed);
    NewLog(st.lives, store.logs, store.unread, store.logNumber, Unused(store), store.nextFile);
  }

  lemma NewLog(lives: map<nat, seq<Event>>, logs: map<nat, S.Entries>, unread: S.Entries, from: nat, unused: nat, n: nat)
    requires LogsOk(lives, S.Found(logs, unread), from, unused) && n !in logs && LogOk([], {}, unused)
    ensures LogsOk(lives[n := []], S.Found(logs[n := {}], unread), from, unused)
  {
    hide LogOk;
    var found, found' := S.Found(logs, unread), S.Found(logs[n := {}], unread);
    assert found'[n] == {};
    forall m | m in found' && m != n ensures m in found && found'[m] == found[m] {
    }
  }

  lemma RemoveLinks(st: State, n: nat)
    requires Safety.Inv(st.store) && Linked(st) && Enabled(st, Other(S.RemoveLog(n)))
    ensures Linked(Next(st, Other(S.RemoveLog(n))))
  {
    hide Safety.Inv, LogOk, FileOf, Life.TailOf, S.Settled, S.InLog, S.Imm, S.Contents, S.LogContents;
    var store := st.store;
    Recovery.LogFacts(store);
    RemovedIsOld(store);
    var st' := Next(st, Other(S.RemoveLog(n)));
    assert LogNow(st') == LogNow(st);
    forall m | m in S.Found(st'.store.logs, store.unread)
      ensures m in S.Found(store.logs, store.unread)
           && S.Found(st'.store.logs, store.unread)[m] == S.Found(store.logs, store.unread)[m]
    {
    }
  }

  lemma RemovedIsOld(store: S.State)
    requires Safety.Inv(store) && store.job.Removing?
    ensures forall n :: n in store.job.logs ==> n < store.logNumber
  {
    hide Safety.WritesOk, Safety.MemOk, Safety.LayersOk, Safety.GroupsOk, Safety.StampsOk, Safety.DiskOk, Safety.LogsOk;
    hide Safety.SequenceOk, Safety.MergeOk, Safety.ReadersOk, Safety.SnapsOk, S.Contents;
  }

  /** What is in the logs that an open reads is in use up to the last sequence it comes to. */
  lemma LogsUpTo(st: State, top: nat)
    requires LogsOk(st.lives, S.Found(st.store.logs, st.store.unread), st.store.logNumber, Unused(st.store))
    requires IsTop(st, top) && st.store.logNumber <= st.store.disk.logNumber
    ensures LogsOk(st.lives, S.Found(st.store.logs, st.store.unread), st.store.disk.logNumber, top + 1)
  {
    hide LogOk, Shown, Replay.MaxSequence;
    var found := S.Found(st.store.logs, st.store.unread);
    forall n | n in found && n >= st.store.disk.logNumber ensures n in st.lives && LogOk(st.lives[n], found[n], top + 1) {
      LogIsUsed(st.lives[n], found[n], Unused(st.store));
      UpTo(st.lives[n], found[n], Unused(st.store), top);
    }
  }

  lemma UpTo(events: seq<Event>, found: S.Entries, unused: nat, top: nat)
    requires LogOk(events, found, unused) && Replay.MaxSequence(Shown(events)) <= top
    ensures LogOk(events, found, top + 1)
  {
    hide Shown, Replay.Entries, Replay.Loggable, Replay.MaxSequence;
    MaxIs(Shown(events));
  }

  /** A crash adds nothing to what comes back. */
  lemma CrashedLogs(lives: map<nat, seq<Event>>, found: map<nat, S.Entries>, from: nat, unused: nat, n: nat, g: Replay.Group,
                    kept: nat)
    requires LogsOk(lives, found, from, unused) && n in lives
    ensures LogsOk(lives[n := lives[n] + [Crashed(g, kept)]], found, from, unused)
  {
    hide LogOk;
    if n in found && n >= from {
      LogOkGrows(lives[n], found[n], unused, Crashed(g, kept), unused);
      assert found[n] + {} == found[n];
    }
  }

  /** What of the reopened database the logs are about. */
  lemma ReopenedLogs(store: S.State, step: S.Step)
    requires step.Recover? && S.Enabled(store, step) && store.disk.logNumber <= store.logfile && store.logfile in store.logs
    ensures !step.reuse ==> step.next !in store.logs
    ensures var (store', found) := (S.Next(store, step), S.Found(store.logs, store.unread));
            && store'.logs == (if step.reuse then found else found[step.next := {}]) && store'.unread == {}
            && store'.logfile == (if step.reuse then store.logfile else step.next)
            && store'.tail == (if step.reuse then S.Reopening(step.torn) else Clean)
            && store.disk.logNumber <= store'.logNumber && store'.phase.Idle? && Unused(store') == step.top + 1
  {
    hide S.Contents, S.LogContents, S.Recovered, S.Keep, S.KeepEach, S.Missing, S.Found, S.Replayed;
  }

  lemma FoundInFull(logs: map<nat, S.Entries>)
    ensures S.Found(logs, {}) == logs
  {
    assert forall n :: n in logs ==> logs[n] - {} == logs[n];
  }

  lemma NextIs(st: State, step: Step)
    requires S.Enabled(st.store, StoreStep(st, step)) && !step.Begin?
    ensures Next(st, step) == State(S.Next(st.store, StoreStep(st, step)), LivesAfter(st, step), st.writing)
  {
    hide S.Next, S.Enabled, StoreStep, LivesAfter;
  }

  /** The logs of a reopened database: the last one is written on, or left for a new one. */
  lemma LeftLogs(lives: map<nat, seq<Event>>, found: map<nat, S.Entries>, from: nat, unused: nat, n: nat, g: Replay.Group,
                 kept: nat, reuse: bool, next: nat)
    requires LogsOk(lives, found, from, unused) && n in lives && (!reuse ==> next !in found)
    ensures var closed := lives[n := lives[n] + [Crashed(g, kept)]];
            var logs := if reuse then found else found[next := {}];
            LogsOk(if reuse then closed else closed[next := []], S.Found(logs, {}), from, unused)
  {
    hide LogOk, S.Found;
    CrashedLogs(lives, found, from, unused, n, g, kept);
    FoundInFull(found);
    if !reuse {
      EmptyLog(unused);
      NewLog(lives[n := lives[n] + [Crashed(g, kept)]], found, {}, from, unused, next);
    }
  }

  lemma ReopenedLinks(st: State, step: Step)
    requires Safety.Inv(st.store) && Linked(st) && step.Reopen? && Enabled(st, step)
    requires S.Enabled(st.store, StoreStep(st, step))
    ensures var st' := Next(st, step);
            LogsOk(st'.lives, S.Found(st'.store.logs, st'.store.unread), st'.store.logNumber, Unused(st'.store))
  {
    hide Safety.Inv, LogOk, LogThen, TailOf, S.LogContents, S.Recovered, S.OpensWith, IsTop, S.Found, S.Next, S.Enabled;
    hide Next;
    NextIs(st, step);
    var store, n := st.store, st.store.logfile;
    var found := S.Found(store.logs, store.unread);
    SameKeys(store);
    DiskFrom(store);
    Recovery.LogFacts(store);
    LogsUpTo(st, step.top);
    ReopenedLogs(store, StoreStep(st, step));
    hide LogsOk;
    assert n in st.lives && EventsOf(st.lives, n) == st.lives[n] by { LiveLog(st); }
    LeftLogs(st.lives, found, store.disk.logNumber, step.top + 1, n, st.writing, step.kept, step.reuse, step.next);
    var st' := Next(st, step);
    LogsStayOk(st'.lives, S.Found(st'.store.logs, {}), store.disk.logNumber, st'.store.logNumber, step.top + 1, step.top + 1);
  }

  lemma LiveLog(st: State)
    requires Safety.Inv(st.store) && Linked(st)
    ensures st.store.logfile in st.lives
  {
    hide Safety.Inv, LogOk, TailOf, LogNow;
    SameKeys(st.store);
    Recovery.LogFacts(st.store);
  }

  lemma ReopenLinks(st: State, step: Step)
    requires Safety.Inv(st.store) && Linked(st) && step.Reopen? && Enabled(st, step)
    requires S.Enabled(st.store, StoreStep(st, step))
    ensures Linked(Next(st, step))
  {
    hide Safety.Inv, LogsOk, FileOf, Life.TailOf, Life.Next, S.Recovered, S.OpensWith, IsTop, S.Found, S.Next, S.Enabled;
    ReopenedLinks(st, step);
    DiskFrom(st.store);
    Recovery.LogFacts(st.store);
    ReopenedLogs(st.store, StoreStep(st, step));
    CrashTail(st, step.kept);
    FileGrows(LogEvents(st), Crashed(st.writing, step.kept));
    EmptyLog(0);
  }

  /** Every step keeps every log, byte for byte, what the database believes it to be. */
  lemma StepLinks(st: State, step: Step)
    requires Safety.Inv(st.store) && Linked(st) && Enabled(st, step)
    ensures S.Enabled(st.store, StoreStep(st, step)) && Next(st, step).store == S.Next(st.store, StoreStep(st, step))
    ensures Linked(Next(st, step))
  {
    hide Safety.Inv, Linked, Enabled, S.Enabled, S.Next, LivesAfter;
    StepAllowed(st, step);
    match step {
      case Begin(ops) => BeginLinks(st, ops);
      case Append => AppendLinks(st, step);
      case FailAppend(kept) => AppendLinks(st, step);
      case Reopen(_, _, _, _, _, _, _) => ReopenLinks(st, step);
      case Other(s) => LogStepLinks(st, s);
    }
  }

  lemma LogStepLinks(st: State, s: S.Step)
    requires Safety.Inv(st.store) && Linked(st) && Enabled(st, Other(s))
    ensures Linked(Next(st, Other(s)))
  {
    hide Safety.Inv, Linked, S.Enabled, S.Next, LivesAfter;
    match s {
      case Switch(closed) => SwitchLinks(st, closed);
      case RemoveLog(n) => RemoveLinks(st, n);
      case _ => OtherLinks(st, s);
    }
  }

  // ---- whole runs ----

  ghost function Created(): State {
    State(Recovery.Created(), map[3 := []], Replay.Group(1, []))
  }

  ghost predicate Runs(st: State, steps: seq<Step>, end: State)
    decreases |steps|
  {
    if steps == [] then st == end else Enabled(st, steps[0]) && Runs(Next(st, steps[0]), steps[1..], end)
  }

  /** Every edit that the run writes to the manifest can be read back. */
  ghost predicate Careful(steps: seq<Step>) {
    forall step :: step in steps ==> Legible(step)
  }

  predicate Legible(step: Step) {
    && (step.Other? ==> Recovery.Legible(step.s))
    && (step.Reopen? && step.manifest.Appended? ==> !step.manifest.torn)
  }

  ghost function StoreSteps(st: State, steps: seq<Step>): seq<S.Step>
    decreases |steps|
  {
    if steps == [] then [] else [StoreStep(st, steps[0])] + StoreSteps(Next(st, steps[0]), steps[1..])
  }

  lemma CreatedLinks()
    ensures Safety.Inv(Created().store) && Linked(Created())
  {
    hide Safety.Inv, LogOk, FileOf;
    Recovery.CreatedOk();
    EmptyLog(1);
    FoundInFull(map[3 := {}]);
  }

  lemma LegibleStep(st: State, step: Step)
    requires Legible(step)
    ensures Recovery.Legible(StoreStep(st, step))
  {
    hide LogNow, LogThen, TailOf, ComesBack;
  }

  lemma {:induction false} RunLinks(st: State, steps: seq<Step>, end: State)
    requires Safety.Inv(st.store) && Linked(st) && Runs(st, steps, end) && Careful(steps)
    ensures Safety.Inv(end.store) && Linked(end)
    ensures Recovery.Runs(st.store, StoreSteps(st, steps), end.store) && Recovery.Careful(StoreSteps(st, steps))
    decreases |steps|
  {
    hide Safety.Inv, Linked, Enabled, S.Enabled, S.Next, Next, StoreStep, Recovery.Legible, Legible;
    if steps != [] {
      assert steps[0] in steps && forall step :: step in steps[1..] ==> step in steps;
      var s := StoreStep(st, steps[0]);
      LegibleStep(st, steps[0]);
      StepLinks(st, steps[0]);
      Recovery.StepKeeps(st.store, s);
      RunLinks(Next(st, steps[0]), steps[1..], end);
      Recovery.OneMore(st.store, s, StoreSteps(Next(st, steps[0]), steps[1..]), end.store);
    }
  }

  /**
   * Every run of the database on its files is a run of the database as a transition system: what it allows an append, a
   * failed append and a crash to do to a log covers everything that they do to the bytes of the file.
   */
  lemma RunsAreRuns(steps: seq<Step>, end: State)
    requires Runs(Created(), steps, end) && Careful(steps)
    ensures Recovery.Runs(Recovery.Created(), StoreSteps(Created(), steps), end.store)
    ensures Recovery.Careful(StoreSteps(Created(), steps)) && Linked(end) && Safety.Inv(end.store)
  {
    hide Runs, Careful, Linked, Safety.Inv, Recovery.Runs, Recovery.Careful, StoreSteps;
    CreatedLinks();
    RunLinks(Created(), steps, end);
  }

  // ---- replaying a log ----

  /**
   * ldb_recover_log_file on the file of a log the database needs, after a crash that leaves any part of the group being
   * written in it: the memtable holds exactly what the database says is found in that log.
   */
  method RecoverLog(ghost st: State, ghost n: nat, ghost kept: nat, file: Bytes)
    returns (table: Memtable.Memtable, maxSequence: nat)
    requires Linked(st) && n in st.store.logs && n >= st.store.logNumber
    requires var events := EventsOf(st.lives, n) + [Crashed(st.writing, if n == st.store.logfile then kept else 0)];
             file == FileOf(events).file && Life.DetectedAll(file, Life.NEW, AllAsBytes(events))
    ensures table.Valid() && Elements(table.contents) == S.Found(st.store.logs, st.store.unread)[n]
    ensures maxSequence == LastIn(st, n)
  {
    hide Life.DetectedAll, LogFormat.Trace, LogReader.RecordsOf, Memtable.Memtable.Valid, Replay.Loggable, S.Found, Shown;
    hide Life.Run, Life.Back, Elements, Replay.Entries, Replay.MaxSequence, Replay.LogRecords, AllAsBytes;
    ghost var before := EventsOf(st.lives, n);
    ghost var crash := Crashed(st.writing, if n == st.store.logfile then kept else 0);
    SameKeys(st.store);
    assert LogOk(st.lives[n], S.Found(st.store.logs, st.store.unread)[n], Unused(st.store));
    Life.LifeReads(AllAsBytes(before + [crash]));
    ShownIsBack(before + [crash]);
    ShownGrows(before, crash);
    assert Shown(before) + [] == Shown(before);
    table, maxSequence := Replay.ReplayFile(file, Shown(before));
  }

  // ---- which writes are safe ----

  /** The group that operations written now become, and their entries. */
  function GroupNow(st: State, ops: seq<Op>): Replay.Group {
    Replay.Group(st.store.lastSeq + 1, ops)
  }

  function EntriesNow(st: State, ops: seq<Op>): (r: seq<Entry>)
    ensures |r| == |ops|
  {
    Numbered(ops, st.store.lastSeq + 1)
  }

  function WriteSteps(ops: seq<Op>): seq<Step> {
    [Begin(ops), Append] + Others(Recovery.InsertSteps(|ops|))
  }

  function Others(steps: seq<S.Step>): (r: seq<Step>)
    ensures |r| == |steps|
  {
    seq(|steps|, i requires 0 <= i < |steps| => Other(steps[i]))
  }

  /** The state after the group has been written and acknowledged. */
  ghost function Written(st: State, ops: seq<Op>): State {
    var g := GroupNow(st, ops);
    State(Recovery.Acknowledged(st.store, EntriesNow(st, ops), ComesBack(LogNow(st), g), TailOf(LogThen(st, Wrote(g)))),
          st.lives[st.store.logfile := LogEvents(st) + [Wrote(g)]], g)
  }

  ghost predicate CanWrite(st: State, ops: seq<Op>) {
    st.store.phase.Idle? && !st.store.bgError && Replay.GroupFits(GroupNow(st, ops))
  }

  lemma OneMore(st: State, step: Step, rest: seq<Step>, end: State)
    requires Enabled(st, step) && Runs(Next(st, step), rest, end)
    ensures Runs(st, [step] + rest, end)
  {
    hide Enabled, Next;
    assert ([step] + rest)[1..] == rest;
  }

  lemma BeginIs(st: State, ops: seq<Op>)
    requires Safety.Inv(st.store) && Linked(st) && CanWrite(st, ops)
    ensures var s1 := State(S.Begin(st.store, EntriesNow(st, ops)), st.lives, GroupNow(st, ops));
            Enabled(st, Begin(ops)) && Next(st, Begin(ops)) == s1 && Linked(s1) && Safety.Inv(s1.store)
  {
    hide Safety.Inv, Linked, Replay.GroupFits;
    StepLinks(st, Begin(ops));
    Recovery.StepKeeps(st.store, StoreStep(st, Begin(ops)));
  }

  lemma AppendIs(st: State)
    requires Safety.Inv(st.store) && Linked(st) && st.store.phase.Logging?
    ensures var s := S.Wrote(ComesBack(LogNow(st), st.writing), TailOf(LogThen(st, Wrote(st.writing))));
            Next(st, Append) == State(S.Logged(st.store, s), LivesAfter(st, Append), st.writing)
  {
    hide Safety.Inv, Linked, FileOf, ComesBack, TailOf, Life.Next;
    StepLinks(st, Append);
  }

  /** Steps of the database that leave its logs alone. */
  lemma {:induction false} OthersRun(st: State, steps: seq<S.Step>, end: S.State)
    requires Recovery.Runs(st.store, steps, end) && forall s :: s in steps ==> s.Insert? || s.FinishGroup?
    ensures Runs(st, Others(steps), State(end, st.lives, st.writing)) && Careful(Others(steps))
    decreases |steps|
  {
    hide S.Next, S.Enabled;
    if steps != [] {
      var st' := Next(st, Other(steps[0]));
      assert st' == State(S.Next(st.store, steps[0]), st.lives, st.writing) by { NextIs(st, Other(steps[0])); }
      OthersRun(st', steps[1..], end);
      assert Others(steps)[1..] == Others(steps[1..]);
    }
  }

  lemma WriteRuns(st: State, ops: seq<Op>)
    requires Safety.Inv(st.store) && Linked(st) && CanWrite(st, ops)
    ensures Runs(st, WriteSteps(ops), Written(st, ops)) && Careful(WriteSteps(ops))
  {
    hide Safety.Inv, Linked, Replay.GroupFits, FileOf, ComesBack, TailOf, Life.Next, Next, Runs, S.Logged, S.Finished;
    hide S.Inserted, Recovery.Acknowledged, Recovery.AllInserted, S.Enabled, Recovery.InsertSteps, Numbered;
    var g, es, end := GroupNow(st, ops), EntriesNow(st, ops), Written(st, ops);
    var shown, after := ComesBack(LogNow(st), g), TailOf(LogThen(st, Wrote(g)));
    BeginIs(st, ops);
    var s1 := Next(st, Begin(ops));
    AppendIs(s1);
    var s2 := Next(s1, Append);
    Recovery.HasMemtable(st.store);
    Recovery.AcknowledgedIs(st.store, es, shown, after);
    Recovery.InsertingRuns(s2.store, |ops|);
    Recovery.InsertingCareful(|ops|);
    var rest := Recovery.InsertSteps(|ops|);
    OthersRun(s2, rest, end.store);
    OneMore(s1, Append, Others(rest), end);
    OneMore(st, Begin(ops), [Append] + Others(rest), end);
    assert [Begin(ops)] + ([Append] + Others(rest)) == WriteSteps(ops);
  }

  /** An open after a crash is always possible. */
  lemma {:induction false} CanReopen(st: State) returns (step: Step)
    requires Safety.Inv(st.store)
    ensures step.Reopen? && Enabled(st, step) && Legible(step)
  {
    hide Safety.Inv, S.OpensWith, LastIn, S.Found, S.LogContents;
    var n := st.store.nextFile;
    var top := LargestIn(st, (set m | m in st.store.logs && m >= st.store.disk.logNumber), st.store.disk.lastSeq);
    Recovery.OpensFresh(st.store);
    step := Reopen(map[n := Recovery.FoundInLogs(st.store)], false, S.Fresh, n + 1, n + 2, top, 0);
  }

  lemma {:induction false} LargestIn(st: State, logs: set<nat>, least: nat) returns (top: nat)
    ensures least <= top && (forall n :: n in logs ==> LastIn(st, n) <= top)
    ensures top == least || exists n :: n in logs && LastIn(st, n) == top
    decreases logs
  {
    hide LastIn;
    top := least;
    if n :| n in logs && LastIn(st, n) > least {
      top := LargestIn(st, logs - {n}, LastIn(st, n));
      assert top == LastIn(st, n) || exists m :: m in logs && LastIn(st, m) == top;
    }
  }

  ghost predicate AllIn(es: seq<Entry>, hist: seq<Entry>) {
    forall e :: e in es ==> e in hist
  }

  /** Whatever happens after the write, crashes and reopening included, the operations stay in the database. */
  ghost predicate Safe(st: State, ops: seq<Op>) {
    forall after, end :: Runs(Written(st, ops), after, end) && Careful(after) ==> AllIn(EntriesNow(st, ops), end.store.hist)
  }

  lemma WriteKeeps(st: State, ops: seq<Op>)
    requires Safety.Inv(st.store) && Linked(st) && CanWrite(st, ops)
    ensures Safety.Inv(Written(st, ops).store) && Linked(Written(st, ops))
    ensures forall e :: e in EntriesNow(st, ops) ==>
              && e in Written(st, ops).store.hist
              && (e in Recovery.Survived(Written(st, ops).store) <==> ComesBack(LogNow(st), GroupNow(st, ops)))
              && (ComesBack(LogNow(st), GroupNow(st, ops)) ==> e !in Written(st, ops).store.unread)
  {
    WriteRuns(st, ops);
    hide Safety.Inv, Linked, ComesBack, FileOf, Runs, Careful, TailOf, Life.Next, Recovery.Survived, Replay.GroupFits;
    hide WriteSteps, EntriesNow;
    RunLinks(st, WriteSteps(ops), Written(st, ops));
    var g := GroupNow(st, ops);
    NumberedNow(st, ops);
    Recovery.AcknowledgedSurvives(st.store, EntriesNow(st, ops), ComesBack(LogNow(st), g), TailOf(LogThen(st, Wrote(g))));
  }

  lemma NumberedNow(st: State, ops: seq<Op>)
    ensures S.Consecutive(EntriesNow(st, ops), st.store.lastSeq)
  {
    NumberedIs(ops, st.store.lastSeq + 1);
  }

  /** Operations whose record comes back are in the database for good. */
  lemma ShownStays(st: State, ops: seq<Op>, after: seq<Step>, end: State)
    requires Safety.Inv(st.store) && Linked(st) && CanWrite(st, ops) && ComesBack(LogNow(st), GroupNow(st, ops))
    requires Runs(Written(st, ops), after, end) && Careful(after)
    ensures AllIn(EntriesNow(st, ops), end.store.hist) && Safety.Inv(end.store)
  {
    hide Safety.Inv, Linked, ComesBack, FileOf, Runs, Careful, Written, CanWrite, EntriesNow, Recovery.Runs;
    hide Recovery.Careful, Recovery.Spared;
    var start := Written(st, ops);
    WriteKeeps(st, ops);
    RunLinks(start, after, end);
    forall e | e in EntriesNow(st, ops) ensures e in end.store.hist {
      Recovery.ReadableIsSpared(start.store, StoreSteps(start, after), end.store, e);
      Recovery.SparedStays(start.store, StoreSteps(start, after), end.store, e);
    }
  }

  lemma ShownIsSafe(st: State, ops: seq<Op>)
    requires Safety.Inv(st.store) && Linked(st) && CanWrite(st, ops) && ComesBack(LogNow(st), GroupNow(st, ops))
    ensures Safe(st, ops)
  {
    hide Runs, Careful, Linked, Safety.Inv, ComesBack, FileOf, Written, CanWrite, EntriesNow, AllIn;
    forall after, end | Runs(Written(st, ops), after, end) && Careful(after)
      ensures AllIn(EntriesNow(st, ops), end.store.hist)
    {
      ShownStays(st, ops, after, end);
    }
  }

  /** Ones whose record does not are gone after a crash right behind it. */
  lemma LostNow(st: State, ops: seq<Op>)
    requires Safety.Inv(st.store) && Linked(st) && CanWrite(st, ops) && !ComesBack(LogNow(st), GroupNow(st, ops))
    requires ops != []
    ensures !Safe(st, ops)
  {
    hide Safety.Inv, Linked, ComesBack, FileOf, Written, CanWrite, Enabled, Recovery.Survived, S.Enabled, S.Next;
    hide Next, StoreStep, Legible, Recovery.Legible, Numbered;
    var start, e := Written(st, ops), EntriesNow(st, ops)[0];
    WriteKeeps(st, ops);
    var step := CanReopen(start);
    StepLinks(start, step);
    LegibleStep(start, step);
    assert StoreStep(start, step).Recover? by { ReopensStore(start, step); }
    Recovery.ReopenedHistory(start.store, StoreStep(start, step));
    var end := Next(start, step);
    assert e in EntriesNow(st, ops) && e !in end.store.hist;
    OneMore(start, step, [], end);
    assert [step] + [] == [step] && Careful([step]);
    assert Runs(start, [step], end);
  }

  lemma ReopensStore(st: State, step: Step)
    requires step.Reopen?
    ensures StoreStep(st, step).Recover?
  {
  }

  /**
   * In every reachable state, a group written now stays in the database through everything that can follow exactly when
   * all physical records of its log record are ones that a reader comes to in step and that lie within a block.
   */
  lemma SafeIffComesBack(before: seq<Step>, st: State, ops: seq<Op>)
    requires Runs(Created(), before, st) && Careful(before) && CanWrite(st, ops) && ops != []
    ensures Safe(st, ops) <==> ComesBack(LogNow(st), GroupNow(st, ops))
  {
    hide Runs, Careful, Linked, Safety.Inv, ComesBack, FileOf, Written, CanWrite, EntriesNow, Recovery.Runs, AllIn;
    RunsAreRuns(before, st);
    if ComesBack(LogNow(st), GroupNow(st, ops)) {
      ShownIsSafe(st, ops);
    } else {
      LostNow(st, ops);
    }
  }

  /** And every group is safe to write exactly when the tail of the log is clean. */
  lemma SafeIffClean(before: seq<Step>, st: State)
    requires Runs(Created(), before, st) && Careful(before)
    requires st.store.phase.Idle? && !st.store.bgError && st.store.lastSeq + 2 <= Format.MAX_SEQUENCE
    ensures (forall ops :: CanWrite(st, ops) ==> Safe(st, ops)) <==> st.store.tail.Clean?
  {
    hide Runs, Careful, Linked, Safety.Inv, ComesBack, FileOf, Written, Recovery.Runs, Safe, Life.TailOf, CanWrite;
    RunsAreRuns(before, st);
    TailIs(st);
    LogIsValid(LogEvents(st));
    if st.store.tail.Clean? {
      forall ops | CanWrite(st, ops) ensures Safe(st, ops) {
        CleanComesBack(LogNow(st), GroupNow(st, ops));
        ShownIsSafe(st, ops);
      }
    } else {
      var op := UncleanLoses(LogNow(st), st.store.lastSeq + 1);
      assert CanWrite(st, [op]) by { CanWriteNow(st, op); }
      SafeIffComesBack(before, st, [op]);
      assert !Safe(st, [op]);
    }
  }

  lemma CanWriteNow(st: State, op: Op)
    requires st.store.phase.Idle? && !st.store.bgError && Replay.GroupFits(Replay.Group(st.store.lastSeq + 1, [op]))
    ensures CanWrite(st, [op])
  {
  }

  lemma TailIs(st: State)
    requires Linked(st)
    ensures st.store.tail == TailOf(LogNow(st))
  {
  }

  lemma CleanComesBack(log: Life.Log, g: Replay.Group)
    requires Life.Valid(log) && TailOf(log).Clean?
    ensures ComesBack(log, g)
  {
    hide Rep, Life.Good;
    Life.AlignedGood(|log.file|, log.offset, RecordOf(g));
  }

  /** On a torn log any record is lost, on a skewed one any that is long enough. */
  lemma {:induction false} UncleanLoses(log: Life.Log, seqno: nat) returns (op: Op)
    requires Life.Valid(log) && !TailOf(log).Clean? && 1 <= seqno < Format.MAX_SEQUENCE
    ensures Replay.GroupFits(Replay.Group(seqno, [op])) && !ComesBack(log, Replay.Group(seqno, [op]))
  {
    hide Rep, Life.Good;
    var nothing: Bytes := [];
    op := Put(nothing, LogFormat.Zeroes(2 * LogFormat.BLOCK));
    assert LogFormat.BLOCK == 32768;
    var data := RecordOf(Replay.Group(seqno, [op]));
    RepSize(seqno, [op]);
    SizeOfPut(op);
    if TailOf(log).Torn? {
      Life.NotPadded(|log.file|, log.offset);
      Life.NotInStep(|log.file|, log.offset, data);
    } else {
      Life.SkewedLong(log.inStep, |log.file|, log.offset, data);
    }
  }

  lemma SizeOfPut(op: Op)
    requires op.Put?
    ensures Size([op]) >= |op.value|
  {
  }

  /** Until one of them is overwritten, every get of its key that begins later returns it. */
  lemma {:induction false} WriteIsRead(before: seq<Step>, st: State, ops: seq<Op>, after: seq<Step>, end: State, e: Entry)
    requires Runs(Created(), before, st) && Careful(before) && CanWrite(st, ops)
    requires ComesBack(LogNow(st), GroupNow(st, ops)) && Runs(Written(st, ops), after, end) && Careful(after)
    requires e in EntriesNow(st, ops) && Recovery.LastOn(end.store.hist, e)
    ensures Recovery.Returned(end.store, e)
  {
    hide Runs, Careful, Linked, Safety.Inv, ComesBack, FileOf, Written, CanWrite, EntriesNow, Recovery.Runs;
    hide Recovery.Returned;
    RunsAreRuns(before, st);
    ShownStays(st, ops, after, end);
    Recovery.LastIsReturned(end.store, e);
  }
}
