/**
 * The writer queue and the database as one system: calls of ldb_write, the groups their leaders log and insert, the
 * background thread, readers and files. A step that both know of is taken by both (db_impl.c).
 */
module Engine {
  import opened Bytes
  import opened Mvcc
  import opened WriteBatch
  import Q = WriteQueue
  import S = Store
  import Safety = StoreSafety
  import Recovery = StoreRecovery

  datatype State = State(calls: Q.State, store: S.State)

  datatype Step = Calls(q: Q.Step) | Stores(s: S.Step) | Both(call: Q.Step, store: S.Step)

  /** The leader has room and starts to log its group. */
  ghost predicate StartsWriting(c: Q.State, q: Q.Step) {
    && q.MakeRoom? && c.queue != [] && Q.HeadPc(c).Room? && !c.bgError && !SlowsDown(c)
    && !Q.HeadPc(c).force && q.fits && c.queue[0].batch.Some?
  }

  predicate SlowsDown(c: Q.State)
    requires Q.HeadPc(c).Room?
  {
    Q.HeadPc(c).delay && c.l0 >= Q.L0_SLOWDOWN
  }

  /** The leader switches to a new log and memtable. */
  ghost predicate SwitchesMemtable(c: Q.State, q: Q.Step) {
    && q.MakeRoom? && c.queue != [] && Q.HeadPc(c).Room? && !c.bgError && !SlowsDown(c)
    && !(!Q.HeadPc(c).force && q.fits) && !c.imm && c.l0 < Q.L0_STOP && q.created
  }

  /** The operations the leader is logging and inserting, under their sequence numbers. */
  function InFlight(c: Q.State): Option<seq<Entry>> {
    if c.queue != [] && Q.HeadPc(c).Writing? && Q.HeadPc(c).size <= |c.queue| then
      Some(Numbered(Q.Ops(c.queue[..Q.HeadPc(c).size]), Q.HeadPc(c).base + 1))
    else None
  }

  /** Steps that are one and the same event in both systems. */
  ghost predicate SameEvent(c: Q.State, q: Q.Step, st: S.State, s: S.Step) {
    match q
    case MakeRoom(_, _, closed) =>
      || (StartsWriting(c, q) && s == S.BeginGroup(Numbered(Q.Ops(c.queue[..Q.GroupLength(c.queue, 1)]), c.lastSeq + 1)))
      || (SwitchesMemtable(c, q) && s == S.Switch(closed))
    case WriteDone(logged, syncFails) =>
      && c.queue != []
      && if !logged then s.Append? && s.outcome.Failed?
         else s == if c.queue[0].sync && syncFails then S.SyncFail else S.FinishGroup
    case BgFlush(ok, _) =>
      || (s == S.Commit(ok) && st.job.Committing? && st.job.flush)
      || (!ok && s == S.FlushBuilt(false))
    case BgCompact(ok, _, _) =>
      || (s == S.Commit(ok) && st.job.Committing? && !st.job.flush)
      || (!ok && s == S.MergeFail)
    case _ => false
  }

  /** Events of the queue that the files and memtables know nothing of; a compaction may move a file or find nothing to do. */
  ghost predicate CallsAlone(c: Q.State, q: Q.Step) {
    match q
    case MakeRoom(_, _, _) => !StartsWriting(c, q) && !SwitchesMemtable(c, q)
    case WriteDone(_, _) => false
    case BgFlush(_, _) => false
    case BgCompact(ok, _, _) => ok || c.bgError
    case _ => true
  }

  /** Events of files, memtables and readers that the queue knows nothing of. */
  predicate StoresAlone(s: S.Step) {
    match s
    case Append(outcome) => outcome.Wrote?
    case FlushBuilt(ok) => ok
    case Insert | FlushStart | WriteManifest(_, _) | MergeStart(_, _, _, _, _) | MergeOutput(_) | MergeCommit => true
    case RemoveStart | RemoveTable(_) | RemoveLog(_) | RemoveDone => true
    case TakeSnapshot | ReleaseSnapshot(_) | Get(_, _, _) | ReadMem(_) | ReadImm(_) | ReadTables(_) | EndRead(_) => true
    case _ => false
  }

  ghost predicate Enabled(st: State, step: Step) {
    match step
    case Calls(q) => Q.Enabled(st.calls, q) && CallsAlone(st.calls, q)
    case Stores(s) => S.Enabled(st.store, s) && StoresAlone(s)
    case Both(q, s) => Q.Enabled(st.calls, q) && S.Enabled(st.store, s) && SameEvent(st.calls, q, st.store, s)
  }

  ghost function Next(st: State, step: Step): State
    requires Enabled(st, step)
  {
    match step
    case Calls(q) => st.(calls := Q.Next(st.calls, q))
    case Stores(s) => st.(store := S.Next(st.store, s))
    case Both(q, s) => State(Q.Next(st.calls, q), S.Next(st.store, s))
  }

  /** The operations of the groups that were acknowledged, in order. */
  function Acknowledged(groups: seq<Q.Group>): seq<Entry> {
    if groups == [] then []
    else
      var g := groups[|groups| - 1];
      Acknowledged(groups[..|groups| - 1]) + if g.wrote && g.result.Ok? then Numbered(Q.Ops(g.members), g.first) else []
  }

  /** Queue and database agree, and the history since the database was opened is what was acknowledged. */
  ghost predicate Agree(c: Q.State, s: S.State, start: seq<Entry>) {
    && c.lastSeq == s.lastSeq && c.bgError == s.bgError && c.imm == s.imm.Some?
    && (if InFlight(c).Some? then (s.phase.Logging? || s.phase.Inserting?) && s.pend == InFlight(c).value
        else s.phase.Idle? || s.phase.Lost?)
    && s.hist == start + Acknowledged(c.groups)
  }

  ghost predicate Inv(st: State, start: seq<Entry>) {
    Q.Inv(st.calls) && Safety.Inv(st.store) && Agree(st.calls, st.store, start)
  }

  // ---- what the queue's steps do ----

  /** As seen from the database, nothing happened. */
  predicate SameView(c: Q.State, c': Q.State) {
    && c'.lastSeq == c.lastSeq && c'.bgError == c.bgError && c'.imm == c.imm && InFlight(c') == InFlight(c)
    && Acknowledged(c'.groups) == Acknowledged(c.groups)
  }

  lemma AcknowledgedAppend(groups: seq<Q.Group>, g: Q.Group)
    ensures Acknowledged(groups + [g])
         == Acknowledged(groups) + if g.wrote && g.result.Ok? then Numbered(Q.Ops(g.members), g.first) else []
  {
    assert (groups + [g])[..|groups|] == groups;
  }

  /** The head is as it was, or neither was nor is writing. */
  lemma SameInFlight(c: Q.State, c': Q.State)
    requires || (c'.queue != [] && c.queue != [] && c.queue <= c'.queue && Q.HeadPc(c') == Q.HeadPc(c))
             || (!Q.HeadPc(c).Writing? && !Q.HeadPc(c').Writing?)
    requires Q.HeadPc(c).Writing? ==> Q.HeadPc(c).size <= |c.queue|
    ensures InFlight(c') == InFlight(c)
  {
    hide Q.HeadPc, Q.Ops, Numbered;
    if Q.HeadPc(c).Writing? {
      var n := Q.HeadPc(c).size;
      assert c'.queue[..n] == c.queue[..n];
    }
  }

  lemma FinishedView(c: Q.State, n: nat, g: Q.Group)
    requires Q.QueueOk(c.arrived, c.queue, c.groups, c.pc) && Q.DoneOk(c.groups, c.pc)
    requires 0 < n <= |c.queue| && g.members == c.queue[..n]
    ensures var c' := Q.Finish(c, n, g);
            && c'.lastSeq == c.lastSeq && c'.bgError == c.bgError && c'.imm == c.imm && InFlight(c').None?
            && Acknowledged(c'.groups)
               == Acknowledged(c.groups) + if g.wrote && g.result.Ok? then Numbered(Q.Ops(g.members), g.first) else []
  {
    hide Q.QueueOk, Q.DoneOk, Q.HeadPc, Q.Ops, Numbered, Acknowledged;
    Q.FinishQueue(c, n, g);
    AcknowledgedAppend(c.groups, g);
  }

  lemma HeadSet(c: Q.State, pc: Q.Pc)
    requires Q.QueueOk(c.arrived, c.queue, c.groups, c.pc) && Q.DoneOk(c.groups, c.pc) && c.queue != []
    requires !Q.HeadPc(c).Writing? && !pc.Writing?
    ensures SameView(c, Q.SetHead(c, pc)) && !Q.HeadPc(Q.SetHead(c, pc)).Writing?
  {
    hide Q.QueueOk, Q.DoneOk, Q.HeadPc, Acknowledged, InFlight;
    Q.SetHeadKeeps(c, pc);
    SameInFlight(c, Q.SetHead(c, pc));
  }

  /** Whatever else changes, the same threads in the same places have the same in flight. */
  lemma SamePlaces(c: Q.State, c': Q.State)
    requires c'.queue == c.queue && c'.pc == c.pc
    ensures InFlight(c') == InFlight(c) && Q.HeadPc(c') == Q.HeadPc(c)
  {
    hide Q.Ops, Numbered;
  }

  lemma BroadcastPlaces(c: Q.State)
    requires Q.QueueOk(c.arrived, c.queue, c.groups, c.pc) && Q.DoneOk(c.groups, c.pc)
    requires Q.HeadPc(c).Writing? ==> c.queue != [] && Q.HeadPc(c).size <= |c.queue|
    ensures InFlight(Q.Broadcast(c)) == InFlight(c) && Q.Broadcast(c) == c.(pc := Q.Broadcast(c).pc)
  {
    hide Q.QueueOk, Q.DoneOk, Q.HeadPc, Q.Broadcast, InFlight;
    Q.BroadcastKeeps(c);
    SameInFlight(c, Q.Broadcast(c));
  }

  /** The head's group fits the queue: what the two lemmas above ask for. */
  lemma Placed(c: Q.State)
    requires Q.Inv(c)
    ensures Q.QueueOk(c.arrived, c.queue, c.groups, c.pc) && Q.DoneOk(c.groups, c.pc)
    ensures Q.HeadPc(c).Writing? ==> c.queue != [] && Q.HeadPc(c).size <= |c.queue| && Q.HeadPc(c).base == c.lastSeq
  {
    hide Q.QueueOk, Q.DoneOk, Q.HistoryOk, Q.ScheduleOk, Q.Groupable;
  }

  lemma ArriveView(c: Q.State, w: Q.Waiter)
    requires Q.Inv(c) && Q.Enabled(c, Q.Arrive(w))
    ensures SameView(c, Q.Next(c, Q.Arrive(w)))
  {
    hide Q.QueueOk, Q.DoneOk, Q.HistoryOk, Q.ScheduleOk, Q.HeadOk, Q.Groupable, Acknowledged, InFlight;
    hide Q.Written, Q.Roomed, Q.Broadcast, Q.RecordError, Q.Schedule;
    var next := c.(arrived := c.arrived + [w], queue := c.queue + [w], pc := c.pc[w.id := Q.Waiting]);
    if c.queue == [] {
      SameInFlight(c, Q.Lead(next));
    } else {
      Q.HeadKnown(c);
      NotTheHead(c, w.id);
      assert next.queue[0] == c.queue[0] && Q.HeadPc(next) == Q.HeadPc(c);
      Placed(c);
      SameInFlight(c, next);
    }
  }

  lemma NotTheHead(c: Q.State, id: nat)
    requires Q.QueueOk(c.arrived, c.queue, c.groups, c.pc) && c.queue != [] && !Q.Knows(c, id)
    ensures c.queue[0].id != id
  {
    assert c.arrived[|Q.Members(c.groups)|] == c.queue[0];
  }

  lemma WakeView(c: Q.State, id: nat)
    requires Q.Inv(c) && Q.Enabled(c, Q.Wake(id))
    ensures SameView(c, Q.Next(c, Q.Wake(id)))
  {
    hide Q.QueueOk, Q.DoneOk, Q.HistoryOk, Q.ScheduleOk, Q.HeadOk, Q.Groupable, Acknowledged, InFlight;
    hide Q.Written, Q.Roomed, Q.Broadcast, Q.RecordError, Q.Schedule;
    Q.SignalledIsHead(c, id);
    Q.HeadKnown(c);
    SameInFlight(c, Q.Lead(c));
  }

  lemma RoomView(c: Q.State, q: Q.Step)
    requires Q.Inv(c) && Q.Enabled(c, q) && q.MakeRoom? && !StartsWriting(c, q) && !SwitchesMemtable(c, q)
    ensures SameView(c, Q.Next(c, q))
  {
    hide Q.QueueOk, Q.DoneOk, Q.HistoryOk, Q.ScheduleOk, Q.HeadOk, Q.Groupable, Acknowledged, InFlight;
    hide Q.Written, Q.Broadcast, Q.RecordError, Q.Schedule, Q.HeadPc, Q.SetHead, Q.Finish;
    var force, delay := Q.HeadPc(c).force, Q.HeadPc(c).delay;
    assert c.queue[..1] == [c.queue[0]];
    NoneInFlight(c);
    if c.bgError || (!(delay && c.l0 >= Q.L0_SLOWDOWN) && !(!force && q.fits) && !(c.imm || c.l0 >= Q.L0_STOP)) {
      FinishedView(c, 1, Q.Group(c.queue[..1], c.lastSeq + 1, 0, false, false, c.bgError, c.switched, Q.Failed));
    } else if delay && c.l0 >= Q.L0_SLOWDOWN {
      HeadSet(c, Q.Sleeping(force));
    } else if !force && q.fits {
      FinishedView(c, 1, Q.Group(c.queue[..1], c.lastSeq + 1, 0, false, false, c.bgError, c.switched, Q.Ok));
    } else {
      HeadSet(c, Q.Blocked(force, delay));
    }
  }

  lemma NoneInFlight(c: Q.State)
    requires !Q.HeadPc(c).Writing?
    ensures InFlight(c).None?
  {
    hide Q.HeadPc;
  }

  lemma SleepView(c: Q.State)
    requires Q.Inv(c) && Q.Enabled(c, Q.SleepDone)
    ensures SameView(c, Q.SetHead(c, Q.Room(Q.HeadPc(c).force, false)))
  {
    hide Q.QueueOk, Q.DoneOk, Q.HistoryOk, Q.ScheduleOk, Q.HeadOk, Q.HeadPc, Q.SetHead, Acknowledged, InFlight;
    Placed(c);
    HeadSet(c, Q.Room(Q.HeadPc(c).force, false));
  }

  lemma BgEndView(c: Q.State)
    requires Q.Inv(c)
    ensures SameView(c, Q.Broadcast(Q.Schedule(c.(scheduled := false, running := None))))
  {
    Placed(c);
    hide Q.Inv, Q.QueueOk, Q.DoneOk, Q.HeadPc, Q.Broadcast, Q.Schedule, Acknowledged, InFlight;
    var idle := c.(scheduled := false, running := None);
    ScheduledOnly(idle);
    SamePlaces(c, Q.Schedule(idle));
    BroadcastPlaces(Q.Schedule(idle));
  }

  /** The background thread and its schedule. */
  lemma BackgroundStepView(c: Q.State, q: Q.Step)
    requires Q.Enabled(c, q) && CallsAlone(c, q) && (q.BgStart? || q.BgCompact? || q.SeekCompaction? || q.Shutdown?)
    ensures SameView(c, Q.Next(c, q))
  {
    hide Q.HeadPc, Q.Broadcast, Q.Schedule, Q.Written, Q.Roomed, Q.SetHead, Acknowledged, InFlight, Q.Knows;
    ScheduledOnly(c.(more := true));
    SamePlaces(c, Q.Next(c, q));
  }

  lemma OtherView(c: Q.State, q: Q.Step)
    requires Q.Inv(c) && Q.Enabled(c, q) && CallsAlone(c, q) && !q.MakeRoom? && !q.Arrive? && !q.Wake?
    ensures SameView(c, Q.Next(c, q))
  {
    hide Q.Inv, Q.HeadPc, Q.Broadcast, Q.Schedule, Q.Written, Q.Roomed, Q.SetHead, SameView, Q.Knows;
    if q.SleepDone? {
      SleepView(c);
    } else if q.BgEnd? {
      BgEndView(c);
    } else {
      BackgroundStepView(c, q);
    }
  }

  lemma ScheduledOnly(c: Q.State)
    ensures var c' := Q.Schedule(c); c' == c.(scheduled := c'.scheduled, pool := c'.pool)
  {
    hide Q.NeedsCompaction;
  }

  /** A step only the queue knows of shows nothing to the database. */
  lemma CallsView(c: Q.State, q: Q.Step)
    requires Q.Inv(c) && Q.Enabled(c, q) && CallsAlone(c, q)
    ensures SameView(c, Q.Next(c, q))
  {
    match q {
      case Arrive(w) => ArriveView(c, w);
      case Wake(id) => WakeView(c, id);
      case MakeRoom(_, _, _) => RoomView(c, q);
      case _ => OtherView(c, q);
    }
    hide Q.Inv, Q.Enabled, Q.Next, CallsAlone, SameView;
  }

  lemma StartsView(c: Q.State, q: Q.Step)
    requires Q.Inv(c) && Q.Enabled(c, q) && StartsWriting(c, q)
    ensures var c' := Q.Next(c, q);
            && c'.lastSeq == c.lastSeq && c'.bgError == c.bgError && c'.imm == c.imm && c'.groups == c.groups
            && InFlight(c').Some? && InFlight(c).None?
            && InFlight(c').value == Numbered(Q.Ops(c.queue[..Q.GroupLength(c.queue, 1)]), c.lastSeq + 1)
  {
    hide Q.QueueOk, Q.DoneOk, Q.HistoryOk, Q.ScheduleOk, Q.HeadOk, Q.Groupable, Acknowledged, Numbered, Q.Ops;
    hide Q.GroupLength;
    hide Q.Written, Q.Broadcast, Q.RecordError, Q.Schedule, Q.HeadPc, Q.SetHead, Q.Finish;
    Placed(c);
    Q.SetHeadKeeps(c, Q.Writing(Q.GroupLength(c.queue, 1), c.lastSeq, c.bgError));
    SetHeadOnly(c, Q.Writing(Q.GroupLength(c.queue, 1), c.lastSeq, c.bgError));
  }

  lemma SetHeadOnly(c: Q.State, pc: Q.Pc)
    requires c.queue != []
    ensures Q.SetHead(c, pc) == c.(pc := Q.SetHead(c, pc).pc)
  {
  }

  lemma SwitchView(c: Q.State, q: Q.Step)
    requires Q.Inv(c) && Q.Enabled(c, q) && SwitchesMemtable(c, q)
    ensures var c' := Q.Next(c, q);
            && c'.lastSeq == c.lastSeq && c'.bgError == !q.closed && c'.imm && c'.groups == c.groups
            && InFlight(c').None? && InFlight(c).None?
  {
    hide Q.QueueOk, Q.DoneOk, Q.HistoryOk, Q.ScheduleOk, Q.HeadOk, Q.Groupable, Acknowledged, InFlight;
    hide Q.Written, Q.Broadcast, Q.Schedule, Q.HeadPc, Q.SetHead, Q.Finish;
    var pc := Q.Room(false, Q.HeadPc(c).delay);
    Placed(c);
    NoneInFlight(c);
    Q.SetHeadKeeps(c, pc);
    SetHeadOnly(c, pc);
    var switched := Q.SetHead(c, pc).(imm := true, hasImm := true, frozen := c.frozen + 1, switched := true);
    SamePlaces(Q.SetHead(c, pc), switched);
    NoneInFlight(switched);
    SamePlaces(switched, switched.(bgError := true));
    BroadcastPlaces(switched.(bgError := true));
    var next := if q.closed then switched else Q.RecordError(switched);
    ScheduledOnly(next);
    SamePlaces(next, Q.Schedule(next));
  }

  lemma WriteView(c: Q.State, logged: bool, syncFails: bool)
    requires Q.Inv(c) && Q.Enabled(c, Q.WriteDone(logged, syncFails))
    ensures var c' := Q.Next(c, Q.WriteDone(logged, syncFails));
            var failed := logged && c.queue[0].sync && syncFails;
            && InFlight(c).Some? && InFlight(c').None? && c'.imm == c.imm
            && c'.lastSeq == c.lastSeq + |InFlight(c).value| && c'.bgError == (c.bgError || failed)
            && Acknowledged(c'.groups)
               == Acknowledged(c.groups) + if logged && !failed then InFlight(c).value else []
  {
    hide Q.QueueOk, Q.DoneOk, Q.HistoryOk, Q.ScheduleOk, Q.HeadOk, Q.Groupable, Acknowledged, Q.Ops, Numbered;
    hide Q.Roomed, Q.Broadcast, Q.Schedule, Q.HeadPc, Q.Finish, Q.RecordError;
    var n, base := Q.HeadPc(c).size, Q.HeadPc(c).base;
    var sync := c.queue[0].sync;
    var ops := Q.Ops(c.queue[..n]);
    Placed(c);
    ErrorView(c);
    var next := (if logged && sync && syncFails then Q.RecordError(c) else c).(lastSeq := base + |ops|);
    var g := Q.Group(c.queue[..n], base + 1, |ops|, true, logged && sync && !syncFails, Q.HeadPc(c).sawError, c.switched,
                     if logged && (!sync || !syncFails) then Q.Ok else Q.Failed);
    NumberedIs(ops, base + 1);
    FinishedView(next, n, g);
  }

  /** Recording an error wakes the blocked head and does nothing else. */
  lemma ErrorView(c: Q.State)
    requires Q.Inv(c)
    ensures var c' := Q.RecordError(c);
            && c' == c.(bgError := true, pc := c'.pc) && InFlight(c') == InFlight(c)
            && Q.QueueOk(c'.arrived, c'.queue, c'.groups, c'.pc) && Q.DoneOk(c'.groups, c'.pc)
            && (Q.HeadPc(c').Writing? ==> c'.queue != [] && Q.HeadPc(c').size <= |c'.queue|)
  {
    hide Q.QueueOk, Q.DoneOk, Q.HistoryOk, Q.ScheduleOk, Q.HeadOk, Q.Groupable, InFlight, Q.HeadPc, Q.Broadcast;
    Placed(c);
    SamePlaces(c, c.(bgError := true));
    Q.BroadcastKeeps(c.(bgError := true));
    BroadcastPlaces(c.(bgError := true));
  }

  lemma FlushView(c: Q.State, ok: bool, added: nat)
    requires Q.Inv(c) && Q.Enabled(c, Q.BgFlush(ok, added))
    ensures var c' := Q.Next(c, Q.BgFlush(ok, added));
            && c'.lastSeq == c.lastSeq && c'.groups == c.groups && InFlight(c') == InFlight(c)
            && c'.bgError == (c.bgError || !ok) && c'.imm == (c.imm && !ok)
  {
    hide Q.QueueOk, Q.DoneOk, Q.HistoryOk, Q.ScheduleOk, Q.HeadOk, Q.Groupable, Acknowledged, InFlight;
    hide Q.Written, Q.Roomed, Q.Schedule, Q.HeadPc, Q.SetHead, Q.Broadcast, Q.RecordError;
    Placed(c);
    var flushed := c.(imm := false, hasImm := false, flushed := c.flushed + 1, l0 := c.l0 + added);
    var next := if ok then flushed else Q.RecordError(c);
    SamePlaces(c, flushed);
    ErrorView(c);
    BroadcastPlaces(next);
    SamePlaces(next, next.(running := Some(Q.Ending)));
  }

  lemma CompactView(c: Q.State, ok: bool, l0: nat, more: bool)
    requires Q.Inv(c) && Q.Enabled(c, Q.BgCompact(ok, l0, more))
    ensures var c' := Q.Next(c, Q.BgCompact(ok, l0, more));
            && c'.lastSeq == c.lastSeq && c'.groups == c.groups && InFlight(c') == InFlight(c)
            && c'.bgError == (c.bgError || !ok) && c'.imm == c.imm
  {
    hide Q.QueueOk, Q.DoneOk, Q.HistoryOk, Q.ScheduleOk, Q.HeadOk, Q.Groupable, Acknowledged, InFlight;
    hide Q.Written, Q.Roomed, Q.Schedule, Q.HeadPc, Q.SetHead, Q.Broadcast, Q.RecordError;
    ErrorView(c);
    var next := if ok then c.(l0 := l0, more := more) else Q.RecordError(c);
    SamePlaces(c, c.(l0 := l0, more := more));
    SamePlaces(next, next.(running := Some(Q.Ending)));
  }

  // ---- what the database's steps do ----

  predicate Busy(phase: S.Phase) {
    phase.Logging? || phase.Inserting?
  }

  /** As seen from the queue, nothing happened. */
  predicate SameShow(s: S.State, s': S.State) {
    && s'.lastSeq == s.lastSeq && s'.bgError == s.bgError && s'.imm == s.imm && s'.hist == s.hist && s'.pend == s.pend
    && (s'.phase == s.phase || (Busy(s.phase) && Busy(s'.phase)))
  }

  lemma WritesShow(s: S.State, step: S.Step)
    requires S.Enabled(s, step) && ((step.Append? && step.outcome.Wrote?) || step.Insert?)
    ensures SameShow(s, S.Next(s, step))
  {
    hide S.Begin, S.Finished, S.Switched, S.Built, S.ManifestWritten, S.Committed, S.MergeOutputAdded, S.Doomed;
    hide S.Captured;
    hide S.Looked, S.Reopened, S.Contents, S.LogContents, S.Mem, S.LogAt, Elements, S.Imm;
  }

  lemma FilesShow(s: S.State, step: S.Step)
    requires S.Enabled(s, step)
    requires || step.FlushStart? || (step.FlushBuilt? && step.ok) || step.WriteManifest? || step.MergeStart? || step.MergeOutput?
             || step.MergeCommit?
    ensures SameShow(s, S.Next(s, step))
  {
    hide S.Begin, S.Finished, S.Switched, S.Logged, S.Inserted, S.Committed, S.Doomed, S.Captured;
    hide S.Looked, S.Reopened, S.Contents, S.LogContents, S.Mem, S.LogAt, Elements, S.Imm;
  }

  lemma ReadersShow(s: S.State, step: S.Step)
    requires S.Enabled(s, step)
    requires step.RemoveStart? || step.RemoveTable? || step.RemoveLog? || step.RemoveDone? || Recovery.Reads(step)
    ensures SameShow(s, S.Next(s, step))
  {
    hide S.Begin, S.Finished, S.Switched, S.Logged, S.Inserted, S.Committed, S.Built, S.ManifestWritten;
    hide S.MergeOutputAdded;
    hide S.Reopened, S.Contents, S.LogContents, S.Mem, S.LogAt, Elements, S.Imm, S.ImmContents, S.InUse, S.MemAt;
  }

  lemma StoresShow(s: S.State, step: S.Step)
    requires S.Enabled(s, step) && StoresAlone(step)
    ensures SameShow(s, S.Next(s, step))
  {
    if step.Append? || step.Insert? {
      WritesShow(s, step);
    } else if step.FlushStart? || step.FlushBuilt? || step.WriteManifest? || step.MergeStart? || step.MergeOutput?
              || step.MergeCommit? {
      FilesShow(s, step);
    } else {
      ReadersShow(s, step);
    }
    hide S.Next, S.Enabled, SameShow;
  }

  lemma CommittedShows(s: S.State, ok: bool)
    requires s.job.Committing?
    ensures var s' := S.Committed(s, ok);
            && s'.lastSeq == s.lastSeq && s'.hist == s.hist && s'.pend == s.pend && s'.phase == s.phase
            && s'.bgError == (s.bgError || !ok) && s'.imm == (if ok && s.job.flush then None else s.imm)
  {
    hide S.MergeBelow, S.Contents;
  }

  lemma CommitShows(s: S.State, step: S.Step)
    requires S.Enabled(s, step) && (step.Commit? || step == S.FlushBuilt(false) || step == S.MergeFail)
    ensures var s' := S.Next(s, step);
            && s'.lastSeq == s.lastSeq && s'.hist == s.hist && s'.pend == s.pend && s'.phase == s.phase
            && s'.bgError == (s.bgError || !(step.Commit? && step.ok))
            && s'.imm == (if step.Commit? && step.ok && s.job.flush then None else s.imm)
  {
    hide S.Begin, S.Finished, S.Switched, S.Logged, S.Inserted, S.ManifestWritten, S.MergeOutputAdded, S.Doomed;
    hide S.Captured;
    hide S.Reopened, S.Contents, S.LogContents, S.Mem, S.LogAt, Elements, S.Imm, S.ImmContents, S.InUse, S.MemAt;
    hide S.Looked;
    hide S.Committed;
    if step.Commit? {
      CommittedShows(s, step.ok);
    }
  }

  lemma WriterShows(s: S.State, step: S.Step)
    requires S.Enabled(s, step)
    requires step.BeginGroup? || step.Switch? || (step.Append? && step.outcome.Failed?) || step.SyncFail? || step.FinishGroup?
    ensures var s' := S.Next(s, step);
            match step
            case BeginGroup(ops) =>
              && s'.lastSeq == s.lastSeq && s'.bgError == s.bgError && s'.imm == s.imm && s'.hist == s.hist
              && s'.pend == ops && s'.phase.Logging?
            case Switch(closed) =>
              && s'.lastSeq == s.lastSeq && s'.bgError == !closed && s'.imm.Some? && s'.hist == s.hist
              && s'.phase == s.phase
            case _ =>
              && s'.lastSeq == s.lastSeq + |s.pend| && s'.imm == s.imm && !Busy(s'.phase)
              && s'.bgError == (s.bgError || step.SyncFail?)
              && s'.hist == s.hist + if step.FinishGroup? then s.pend else []
  {
    hide S.Built, S.Committed, S.Inserted, S.ManifestWritten, S.MergeOutputAdded, S.Doomed, S.Captured;
    hide S.Reopened, S.Contents, S.LogContents, S.Mem, S.LogAt, Elements, S.Imm, S.ImmContents, S.InUse, S.MemAt;
    hide S.Looked;
  }

  // ---- both together ----

  /** A step keeps the two in agreement. */
  lemma StepAgrees(st: State, step: Step, start: seq<Entry>)
    requires Inv(st, start) && Enabled(st, step)
    ensures Agree(Next(st, step).calls, Next(st, step).store, start)
  {
    hide Q.Inv, Safety.Inv, Q.Enabled, Q.Next, S.Enabled, S.Next, InFlight, Acknowledged, SameEvent, CallsAlone;
    hide StoresAlone;
    match step {
      case Calls(q) => CallsView(st.calls, q);
      case Stores(s) => StoresShow(st.store, s);
      case Both(q, s) => BothAgree(st, q, s, start);
    }
  }

  lemma BothAgree(st: State, q: Q.Step, s: S.Step, start: seq<Entry>)
    requires Inv(st, start) && Enabled(st, Both(q, s))
    ensures Agree(Q.Next(st.calls, q), S.Next(st.store, s), start)
  {
    hide Q.Inv, Safety.Inv, Q.Enabled, Q.Next, S.Enabled, S.Next, InFlight, Acknowledged, StartsWriting;
    hide SwitchesMemtable, Numbered;
    var (c, store) := (st.calls, st.store);
    match q {
      case MakeRoom(_, _, _) =>
        WriterShows(store, s);
        if StartsWriting(c, q) && s.BeginGroup? {
          StartsView(c, q);
        } else {
          SwitchView(c, q);
        }
      case WriteDone(logged, syncFails) =>
        WriterShows(store, s);
        WriteView(c, logged, syncFails);
        assert start + Acknowledged(c.groups) + store.pend == start + (Acknowledged(c.groups) + store.pend);
      case BgFlush(ok, added) =>
        CommitShows(store, s);
        FlushView(c, ok, added);
      case BgCompact(ok, l0, more) =>
        CommitShows(store, s);
        CompactView(c, ok, l0, more);
    }
  }

  // ---- whole runs ----

  ghost predicate Runs(st: State, steps: seq<Step>, end: State)
    decreases |steps|
  {
    if steps == [] then st == end else Enabled(st, steps[0]) && Runs(Next(st, steps[0]), steps[1..], end)
  }

  /** The steps the queue takes part in. */
  function CallSteps(steps: seq<Step>): seq<Q.Step> {
    if steps == [] then []
    else
      (match steps[0] case Calls(q) => [q] case Stores(_) => [] case Both(q, _) => [q]) + CallSteps(steps[1..])
  }

  /** The steps the database takes part in. */
  function StoreSteps(steps: seq<Step>): seq<S.Step> {
    if steps == [] then []
    else
      (match steps[0] case Calls(_) => [] case Stores(s) => [s] case Both(_, s) => [s]) + StoreSteps(steps[1..])
  }

  lemma QueueCons(c: Q.State, q: Q.Step, rest: seq<Q.Step>, end: Q.State)
    requires Q.Enabled(c, q) && Q.Runs(Q.Next(c, q), rest, end)
    ensures Q.Runs(c, [q] + rest, end)
  {
    hide Q.Enabled, Q.Next;
    assert ([q] + rest)[1..] == rest;
  }

  lemma StoreCons(c: S.State, s: S.Step, rest: seq<S.Step>, end: S.State)
    requires S.Enabled(c, s) && Recovery.Runs(S.Next(c, s), rest, end)
    ensures Recovery.Runs(c, [s] + rest, end)
  {
    hide S.Enabled, S.Next;
    assert ([s] + rest)[1..] == rest;
  }

  /** A run of the engine is a run of the writer queue and a run of the database. */
  lemma {:induction false} RunsBoth(st: State, steps: seq<Step>, end: State)
    requires Runs(st, steps, end)
    ensures Q.Runs(st.calls, CallSteps(steps), end.calls) && Recovery.Runs(st.store, StoreSteps(steps), end.store)
    decreases |steps|
  {
    hide Q.Enabled, Q.Next, S.Enabled, S.Next, Q.Runs, Recovery.Runs, SameEvent, CallsAlone, StoresAlone;
    if steps == [] {
      EmptyRuns(st);
    } else {
      var next := Next(st, steps[0]);
      RunsBoth(next, steps[1..], end);
      assert [] + CallSteps(steps[1..]) == CallSteps(steps[1..]) && [] + StoreSteps(steps[1..]) == StoreSteps(steps[1..]);
      match steps[0] {
        case Calls(q) => QueueCons(st.calls, q, CallSteps(steps[1..]), end.calls);
        case Stores(s) => StoreCons(st.store, s, StoreSteps(steps[1..]), end.store);
        case Both(q, s) =>
          QueueCons(st.calls, q, CallSteps(steps[1..]), end.calls);
          StoreCons(st.store, s, StoreSteps(steps[1..]), end.store);
      }
    }
  }

  lemma EmptyRuns(st: State)
    ensures Q.Runs(st.calls, [], st.calls) && Recovery.Runs(st.store, [], st.store)
  {
  }

  lemma CarefulRest(s: S.Step, rest: seq<S.Step>)
    requires Recovery.Careful([s] + rest)
    ensures Recovery.Legible(s) && Recovery.Careful(rest)
  {
    Recovery.CarefulSteps([s] + rest);
    assert ([s] + rest)[1..] == rest;
    hide Recovery.Legible;
  }

  lemma StepKeeps(st: State, step: Step, rest: seq<Step>, start: seq<Entry>)
    requires Inv(st, start) && Enabled(st, step) && Recovery.Careful(StoreSteps([step] + rest))
    ensures Inv(Next(st, step), start) && Recovery.Careful(StoreSteps(rest))
  {
    hide Q.Inv, Safety.Inv, Q.Enabled, Q.Next, S.Enabled, S.Next, Agree, SameEvent, CallsAlone, StoresAlone;
    hide Recovery.Legible, Recovery.Careful;
    StepAgrees(st, step, start);
    assert ([step] + rest)[1..] == rest;
    assert [] + StoreSteps(rest) == StoreSteps(rest);
    if !step.Stores? {
      Q.StepKeeps(st.calls, if step.Calls? then step.q else step.call);
    }
    if !step.Calls? {
      var s := if step.Stores? then step.s else step.store;
      CarefulRest(s, StoreSteps(rest));
      Recovery.StepKeeps(st.store, s);
    }
  }

  lemma {:induction false} RunKeeps(st: State, steps: seq<Step>, end: State, start: seq<Entry>)
    requires Inv(st, start) && Runs(st, steps, end) && Recovery.Careful(StoreSteps(steps))
    ensures Inv(end, start)
    decreases |steps|
  {
    hide Inv, Enabled, Next, StoreSteps, Recovery.Careful;
    if steps != [] {
      assert [steps[0]] + steps[1..] == steps;
      StepKeeps(st, steps[0], steps[1..], start);
      RunKeeps(Next(st, steps[0]), steps[1..], end, start);
    }
  }

  /** A database as an open leaves it, and the queue of the process that opened it. */
  ghost predicate JustOpened(st: State) {
    && st.store.phase.Idle? && !st.store.bgError && st.store.imm.None?
    && exists l0: nat, more :: st.calls == Q.Opened(st.store.lastSeq, l0, more)
  }

  lemma OpenedAgrees(st: State)
    requires JustOpened(st) && Safety.Inv(st.store)
    ensures Inv(st, st.store.hist)
  {
    hide Safety.Inv;
    var l0: nat, more :| st.calls == Q.Opened(st.store.lastSeq, l0, more);
    Q.OpenedOk(st.store.lastSeq, l0, more);
    assert st.store.hist + [] == st.store.hist;
  }

  /**
   * In every run of the engine, however calls, readers and the background interleave, the history of the database is
   * what it was when it was opened followed by the operations of the acknowledged groups, in order and under the
   * numbers the queue gave them; nothing of a failed call is in it.
   */
  lemma HistoryIsAcknowledged(before: seq<S.Step>, st: State, steps: seq<Step>, end: State)
    requires Recovery.Runs(Recovery.Created(), before, st.store) && Recovery.Careful(before)
    requires JustOpened(st) && Runs(st, steps, end) && Recovery.Careful(StoreSteps(steps))
    ensures end.store.hist == st.store.hist + Acknowledged(end.calls.groups)
    ensures end.store.lastSeq == end.calls.lastSeq && end.store.bgError == end.calls.bgError
  {
    hide Recovery.Runs, Recovery.Careful, Runs, JustOpened, Q.Inv, Safety.Inv, InFlight, Acknowledged;
    Recovery.CreatedOk();
    Recovery.RunKeeps(Recovery.Created(), before, st.store);
    OpenedAgrees(st);
    RunKeeps(st, steps, end, st.store.hist);
  }

  /** The operations of one group are in the history. */
  lemma {:induction false} GroupAcknowledged(groups: seq<Q.Group>, k: nat, e: Entry)
    requires k < |groups| && groups[k].wrote && groups[k].result.Ok? && e in Numbered(Q.Ops(groups[k].members), groups[k].first)
    ensures e in Acknowledged(groups)
    decreases |groups|
  {
    hide Numbered, Q.Ops;
    var n := |groups| - 1;
    if k < n {
      GroupAcknowledged(groups[..n], k, e);
    }
  }

  lemma PartNumbered(ops: seq<Op>, first: nat, at: nat, n: nat)
    requires at + n <= |ops|
    ensures forall e :: e in Numbered(ops[at..at + n], first + at) ==> e in Numbered(ops, first)
  {
    var part := ops[at..at + n];
    NumberedIs(ops, first);
    NumberedIs(part, first + at);
    var mine, all := Numbered(part, first + at), Numbered(ops, first);
    forall i | 0 <= i < n ensures mine[i] in all {
      assert part[i] == ops[at + i] && all[at + i] == mine[i];
    }
  }

  /** The operations of the i-th call are in the history under consecutive numbers from `first` on. */
  lemma AcknowledgedInHistory(before: seq<S.Step>, st: State, steps: seq<Step>, end: State, i: nat) returns (first: nat)
    requires Recovery.Runs(Recovery.Created(), before, st.store) && Recovery.Careful(before)
    requires JustOpened(st) && Runs(st, steps, end) && Recovery.Careful(StoreSteps(steps))
    requires i < |end.calls.arrived| && end.calls.arrived[i].batch.Some?
    requires end.calls.arrived[i].id in end.calls.pc && end.calls.pc[end.calls.arrived[i].id] == Q.Completed(Q.Ok)
    ensures forall e :: e in Numbered(end.calls.arrived[i].batch.value, first) ==> e in end.store.hist
    ensures st.store.lastSeq < first
  {
    hide Recovery.Runs, Recovery.Careful, Runs, Q.Inv, Safety.Inv, InFlight, Acknowledged, Q.Runs, Numbered, Q.Ops;
    var l0: nat, more :| st.calls == Q.Opened(st.store.lastSeq, l0, more);
    RunsBoth(st, steps, end);
    HistoryIsAcknowledged(before, st, steps, end);
    var k, m, at := Q.AcknowledgedIsLogged(st.store.lastSeq, l0, more, CallSteps(steps), end.calls, i);
    var g, batch := end.calls.groups[k], end.calls.arrived[i].batch.value;
    first := g.first + at;
    PartNumbered(Q.Ops(g.members), g.first, at, |batch|);
    forall e | e in Numbered(batch, first) ensures e in end.store.hist {
      GroupAcknowledged(end.calls.groups, k, e);
    }
  }

  lemma CarefulJoin(x: seq<S.Step>, y: seq<S.Step>)
    requires Recovery.Careful(x) && Recovery.Careful(y)
    ensures Recovery.Careful(x + y)
  {
    hide Recovery.Legible;
  }

  /** The operation is in the history, and if it is the last one on its key, every get that begins now returns it. */
  ghost predicate ReadByAll(st: S.State, e: Entry) {
    e in st.hist && (Recovery.LastOn(st.hist, e) ==> Recovery.Returned(st, e))
  }

  /**
   * From the call to the reader: the operations of an acknowledged call are numbered consecutively, and until one is
   * overwritten, every get of its key that begins later returns it, in this process or after any crashes that do not
   * find it missing.
   */
  lemma {:induction false} AcknowledgedIsRead(before: seq<S.Step>, st: State, steps: seq<Step>, end: State, i: nat,
                                              after: seq<S.Step>, later: S.State) returns (first: nat)
    requires Recovery.Runs(Recovery.Created(), before, st.store) && Recovery.Careful(before)
    requires JustOpened(st) && Runs(st, steps, end) && Recovery.Careful(StoreSteps(steps))
    requires i < |end.calls.arrived| && end.calls.arrived[i].batch.Some?
    requires end.calls.arrived[i].id in end.calls.pc && end.calls.pc[end.calls.arrived[i].id] == Q.Completed(Q.Ok)
    requires Recovery.Runs(end.store, after, later) && Recovery.Careful(after)
    ensures st.store.lastSeq < first
    ensures forall e :: e in Numbered(end.calls.arrived[i].batch.value, first) && Recovery.Spared(end.store, after, e) ==>
              ReadByAll(later, e)
  {
    hide Recovery.Runs, Recovery.Careful, Runs, Recovery.Spared, Numbered, JustOpened, StoreSteps, Recovery.Returned;
    first := AcknowledgedInHistory(before, st, steps, end, i);
    RunsBoth(st, steps, end);
    var all := before + StoreSteps(steps);
    Recovery.RunsJoin(Recovery.Created(), before, st.store, StoreSteps(steps), end.store);
    CarefulJoin(before, StoreSteps(steps));
    forall e | e in Numbered(end.calls.arrived[i].batch.value, first) && Recovery.Spared(end.store, after, e)
      ensures ReadByAll(later, e)
    {
      Recovery.SparedIsRead(all, end.store, after, later, e);
    }
  }
}
