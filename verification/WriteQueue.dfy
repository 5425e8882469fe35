/**
 * The writer queue and the background schedule as a transition system (db_impl.c). A step is what one thread
 * does while it holds the mutex; the mutex is free while a leader sleeps, waits or writes to the log.
 */
module WriteQueue {
  import opened Bytes
  import opened WriteBatch

  const SMALL_WRITE := 131072
  const LARGE_GROUP := 1048576
  const L0_COMPACT := 4
  const L0_SLOWDOWN := 8
  const L0_STOP := 12

  /** One call of ldb_write; no batch asks for a memtable switch only. */
  datatype Waiter = Waiter(id: nat, batch: Option<seq<Op>>, sync: bool)

  datatype Result = Ok | Failed

  /** Where a calling thread is. */
  datatype Pc =
    | Waiting                               // on its own condition variable
    | Signalled                             // woken, not yet running
    | Room(force: bool, delay: bool)        // head of the queue, in ldb_make_room_for_write
    | Sleeping(force: bool)                 // its one-millisecond delay
    | Blocked(force: bool, delay: bool)     // waiting for background work to finish
    // logging and inserting for the first `size` waiters, after sequence `base`; had the check before it seen an error?
    | Writing(size: nat, base: nat, sawError: bool)
    | Completed(result: Result)

  /** What one leader did, for everyone it completed. */
  datatype Group = Group(members: seq<Waiter>, first: nat, count: nat, wrote: bool, synced: bool,
                         sawError: bool, switched: bool, result: Result)

  datatype Work = Flushing | Compacting | Ending

  datatype State = State(
    arrived: seq<Waiter>,        // every call so far, in order
    queue: seq<Waiter>,
    pc: map<nat, Pc>,
    groups: seq<Group>,          // in the order they finished
    base: nat,                   // the last sequence when the database was opened
    lastSeq: nat,
    switched: bool,              // the current leader has switched memtables
    imm: bool,
    hasImm: bool,
    frozen: nat,                 // memtables made immutable, and flushed
    flushed: nat,
    scheduled: bool,
    pool: nat,                   // jobs queued on the background thread
    running: Option<Work>,
    bgError: bool,
    shutdown: bool,
    l0: nat,                     // level-0 files
    more: bool)                  // another level, or a file read too often, needs compaction

  // ---- building a group ----

  function SizeOf(w: Waiter): nat {
    if w.batch.Some? then Size(w.batch.value) else 0
  }

  function Total(ws: seq<Waiter>): nat {
    if ws == [] then 0 else Total(ws[..|ws| - 1]) + SizeOf(ws[|ws| - 1])
  }

  function Ops(ws: seq<Waiter>): seq<Op> {
    if ws == [] then []
    else
      var w := ws[|ws| - 1];
      Ops(ws[..|ws| - 1]) + if w.batch.Some? then w.batch.value else []
  }

  /** A small first write keeps its group small. */
  function Cap(first: nat): nat {
    if first <= SMALL_WRITE then first + SMALL_WRITE else LARGE_GROUP
  }

  /** May waiter n join a group of all those before it? */
  predicate Joins(queue: seq<Waiter>, n: nat)
    requires 0 < n < |queue|
  {
    && !(queue[n].sync && !queue[0].sync)
    && (queue[n].batch.Some? ==> Total(queue[..n]) + SizeOf(queue[n]) <= Cap(SizeOf(queue[0])))
  }

  function GroupLength(queue: seq<Waiter>, n: nat): (r: nat)
    requires 0 < n <= |queue|
    ensures n <= r <= |queue|
    decreases |queue| - n
  {
    if n < |queue| && Joins(queue, n) then GroupLength(queue, n + 1) else n
  }

  /** What may be written together. */
  predicate Groupable(ws: seq<Waiter>) {
    && ws != [] && ws[0].batch.Some?
    && (forall i :: 0 < i < |ws| ==> ws[i].sync ==> ws[0].sync)
    && (Total(ws) <= Cap(SizeOf(ws[0])) || Total(ws) == SizeOf(ws[0]))
  }

  lemma TotalFirst(w: Waiter)
    ensures Total([w]) == SizeOf(w) && Ops([w]) == if w.batch.Some? then w.batch.value else []
  {
    assert Total([]) == 0 && Ops([]) == [];
  }

  lemma TakeNext(queue: seq<Waiter>, n: nat)
    requires n < |queue|
    ensures Total(queue[..n + 1]) == Total(queue[..n]) + SizeOf(queue[n])
    ensures Ops(queue[..n + 1]) == Ops(queue[..n]) + if queue[n].batch.Some? then queue[n].batch.value else []
  {
    assert queue[..n + 1][..n] == queue[..n];
  }

  /** A group is the longest run of waiters that may be written together: it fits, and the next one may not join. */
  lemma {:induction false} GroupIsMaximal(queue: seq<Waiter>, n: nat)
    requires 0 < n <= |queue| && Groupable(queue[..n])
    ensures var r := GroupLength(queue, n);
            && Groupable(queue[..r]) && (r < |queue| ==> !Joins(queue, r))
            && forall m :: n <= m < r ==> Joins(queue, m)
    decreases |queue| - n
  {
    hide Total, SizeOf;
    if n < |queue| && Joins(queue, n) {
      TakeNext(queue, n);
      NextFits(queue, n);
      GroupIsMaximal(queue, n + 1);
    }
  }

  lemma NextFits(queue: seq<Waiter>, n: nat)
    requires 0 < n < |queue| && Groupable(queue[..n]) && Joins(queue, n)
    ensures Groupable(queue[..n + 1])
  {
    hide Total, Cap, Size, Ops;
    TakeNext(queue, n);
    assert queue[..n + 1][0] == queue[0] && queue[..n][0] == queue[0];
    assert forall i :: 0 < i < n ==> queue[..n + 1][i] == queue[..n][i];
  }

  lemma AloneIsGroupable(queue: seq<Waiter>)
    requires queue != [] && queue[0].batch.Some?
    ensures Groupable(queue[..1])
  {
    assert queue[..1] == [queue[0]];
    TotalFirst(queue[0]);
  }

  /**
   * In bytes: a group of several batches is at most 128 KiB larger than its first batch, when that has at most 128 KiB, and
   * at most 1 MiB otherwise; and the waiter after it wants a sync that the first does not, or would take it over.
   */
  lemma GroupLimits(queue: seq<Waiter>)
    requires queue != [] && queue[0].batch.Some?
    ensures var (r, first) := (GroupLength(queue, 1), SizeOf(queue[0]));
            var limit := if first <= 131072 then first + 131072 else 1048576;
            && (Total(queue[..r]) <= limit || Total(queue[..r]) == first)
            && (forall i :: 0 < i < r && queue[i].sync ==> queue[0].sync)
            && (r < |queue| ==>
                  || (queue[r].sync && !queue[0].sync)
                  || (queue[r].batch.Some? && Total(queue[..r]) + SizeOf(queue[r]) > limit))
  {
    AloneIsGroupable(queue);
    GroupIsMaximal(queue, 1);
    hide Total, SizeOf, GroupLength;
    var r := GroupLength(queue, 1);
    assert queue[..r][0] == queue[0];
    forall i | 0 < i < r && queue[i].sync ensures queue[0].sync {
      assert queue[..r][i] == queue[i];
    }
  }

  /** ldb_build_batch_group. */
  method BuildBatchGroup(queue: seq<Waiter>) returns (last: nat, result: seq<Op>)
    requires queue != [] && queue[0].batch.Some?
    ensures last + 1 == GroupLength(queue, 1)
    ensures result == Ops(queue[..last + 1])
  {
    hide Size, Total, Ops, GroupLength;
    var first := queue[0];
    result := first.batch.value;
    var size := Size(first.batch.value);
    var maxSize := LARGE_GROUP;
    if size <= SMALL_WRITE {
      maxSize := size + SMALL_WRITE;
    }
    last := 0;
    TotalFirst(first);
    assert queue[..1] == [first];
    for w := 1 to |queue|
      invariant last == w - 1
      invariant size == Total(queue[..w]) && maxSize == Cap(SizeOf(first)) && result == Ops(queue[..w])
      invariant GroupLength(queue, 1) == GroupLength(queue, w)
    {
      TakeNext(queue, w);
      LengthUnfolds(queue, w);
      if queue[w].sync && !first.sync {
        return;
      }
      if queue[w].batch.Some? {
        size := size + Size(queue[w].batch.value);
        if size > maxSize {
          return;
        }
        result := result + queue[w].batch.value;
      }
      last := w;
    }
    LengthUnfolds(queue, |queue|);
  }

  lemma LengthUnfolds(queue: seq<Waiter>, n: nat)
    requires 0 < n <= |queue|
    ensures GroupLength(queue, n) == if n < |queue| && Joins(queue, n) then GroupLength(queue, n + 1) else n
  {
  }

  // ---- steps ----

  datatype Step =
    | Arrive(w: Waiter)
    | Wake(id: nat)
    | MakeRoom(fits: bool, created: bool, closed: bool)
    | SleepDone
    | WriteDone(logged: bool, syncFails: bool)
    | BgStart
    | BgFlush(ok: bool, added: nat)
    | BgCompact(ok: bool, l0: nat, more: bool)
    | BgEnd
    | SeekCompaction
    | Shutdown

  ghost predicate Knows(st: State, id: nat) {
    exists i :: 0 <= i < |st.arrived| && st.arrived[i].id == id
  }

  function HeadPc(st: State): Pc {
    if st.queue != [] && st.queue[0].id in st.pc then st.pc[st.queue[0].id] else Waiting
  }

  ghost predicate Enabled(st: State, step: Step) {
    match step
    case Arrive(w) => !st.shutdown && !Knows(st, w.id)
    case Wake(id) => id in st.pc && st.pc[id].Signalled?
    case MakeRoom(fits, _, _) => st.queue != [] && HeadPc(st).Room?
    case SleepDone => st.queue != [] && HeadPc(st).Sleeping?
    case WriteDone(_, _) => st.queue != [] && HeadPc(st).Writing? && 0 < HeadPc(st).size <= |st.queue|
    case BgStart => st.pool > 0 && st.running.None?
    case BgFlush(ok, _) =>
      && st.running.Some? && (st.running.value.Flushing? || (st.running.value.Compacting? && st.imm))
      && (ok ==> !st.shutdown)
    case BgCompact(_, _, _) => st.running == Some(Compacting)
    case BgEnd => st.running == Some(Ending)
    case SeekCompaction => !st.shutdown
    case Shutdown => st.queue == []
  }

  predicate NeedsCompaction(st: State) {
    st.l0 >= L0_COMPACT || st.more
  }

  /** ldb_maybe_schedule_compaction. */
  function Schedule(st: State): State {
    if st.scheduled || st.shutdown || st.bgError || (!st.imm && !NeedsCompaction(st)) then st
    else st.(scheduled := true, pool := st.pool + 1)
  }

  /** Everyone waiting for background work runs again. */
  ghost function Broadcast(st: State): State {
    st.(pc := map id | id in st.pc :: if st.pc[id].Blocked? then Room(st.pc[id].force, st.pc[id].delay) else st.pc[id])
  }

  /** ldb_record_background_error. */
  ghost function RecordError(st: State): State {
    if st.bgError then st else Broadcast(st.(bgError := true))
  }

  function SetHead(st: State, pc: Pc): State
    requires st.queue != []
  {
    st.(pc := st.pc[st.queue[0].id := pc])
  }

  /** A thread at the head of the queue begins its turn. */
  function Lead(st: State): State
    requires st.queue != []
  {
    SetHead(st, Room(st.queue[0].batch.None?, st.queue[0].batch.Some?)).(switched := false)
  }

  /** The leader takes its group off the queue, completes everyone in it, and signals the new head. */
  ghost function Finish(st: State, n: nat, g: Group): State
    requires 0 < n <= |st.queue|
  {
    var rest := st.queue[n..];
    st.(queue := rest, groups := st.groups + [g],
        pc := map id | id in st.pc ::
                if InSeq(st.queue[..n], id) then Completed(g.result)
                else if rest != [] && rest[0].id == id then Signalled
                else st.pc[id])
  }

  predicate InSeq(ws: seq<Waiter>, id: nat) {
    exists i :: 0 <= i < |ws| && ws[i].id == id
  }

  /** The leader's turn ends without a write. */
  ghost function FinishAlone(st: State, result: Result): State
    requires st.queue != []
  {
    Finish(st, 1, Group(st.queue[..1], st.lastSeq + 1, 0, false, false, st.bgError, st.switched, result))
  }

  /** One pass of the loop of ldb_make_room_for_write, and what follows it when it ends. */
  ghost function Roomed(st: State, fits: bool, created: bool, closed: bool): State
    requires st.queue != [] && HeadPc(st).Room?
  {
    var (force, delay) := (HeadPc(st).force, HeadPc(st).delay);
    if st.bgError then FinishAlone(st, Failed)
    else if delay && st.l0 >= L0_SLOWDOWN then SetHead(st, Sleeping(force))
    else if !force && fits then
      if st.queue[0].batch.None? then FinishAlone(st, Ok)
      else SetHead(st, Writing(GroupLength(st.queue, 1), st.lastSeq, st.bgError))
    else if st.imm || st.l0 >= L0_STOP then SetHead(st, Blocked(force, delay))
    else if !created then FinishAlone(st, Failed)
    else
      var switched := SetHead(st, Room(false, delay)).(imm := true, hasImm := true, frozen := st.frozen + 1, switched := true);
      Schedule(if closed then switched else RecordError(switched))
  }

  /** The leader comes back from the log with the mutex. */
  ghost function Written(st: State, logged: bool, syncFails: bool): State
    requires st.queue != [] && HeadPc(st).Writing? && 0 < HeadPc(st).size <= |st.queue|
  {
    var (n, base, sync) := (HeadPc(st).size, HeadPc(st).base, st.queue[0].sync);
    var synced := logged && sync && !syncFails;
    var ok := logged && (!sync || !syncFails);
    var ops := Ops(st.queue[..n]);
    var next := if logged && sync && syncFails then RecordError(st) else st;
    Finish(next.(lastSeq := base + |ops|), n,
           Group(st.queue[..n], base + 1, |ops|, true, synced, HeadPc(st).sawError, st.switched, if ok then Ok else Failed))
  }

  ghost function Next(st: State, step: Step): State
    requires Enabled(st, step)
  {
    match step
    case Arrive(w) =>
      var next := st.(arrived := st.arrived + [w], queue := st.queue + [w], pc := st.pc[w.id := Waiting]);
      if st.queue == [] then Lead(next) else next
    case Wake(id) =>
      if st.queue != [] && st.queue[0].id == id then Lead(st) else st.(pc := st.pc[id := Waiting])
    case MakeRoom(fits, created, closed) => Roomed(st, fits, created, closed)
    case SleepDone => SetHead(st, Room(HeadPc(st).force, false))
    case WriteDone(logged, syncFails) => Written(st, logged, syncFails)
    case BgStart =>
      st.(pool := st.pool - 1,
          running := Some(if st.shutdown || st.bgError then Ending else if st.imm then Flushing else Compacting))
    case BgFlush(ok, added) =>
      var next := if ok then st.(imm := false, hasImm := false, flushed := st.flushed + 1, l0 := st.l0 + added)
                  else RecordError(st);
      if st.running.value.Flushing? then next.(running := Some(Ending)) else Broadcast(next)
    case BgCompact(ok, l0, more) =>
      (if ok then st.(l0 := l0, more := more) else RecordError(st)).(running := Some(Ending))
    case BgEnd => Broadcast(Schedule(st.(scheduled := false, running := None)))
    case SeekCompaction => Schedule(st.(more := true))
    case Shutdown => st.(shutdown := true)
  }

  // ---- the invariant ----

  function Members(groups: seq<Group>): seq<Waiter> {
    if groups == [] then [] else Members(groups[..|groups| - 1]) + groups[|groups| - 1].members
  }

  /** Groups hold consecutive ranges of sequence numbers, in order, up to the last sequence. */
  predicate Ranges(groups: seq<Group>, base: nat, last: nat) {
    if groups == [] then last == base
    else
      var g := groups[|groups| - 1];
      g.first > base && g.first + g.count == last + 1 && Ranges(groups[..|groups| - 1], base, g.first - 1)
  }

  /** What is true of everything a leader completes. */
  predicate GroupOk(g: Group) {
    && g.members != []
    && (g.wrote ==> Groupable(g.members) && g.count == |Ops(g.members)|)
    && (!g.wrote ==> |g.members| == 1 && g.count == 0)
    && (g.result.Ok? && g.wrote ==> forall i :: 0 <= i < |g.members| && g.members[i].sync ==> g.synced)
    && (g.result.Ok? ==> !g.sawError && if g.members[0].batch.Some? then g.wrote else g.switched)
  }

  predicate Unique(ws: seq<Waiter>) {
    forall i, j :: 0 <= i < j < |ws| ==> ws[i].id != ws[j].id
  }

  predicate QueueOk(arrived: seq<Waiter>, queue: seq<Waiter>, groups: seq<Group>, pc: map<nat, Pc>) {
    && Unique(arrived) && arrived == Members(groups) + queue
    && (forall i :: 0 <= i < |arrived| ==> arrived[i].id in pc)
    && (forall i :: 0 < i < |queue| ==> queue[i].id in pc && pc[queue[i].id] == Waiting)
    && (forall id :: id in pc ==> InSeq(arrived, id))
  }

  predicate DoneOk(groups: seq<Group>, pc: map<nat, Pc>) {
    forall k, i :: 0 <= k < |groups| && 0 <= i < |groups[k].members| ==>
      var id := groups[k].members[i].id;
      id in pc && pc[id] == Completed(groups[k].result)
  }

  predicate LeaderFlags(w: Waiter, force: bool, switched: bool) {
    (force ==> w.batch.None?) && (w.batch.None? && !force ==> switched)
  }

  /** The head of the queue is never asleep without someone bound to wake it. */
  predicate HeadOk(st: State) {
    st.queue != [] ==>
      var w := st.queue[0];
      match HeadPc(st)
      case Signalled => true
      case Room(force, _) => LeaderFlags(w, force, st.switched)
      case Sleeping(force) => LeaderFlags(w, force, st.switched)
      case Blocked(force, _) => LeaderFlags(w, force, st.switched) && st.scheduled && !st.bgError
      case Writing(n, base, sawError) =>
        0 < n <= |st.queue| && Groupable(st.queue[..n]) && base == st.lastSeq && !sawError
      case _ => false
  }

  predicate HistoryOk(groups: seq<Group>, base: nat, lastSeq: nat) {
    base <= lastSeq && Ranges(groups, base, lastSeq) && forall k :: 0 <= k < |groups| ==> GroupOk(groups[k])
  }

  /** The immutable memtable, the flag readers of has_imm see, and the one background job. */
  predicate ScheduleOk(st: State) {
    && st.hasImm == st.imm
    && st.frozen == st.flushed + (if st.imm then 1 else 0)
    && st.pool + (if st.running.Some? then 1 else 0) == (if st.scheduled then 1 else 0)
    && (st.running == Some(Flushing) ==> st.imm)
    && ((st.imm || NeedsCompaction(st)) && !st.bgError && !st.shutdown ==> st.scheduled)
    && (st.shutdown ==> st.queue == [])
  }

  predicate Inv(st: State) {
    && QueueOk(st.arrived, st.queue, st.groups, st.pc)
    && DoneOk(st.groups, st.pc)
    && HeadOk(st)
    && HistoryOk(st.groups, st.base, st.lastSeq)
    && ScheduleOk(st)
  }

  // ---- every step keeps it ----

  lemma MembersAppend(groups: seq<Group>, g: Group)
    ensures Members(groups + [g]) == Members(groups) + g.members
  {
    assert (groups + [g])[..|groups|] == groups;
  }

  lemma RangesAppend(groups: seq<Group>, base: nat, last: nat, g: Group)
    requires Ranges(groups, base, last) && g.first == last + 1 && base <= last
    ensures Ranges(groups + [g], base, last + g.count)
  {
    assert (groups + [g])[..|groups|] == groups;
  }

  lemma {:induction false} MembersIndex(groups: seq<Group>, k: nat, i: nat) returns (p: nat)
    requires k < |groups| && i < |groups[k].members|
    ensures p < |Members(groups)| && Members(groups)[p] == groups[k].members[i]
  {
    var n := |groups| - 1;
    if k < n {
      p := MembersIndex(groups[..n], k, i);
    } else {
      p := |Members(groups[..n])| + i;
    }
  }

  /** Nobody in the queue has been completed. */
  lemma QueuedNotDone(st: State, k: nat, i: nat, j: nat)
    requires QueueOk(st.arrived, st.queue, st.groups, st.pc)
    requires k < |st.groups| && i < |st.groups[k].members| && j < |st.queue|
    ensures st.groups[k].members[i].id != st.queue[j].id
  {
    var p := MembersIndex(st.groups, k, i);
    var m := |Members(st.groups)|;
    assert st.arrived[p] == st.groups[k].members[i] && st.arrived[m + j] == st.queue[j];
  }

  lemma QueueIds(st: State, i: nat, j: nat)
    requires QueueOk(st.arrived, st.queue, st.groups, st.pc) && i < j < |st.queue|
    ensures st.queue[i].id != st.queue[j].id
  {
    var m := |Members(st.groups)|;
    assert st.arrived[m + i] == st.queue[i] && st.arrived[m + j] == st.queue[j];
  }

  lemma HeadKnown(st: State)
    requires QueueOk(st.arrived, st.queue, st.groups, st.pc) && st.queue != []
    ensures st.queue[0].id in st.pc && HeadPc(st) == st.pc[st.queue[0].id]
  {
    assert st.arrived[|Members(st.groups)|] == st.queue[0];
  }

  /** Setting the head's state touches nobody else. */
  lemma SetHeadKeeps(st: State, pc: Pc)
    requires QueueOk(st.arrived, st.queue, st.groups, st.pc) && DoneOk(st.groups, st.pc) && st.queue != []
    ensures var st' := SetHead(st, pc);
            && QueueOk(st'.arrived, st'.queue, st'.groups, st'.pc) && DoneOk(st'.groups, st'.pc) && HeadPc(st') == pc
  {
    var st' := SetHead(st, pc);
    HeadKnown(st);
    forall i | 0 < i < |st.queue| ensures st'.pc[st.queue[i].id] == Waiting {
      QueueIds(st, 0, i);
    }
    forall k, i | 0 <= k < |st.groups| && 0 <= i < |st.groups[k].members|
      ensures var id := st.groups[k].members[i].id;
              id in st'.pc && st'.pc[id] == Completed(st.groups[k].result)
    {
      QueuedNotDone(st, k, i, 0);
    }
  }

  lemma BroadcastKeeps(st: State)
    requires QueueOk(st.arrived, st.queue, st.groups, st.pc) && DoneOk(st.groups, st.pc)
    ensures var st' := Broadcast(st);
            && QueueOk(st.arrived, st.queue, st.groups, st'.pc) && DoneOk(st.groups, st'.pc)
            && HeadPc(st') == (if HeadPc(st).Blocked? then Room(HeadPc(st).force, HeadPc(st).delay) else HeadPc(st))
            && st' == st.(pc := st'.pc)
  {
    if st.queue != [] {
      HeadKnown(st);
    }
  }

  /** The head is as it was, or was waiting for the background and runs again. */
  lemma HeadKept(st: State, st': State)
    requires HeadOk(st) && st'.queue == st.queue && st'.lastSeq == st.lastSeq && st'.switched == st.switched
    requires || (HeadPc(st') == HeadPc(st) && (HeadPc(st).Blocked? ==> st'.scheduled && !st'.bgError))
             || (HeadPc(st).Blocked? && HeadPc(st') == Room(HeadPc(st).force, HeadPc(st).delay))
    ensures HeadOk(st')
  {
    hide HeadPc, Groupable;
  }

  lemma RestOfQueue(st: State, n: nat)
    requires QueueOk(st.arrived, st.queue, st.groups, st.pc) && 0 < n <= |st.queue|
    ensures forall i :: n <= i < |st.queue| ==> !InSeq(st.queue[..n], st.queue[i].id)
    ensures forall i :: n < i < |st.queue| ==> st.queue[n].id != st.queue[i].id
  {
    forall i | n <= i < |st.queue| ensures !InSeq(st.queue[..n], st.queue[i].id) {
      forall j | 0 <= j < n ensures st.queue[..n][j].id != st.queue[i].id {
        QueueIds(st, j, i);
      }
    }
    forall i | n < i < |st.queue| ensures st.queue[n].id != st.queue[i].id {
      QueueIds(st, n, i);
    }
  }

  lemma FinishQueue(st: State, n: nat, g: Group)
    requires QueueOk(st.arrived, st.queue, st.groups, st.pc) && DoneOk(st.groups, st.pc)
    requires 0 < n <= |st.queue| && g.members == st.queue[..n]
    ensures var st' := Finish(st, n, g);
            && QueueOk(st'.arrived, st'.queue, st'.groups, st'.pc) && DoneOk(st'.groups, st'.pc)
            && (st'.queue != [] ==> HeadPc(st').Signalled?)
  {
    hide QueueOk, DoneOk, Finish;
    FinishedQueue(st, n, g);
    FinishedDone(st, n, g);
  }

  lemma FinishedDone(st: State, n: nat, g: Group)
    requires QueueOk(st.arrived, st.queue, st.groups, st.pc) && DoneOk(st.groups, st.pc)
    requires 0 < n <= |st.queue| && g.members == st.queue[..n]
    ensures var st' := Finish(st, n, g); DoneOk(st'.groups, st'.pc)
  {
    hide QueueOk, InSeq;
    var st' := Finish(st, n, g);
    forall k, i | 0 <= k < |st'.groups| && 0 <= i < |st'.groups[k].members|
      ensures var id := st'.groups[k].members[i].id;
              id in st'.pc && st'.pc[id] == Completed(st'.groups[k].result)
    {
      FinishDone(st, n, g, k, i);
    }
  }

  lemma FinishedQueue(st: State, n: nat, g: Group)
    requires QueueOk(st.arrived, st.queue, st.groups, st.pc)
    requires 0 < n <= |st.queue| && g.members == st.queue[..n]
    ensures var st' := Finish(st, n, g);
            && QueueOk(st'.arrived, st'.queue, st'.groups, st'.pc) && (st'.queue != [] ==> HeadPc(st').Signalled?)
  {
    hide InSeq, Members;
    var st' := Finish(st, n, g);
    var rest := st.queue[n..];
    MembersAppend(st.groups, g);
    assert st.queue == st.queue[..n] + rest;
    RestOfQueue(st, n);
    forall i | 0 <= i < |rest| ensures rest[i] == st.queue[n + i] && rest[i].id in st'.pc {
    }
  }

  lemma FinishDone(st: State, n: nat, g: Group, k: nat, i: nat)
    requires QueueOk(st.arrived, st.queue, st.groups, st.pc) && DoneOk(st.groups, st.pc)
    requires 0 < n <= |st.queue| && g.members == st.queue[..n]
    requires k <= |st.groups| && i < |(st.groups + [g])[k].members|
    ensures var st' := Finish(st, n, g);
            var id := st'.groups[k].members[i].id;
            id in st'.pc && st'.pc[id] == Completed(st'.groups[k].result)
  {
    if k < |st.groups| {
      forall j | 0 <= j < |st.queue| ensures st.groups[k].members[i].id != st.queue[j].id {
        QueuedNotDone(st, k, i, j);
      }
    } else {
      assert g.members[i] == st.queue[i];
      if i == 0 {
        HeadKnown(st);
      }
      assert InSeq(st.queue[..n], g.members[i].id);
    }
  }

  lemma HistoryGains(groups: seq<Group>, base: nat, lastSeq: nat, g: Group)
    requires HistoryOk(groups, base, lastSeq) && GroupOk(g) && g.first == lastSeq + 1
    ensures HistoryOk(groups + [g], base, lastSeq + g.count)
  {
    hide Ranges, GroupOk;
    RangesAppend(groups, base, lastSeq, g);
  }

  lemma FinishKeeps(st: State, n: nat, g: Group)
    requires QueueOk(st.arrived, st.queue, st.groups, st.pc) && DoneOk(st.groups, st.pc) && ScheduleOk(st)
    requires 0 < n <= |st.queue| && g.members == st.queue[..n]
    requires HistoryOk(st.groups + [g], st.base, st.lastSeq)
    ensures Inv(Finish(st, n, g))
  {
    hide QueueOk, DoneOk, HistoryOk;
    FinishQueue(st, n, g);
  }

  lemma FinishAloneKeeps(st: State, result: Result)
    requires Inv(st) && st.queue != [] && HeadPc(st).Room?
    requires result.Ok? ==> !st.bgError && st.queue[0].batch.None? && !HeadPc(st).force
    ensures Inv(FinishAlone(st, result))
  {
    hide QueueOk, DoneOk, ScheduleOk, Ranges, Groupable;
    var g := Group(st.queue[..1], st.lastSeq + 1, 0, false, false, st.bgError, st.switched, result);
    assert GroupOk(g);
    HistoryGains(st.groups, st.base, st.lastSeq, g);
    FinishKeeps(st, 1, g);
  }

  lemma WriteKeeps(st: State, logged: bool, syncFails: bool)
    requires Inv(st) && Enabled(st, WriteDone(logged, syncFails))
    ensures Inv(Written(st, logged, syncFails))
  {
    hide QueueOk, DoneOk, HistoryOk, Groupable, Total, GroupOk, Finish, Broadcast, Ops;
    var n, base, sync := HeadPc(st).size, HeadPc(st).base, st.queue[0].sync;
    var synced := logged && sync && !syncFails;
    var ok := logged && (!sync || !syncFails);
    var ops := Ops(st.queue[..n]);
    var g := Group(st.queue[..n], base + 1, |ops|, true, synced, false, st.switched, if ok then Ok else Failed);
    assert GroupOk(g) by { WroteOk(st, g); }
    HistoryGains(st.groups, st.base, st.lastSeq, g);
    var next := if logged && sync && syncFails then RecordError(st) else st;
    BroadcastKeeps(st.(bgError := true));
    FinishKeeps(next.(lastSeq := base + |ops|), n, g);
  }

  lemma WroteOk(st: State, g: Group)
    requires g.members != [] && Groupable(g.members) && g.count == |Ops(g.members)| && g.wrote && !g.sawError
    requires g.result.Ok? && g.members[0].sync ==> g.synced
    ensures GroupOk(g)
  {
    hide Total, Ops;
  }

  /** Scheduling never queues a second job, and leaves no work unscheduled. */
  lemma Schedules(st: State)
    requires st.hasImm == st.imm && st.frozen == st.flushed + (if st.imm then 1 else 0)
    requires st.pool + (if st.running.Some? then 1 else 0) == (if st.scheduled then 1 else 0)
    requires st.running == Some(Flushing) ==> st.imm
    requires st.shutdown ==> st.queue == []
    ensures ScheduleOk(Schedule(st))
  {
  }

  lemma SwitchKeeps(st: State, created: bool, closed: bool)
    requires Inv(st) && st.queue != [] && HeadPc(st).Room? && !st.bgError && !st.imm
    ensures var switched := SetHead(st, Room(false, HeadPc(st).delay))
                            .(imm := true, hasImm := true, frozen := st.frozen + 1, switched := true);
            Inv(Schedule(if closed then switched else RecordError(switched)))
  {
    hide QueueOk, DoneOk, HistoryOk, Groupable;
    var pc := Room(false, HeadPc(st).delay);
    SetHeadKeeps(st, pc);
    var switched := SetHead(st, pc).(imm := true, hasImm := true, frozen := st.frozen + 1, switched := true);
    BroadcastKeeps(switched.(bgError := true));
    var next := if closed then switched else RecordError(switched);
    Schedules(next);
  }

  /** The leader changes state; nothing else does. */
  lemma LeaderMoves(st: State, pc: Pc)
    requires Inv(st) && st.queue != [] && HeadPc(st).Room?
    requires pc == Sleeping(HeadPc(st).force)
          || (pc == Blocked(HeadPc(st).force, HeadPc(st).delay) && st.scheduled && !st.bgError)
          || (pc.Writing? && 0 < pc.size <= |st.queue| && Groupable(st.queue[..pc.size]) && pc.base == st.lastSeq && !pc.sawError)
    ensures Inv(SetHead(st, pc))
  {
    hide QueueOk, DoneOk, HistoryOk, Groupable;
    SetHeadKeeps(st, pc);
  }

  lemma RoomKeeps(st: State, fits: bool, created: bool, closed: bool)
    requires Inv(st) && Enabled(st, MakeRoom(fits, created, closed))
    ensures Inv(Roomed(st, fits, created, closed))
  {
    hide Inv, HeadPc, SetHead, GroupLength, Groupable, FinishAlone, Schedule, RecordError;
    var force, delay := HeadPc(st).force, HeadPc(st).delay;
    if st.bgError {
      FinishAloneKeeps(st, Failed);
    } else if delay && st.l0 >= L0_SLOWDOWN {
      LeaderMoves(st, Sleeping(force));
    } else if !force && fits {
      if st.queue[0].batch.None? {
        FinishAloneKeeps(st, Ok);
      } else {
        AloneIsGroupable(st.queue);
        GroupIsMaximal(st.queue, 1);
        LeaderMoves(st, Writing(GroupLength(st.queue, 1), st.lastSeq, st.bgError));
      }
    } else if st.imm || st.l0 >= L0_STOP {
      MustBeScheduled(st);
      LeaderMoves(st, Blocked(force, delay));
    } else if !created {
      FinishAloneKeeps(st, Failed);
    } else {
      SwitchKeeps(st, created, closed);
    }
  }

  lemma MustBeScheduled(st: State)
    requires Inv(st) && st.queue != [] && !st.bgError && (st.imm || st.l0 >= L0_STOP)
    ensures st.scheduled
  {
    hide QueueOk, DoneOk, HistoryOk, HeadOk;
  }

  /** Someone else joins the queue behind the head. */
  lemma JoinsBehind(st: State, w: Waiter, next: State)
    requires HeadOk(st) && st.queue != [] && st.queue[0].id in st.pc && st.queue[0].id != w.id
    requires next == st.(arrived := st.arrived + [w], queue := st.queue + [w], pc := st.pc[w.id := Waiting])
    ensures HeadOk(next)
  {
    hide Groupable;
    assert next.queue[0] == st.queue[0];
    if HeadPc(st).Writing? {
      assert next.queue[..HeadPc(st).size] == st.queue[..HeadPc(st).size];
    }
  }

  lemma ArriveKeeps(st: State, w: Waiter)
    requires Inv(st) && Enabled(st, Arrive(w))
    ensures Inv(Next(st, Arrive(w)))
  {
    hide HistoryOk, HeadOk, QueueOk, DoneOk, Groupable;
    var next := st.(arrived := st.arrived + [w], queue := st.queue + [w], pc := st.pc[w.id := Waiting]);
    Enrolled(st, w);
    if st.queue == [] {
      SetHeadKeeps(next, Room(w.batch.None?, w.batch.Some?));
      LeadOk(next);
    } else {
      HeadKnown(st);
      JoinsBehind(st, w, next);
    }
  }

  lemma LeadOk(st: State)
    requires st.queue != []
    ensures HeadOk(Lead(st))
  {
    hide Groupable;
  }

  lemma NewcomerIsNew(st: State, w: Waiter)
    requires QueueOk(st.arrived, st.queue, st.groups, st.pc) && !Knows(st, w.id)
    ensures forall i :: 0 <= i < |st.queue| ==> st.queue[i].id != w.id
    ensures forall k, i :: 0 <= k < |st.groups| && 0 <= i < |st.groups[k].members| ==> st.groups[k].members[i].id != w.id
    ensures forall i :: 0 <= i < |st.arrived| ==> st.arrived[i].id != w.id
  {
    var m := |Members(st.groups)|;
    forall i | 0 <= i < |st.queue| ensures st.queue[i].id != w.id {
      assert st.arrived[m + i] == st.queue[i];
    }
    forall k, i | 0 <= k < |st.groups| && 0 <= i < |st.groups[k].members|
      ensures st.groups[k].members[i].id != w.id
    {
      var p := MembersIndex(st.groups, k, i);
      assert st.arrived[p] == st.groups[k].members[i];
    }
  }

  lemma StillThere(arrived: seq<Waiter>, w: Waiter, id: nat)
    requires InSeq(arrived, id) || id == w.id
    ensures InSeq(arrived + [w], id)
  {
    var all := arrived + [w];
    if id == w.id {
      assert all[|arrived|].id == id;
    } else {
      var i :| 0 <= i < |arrived| && arrived[i].id == id;
      assert all[i].id == id;
    }
  }

  lemma Enrolled(st: State, w: Waiter)
    requires Inv(st) && Enabled(st, Arrive(w))
    ensures var next := st.(arrived := st.arrived + [w], queue := st.queue + [w], pc := st.pc[w.id := Waiting]);
            && QueueOk(next.arrived, next.queue, next.groups, next.pc) && DoneOk(next.groups, next.pc)
            && forall i :: 0 <= i < |st.queue| ==> st.queue[i].id != w.id
  {
    hide HistoryOk, HeadOk, ScheduleOk, InSeq;
    NewcomerIsNew(st, w);
    hide Knows;
    forall id | id in st.pc || id == w.id ensures InSeq(st.arrived + [w], id) {
      StillThere(st.arrived, w, id);
    }
    assert st.arrived + [w] == Members(st.groups) + (st.queue + [w]);
  }

  /** Only the head of the queue is ever signalled, and it stays the head until it runs. */
  lemma SignalledIsHead(st: State, id: nat)
    requires Inv(st) && id in st.pc && !st.pc[id].Waiting? && !st.pc[id].Completed?
    ensures st.queue != [] && st.queue[0].id == id
  {
    hide HistoryOk, HeadOk, ScheduleOk;
    var i :| 0 <= i < |st.arrived| && st.arrived[i].id == id;
    var m := |Members(st.groups)|;
    if i < m {
      var k, j := GroupOf(st.groups, i);
      assert false;
    } else {
      assert st.arrived[i] == st.queue[i - m];
    }
  }

  lemma {:induction false} GroupOf(groups: seq<Group>, p: nat) returns (k: nat, i: nat)
    requires p < |Members(groups)|
    ensures k < |groups| && i < |groups[k].members| && groups[k].members[i] == Members(groups)[p]
  {
    var n := |groups| - 1;
    var m := |Members(groups[..n])|;
    if p < m {
      k, i := GroupOf(groups[..n], p);
    } else {
      k, i := n, p - m;
    }
  }

  lemma WakeKeeps(st: State, id: nat)
    requires Inv(st) && Enabled(st, Wake(id))
    ensures Inv(Next(st, Wake(id)))
  {
    hide QueueOk, DoneOk, HistoryOk, Groupable;
    SignalledIsHead(st, id);
    SetHeadKeeps(st, Room(st.queue[0].batch.None?, st.queue[0].batch.Some?));
  }

  lemma FlushKeeps(st: State, ok: bool, added: nat)
    requires Inv(st) && Enabled(st, BgFlush(ok, added))
    ensures Inv(Next(st, BgFlush(ok, added)))
  {
    hide QueueOk, DoneOk, HistoryOk, HeadOk, Groupable, Broadcast, HeadPc;
    var next := if ok then st.(imm := false, hasImm := false, flushed := st.flushed + 1, l0 := st.l0 + added)
                else RecordError(st);
    BroadcastKeeps(st.(bgError := true));
    BroadcastKeeps(next);
    if ok {
      SameHead(st, next);
    }
    SameHead(st, st.(bgError := true));
    SameHead(next, next.(running := Some(Ending)));
    BlockedNeeds(st);
    HeadKept(st, Next(st, BgFlush(ok, added)));
  }

  /** The head's state is read from the queue and the threads alone. */
  lemma SameHead(st: State, st': State)
    requires st'.queue == st.queue && st'.pc == st.pc
    ensures HeadPc(st') == HeadPc(st)
  {
  }

  lemma BlockedNeeds(st: State)
    requires HeadOk(st)
    ensures st.queue != [] && HeadPc(st).Blocked? ==> st.scheduled && !st.bgError
    ensures st.queue == [] ==> !HeadPc(st).Blocked?
  {
    hide Groupable;
  }

  lemma CompactKeeps(st: State, ok: bool, l0: nat, more: bool)
    requires Inv(st) && Enabled(st, BgCompact(ok, l0, more))
    ensures Inv(Next(st, BgCompact(ok, l0, more)))
  {
    hide QueueOk, DoneOk, HistoryOk, HeadOk, Groupable, Broadcast, HeadPc;
    BroadcastKeeps(st.(bgError := true));
    SameHead(st, st.(bgError := true));
    BlockedNeeds(st);
    var st' := Next(st, BgCompact(ok, l0, more));
    SameHead(st.(pc := st'.pc), st');
    SameHead(st, st.(l0 := l0, more := more, running := Some(Ending)));
    SameHead(RecordError(st), RecordError(st).(running := Some(Ending)));
    HeadKept(st, st');
  }

  lemma BgEndKeeps(st: State)
    requires Inv(st) && Enabled(st, BgEnd)
    ensures Inv(Next(st, BgEnd))
  {
    hide QueueOk, DoneOk, HistoryOk, HeadOk, Groupable, Broadcast, HeadPc;
    var done := Schedule(st.(scheduled := false, running := None));
    Schedules(st.(scheduled := false, running := None));
    BroadcastKeeps(done);
    SameHead(st, done);
    BlockedNeeds(st);
    HeadKept(st, Broadcast(done));
  }

  lemma OthersKeep(st: State, step: Step)
    requires Inv(st) && Enabled(st, step) && (step.BgStart? || step.SeekCompaction? || step.Shutdown?)
    ensures Inv(Next(st, step))
  {
    hide QueueOk, DoneOk, HistoryOk, HeadOk, Groupable, Broadcast, HeadPc;
    var st' := Next(st, step);
    Schedules(st.(more := true));
    SameHead(st, st');
    BlockedNeeds(st);
    HeadKept(st, st');
  }

  lemma StepKeeps(st: State, step: Step)
    requires Inv(st) && Enabled(st, step)
    ensures Inv(Next(st, step))
  {
    hide QueueOk, DoneOk, HistoryOk, Groupable, ScheduleOk;
    match step {
      case Arrive(w) => ArriveKeeps(st, w);
      case Wake(id) => WakeKeeps(st, id);
      case MakeRoom(fits, created, closed) => RoomKeeps(st, fits, created, closed);
      case SleepDone => SetHeadKeeps(st, Room(HeadPc(st).force, false));
        SameSchedule(st, SetHead(st, Room(HeadPc(st).force, false)));
      case WriteDone(logged, syncFails) => WriteKeeps(st, logged, syncFails);
      case BgFlush(ok, added) => FlushKeeps(st, ok, added);
      case BgCompact(ok, l0, more) => CompactKeeps(st, ok, l0, more);
      case BgEnd => BgEndKeeps(st);
      case _ => OthersKeep(st, step);
    }
  }

  lemma SameSchedule(st: State, st': State)
    requires ScheduleOk(st) && st' == st.(pc := st'.pc)
    ensures ScheduleOk(st')
  {
  }

  // ---- whole runs ----

  /** A database just opened at a sequence number; ldb_open has already scheduled what the files call for. */
  function Opened(last: nat, l0: nat, more: bool): State {
    Schedule(State([], [], map[], [], last, last, false, false, false, 0, 0, false, 0, None, false, false, l0, more))
  }

  lemma OpenedOk(last: nat, l0: nat, more: bool)
    ensures Inv(Opened(last, l0, more))
  {
  }

  ghost predicate Runs(st: State, steps: seq<Step>, end: State)
    decreases |steps|
  {
    if steps == [] then st == end else Enabled(st, steps[0]) && Runs(Next(st, steps[0]), steps[1..], end)
  }

  /** What no step takes back. */
  ghost predicate Later(st: State, st': State) {
    && st.groups <= st'.groups && st.arrived <= st'.arrived && (st.bgError ==> st'.bgError) && st'.base == st.base
    && StillDone(st.pc, st'.pc)
  }

  predicate StillDone(pc: map<nat, Pc>, pc': map<nat, Pc>) {
    forall id :: id in pc && pc[id].Completed? ==> id in pc' && pc'[id] == pc[id]
  }

  lemma OneMoves(pc: map<nat, Pc>, id: nat, p: Pc)
    requires id !in pc || !pc[id].Completed?
    ensures StillDone(pc, pc[id := p]) && StillDone(pc, pc)
  {
  }

  lemma NotQueued(st: State, id: nat)
    requires Inv(st) && id in st.pc && st.pc[id].Completed?
    ensures forall i :: 0 <= i < |st.queue| ==> st.queue[i].id != id
  {
    hide HistoryOk, ScheduleOk, DoneOk, Groupable;
    if st.queue != [] {
      HeadKnown(st);
    }
  }

  lemma FinishIsLater(st: State, n: nat, g: Group)
    requires 0 < n <= |st.queue|
    requires forall id, i :: id in st.pc && st.pc[id].Completed? && 0 <= i < |st.queue| ==> st.queue[i].id != id
    ensures Later(st, Finish(st, n, g))
  {
    var rest := st.queue[n..];
    assert rest != [] ==> rest[0] == st.queue[n];
    forall id | id in st.pc && st.pc[id].Completed? ensures !InSeq(st.queue[..n], id) {
    }
  }

  lemma SetHeadIsLater(st: State, pc: Pc)
    requires st.queue != [] && !HeadPc(st).Completed?
    ensures Later(st, SetHead(st, pc))
  {
    hide StillDone;
    OneMoves(st.pc, st.queue[0].id, pc);
  }

  lemma BroadcastIsLater(st: State)
    ensures Later(st, Broadcast(st)) && Later(st, RecordError(st))
  {
  }

  lemma SameIsDone(pc: map<nat, Pc>)
    ensures StillDone(pc, pc)
  {
  }

  lemma LaterTwice(a: State, b: State, c: State)
    requires Later(a, b) && Later(b, c)
    ensures Later(a, c)
  {
  }

  lemma RoomIsLater(st: State, fits: bool, created: bool, closed: bool)
    requires st.queue != [] && HeadPc(st).Room?
    requires forall id, i :: id in st.pc && st.pc[id].Completed? && 0 <= i < |st.queue| ==> st.queue[i].id != id
    ensures Later(st, Roomed(st, fits, created, closed))
  {
    hide Finish, GroupLength, Broadcast, RecordError, SetHead, HeadPc;
    var force, delay := HeadPc(st).force, HeadPc(st).delay;
    FinishIsLater(st, 1, Group(st.queue[..1], st.lastSeq + 1, 0, false, false, st.bgError, st.switched, Failed));
    FinishIsLater(st, 1, Group(st.queue[..1], st.lastSeq + 1, 0, false, false, st.bgError, st.switched, Ok));
    SetHeadIsLater(st, Sleeping(force));
    SetHeadIsLater(st, Blocked(force, delay));
    SetHeadIsLater(st, Writing(GroupLength(st.queue, 1), st.lastSeq, st.bgError));
    SetHeadIsLater(st, Room(false, delay));
    var switched := SetHead(st, Room(false, delay)).(imm := true, hasImm := true, frozen := st.frozen + 1, switched := true);
    BroadcastIsLater(switched);
    LaterTwice(st, switched, RecordError(switched));
  }

  lemma WakeIsLater(st: State, id: nat)
    requires Enabled(st, Wake(id))
    ensures Later(st, Next(st, Wake(id)))
  {
    hide Roomed, Written, Broadcast, RecordError, Schedule, StillDone;
    if st.queue != [] && st.queue[0].id == id {
      SetHeadIsLater(st, Room(st.queue[0].batch.None?, st.queue[0].batch.Some?));
      assert Next(st, Wake(id)) == Lead(st);
    } else {
      OneMoves(st.pc, id, Waiting);
      assert Next(st, Wake(id)) == st.(pc := st.pc[id := Waiting]);
    }
  }

  lemma BackgroundIsLater(st: State, step: Step)
    requires Enabled(st, step)
    requires step.BgStart? || step.BgFlush? || step.BgCompact? || step.BgEnd? || step.SeekCompaction? || step.Shutdown?
    ensures Later(st, Next(st, step))
  {
    hide Broadcast, RecordError, Roomed, Written, Schedule, StillDone;
    BroadcastIsLater(st);
    SameIsDone(st.pc);
    ScheduleIsLater(st.(more := true));
    match step {
      case BgFlush(ok, added) =>
        var next := if ok then st.(imm := false, hasImm := false, flushed := st.flushed + 1, l0 := st.l0 + added)
                    else RecordError(st);
        BroadcastIsLater(next);
        LaterTwice(st, next, Broadcast(next));
      case BgEnd =>
        var done := Schedule(st.(scheduled := false, running := None));
        ScheduleIsLater(st.(scheduled := false, running := None));
        BroadcastIsLater(done);
        LaterTwice(st, done, Broadcast(done));
      case _ =>
    }
  }

  lemma ScheduleIsLater(st: State)
    ensures Later(st, Schedule(st)) && Schedule(st) == st.(scheduled := Schedule(st).scheduled, pool := Schedule(st).pool)
  {
  }

  /** A completed call stays completed, with the same result; errors and finished groups stay too. */
  lemma StepIsLater(st: State, step: Step)
    requires Inv(st) && Enabled(st, step)
    ensures Later(st, Next(st, step))
  {
    hide QueueOk, HistoryOk, ScheduleOk, DoneOk, HeadOk, Later, Roomed, Written;
    forall id | id in st.pc && st.pc[id].Completed? ensures forall i :: 0 <= i < |st.queue| ==> st.queue[i].id != id {
      NotQueued(st, id);
    }
    match step {
      case Arrive(w) => ArriveIsLater(st, w);
      case Wake(id) => WakeIsLater(st, id);
      case MakeRoom(fits, created, closed) => RoomIsLater(st, fits, created, closed);
      case SleepDone => SetHeadIsLater(st, Room(HeadPc(st).force, false));
      case WriteDone(logged, syncFails) => WriteIsLater(st, logged, syncFails);
      case _ => BackgroundIsLater(st, step);
    }
  }

  lemma ArriveIsLater(st: State, w: Waiter)
    requires Inv(st) && Enabled(st, Arrive(w))
    ensures Later(st, Next(st, Arrive(w)))
  {
    hide HistoryOk, ScheduleOk, DoneOk, HeadOk;
    hide Roomed, Written, Broadcast, RecordError, Schedule, StillDone, HeadPc;
    assert w.id !in st.pc;
    hide QueueOk, Knows;
    OneMoves(st.pc, w.id, Waiting);
    var pc := st.pc[w.id := Waiting];
    OneMoves(st.pc, w.id, Room(w.batch.None?, w.batch.Some?));
    assert pc[w.id := Room(w.batch.None?, w.batch.Some?)] == st.pc[w.id := Room(w.batch.None?, w.batch.Some?)];
  }

  lemma WriteIsLater(st: State, logged: bool, syncFails: bool)
    requires Enabled(st, WriteDone(logged, syncFails))
    requires forall id, i :: id in st.pc && st.pc[id].Completed? && 0 <= i < |st.queue| ==> st.queue[i].id != id
    ensures Later(st, Written(st, logged, syncFails))
  {
    hide Finish, Ops, Broadcast, RecordError;
    var n, base := HeadPc(st).size, HeadPc(st).base;
    var sync := st.queue[0].sync;
    var ops := Ops(st.queue[..n]);
    BroadcastIsLater(st);
    var next := (if logged && sync && syncFails then RecordError(st) else st).(lastSeq := base + |ops|);
    var g := Group(st.queue[..n], base + 1, |ops|, true, logged && sync && !syncFails, HeadPc(st).sawError, st.switched,
                   if logged && (!sync || !syncFails) then Ok else Failed);
    ErrorOnlyWakes(st);
    FinishIsLater(next, n, g);
    LaterTwice(st, next, Finish(next, n, g));
  }

  lemma ErrorOnlyWakes(st: State)
    ensures var st' := RecordError(st);
            && st'.queue == st.queue && st'.groups == st.groups && st'.switched == st.switched && st'.base == st.base
            && forall id :: id in st'.pc && st'.pc[id].Completed? ==> id in st.pc && st.pc[id] == st'.pc[id]
  {
  }

  lemma {:induction false} RunKeeps(st: State, steps: seq<Step>, end: State)
    requires Inv(st) && Runs(st, steps, end)
    ensures Inv(end) && Later(st, end)
    decreases |steps|
  {
    hide Inv, Enabled, Next;
    if steps != [] {
      StepKeeps(st, steps[0]);
      StepIsLater(st, steps[0]);
      RunKeeps(Next(st, steps[0]), steps[1..], end);
    }
  }

  predicate Leads(pc: Pc) {
    pc.Room? || pc.Sleeping? || pc.Blocked? || pc.Writing?
  }

  /** In every run at most one thread leads, and it is the head of the queue. */
  lemma OneLeader(last: nat, l0: nat, more: bool, steps: seq<Step>, end: State, a: nat, b: nat)
    requires Runs(Opened(last, l0, more), steps, end)
    requires a in end.pc && b in end.pc && Leads(end.pc[a]) && Leads(end.pc[b])
    ensures a == b && end.queue != [] && end.queue[0].id == a
  {
    hide Inv, Runs;
    OpenedOk(last, l0, more);
    RunKeeps(Opened(last, l0, more), steps, end);
    SignalledIsHead(end, a);
    SignalledIsHead(end, b);
  }

  /** In every run the head of the queue is running, signalled, or waiting for a background job that is scheduled. */
  lemma HeadIsAwake(last: nat, l0: nat, more: bool, steps: seq<Step>, end: State)
    requires Runs(Opened(last, l0, more), steps, end) && end.queue != []
    ensures HeadPc(end).Signalled? || Leads(HeadPc(end))
    ensures HeadPc(end).Blocked? ==> end.scheduled && end.pool + (if end.running.Some? then 1 else 0) == 1
  {
    hide Runs, QueueOk, DoneOk, HistoryOk, Groupable;
    OpenedOk(last, l0, more);
    RunKeeps(Opened(last, l0, more), steps, end);
  }

  /** In every run waiters finish in arrival order, each once, with the result of the one group it belongs to. */
  lemma CompletesOnce(last: nat, l0: nat, more: bool, steps: seq<Step>, end: State, i: nat) returns (k: nat, m: nat)
    requires Runs(Opened(last, l0, more), steps, end) && i < |end.arrived|
    ensures end.arrived == Members(end.groups) + end.queue && Unique(end.arrived)
    ensures end.arrived[i].id in end.pc
    ensures end.pc[end.arrived[i].id].Completed? <==> i < |Members(end.groups)|
    ensures i < |Members(end.groups)| ==>
              && k < |end.groups| && m < |end.groups[k].members| && end.groups[k].members[m] == end.arrived[i]
              && end.pc[end.arrived[i].id] == Completed(end.groups[k].result) && GroupOk(end.groups[k])
  {
    hide Runs, HeadOk, ScheduleOk, GroupOk, Ranges;
    OpenedOk(last, l0, more);
    RunKeeps(Opened(last, l0, more), steps, end);
    var n := |Members(end.groups)|;
    if i < n {
      k, m := GroupOf(end.groups, i);
    } else {
      k, m := 0, 0;
      assert end.arrived[i] == end.queue[i - n];
      if end.pc[end.arrived[i].id].Completed? {
        NotQueued(end, end.arrived[i].id);
        assert false;
      }
    }
  }

  /**
   * In every run: readers of has_imm see imm, at most one background job is queued or running, no memtable was made
   * immutable over an unflushed one, and unflushed or needed work has a job unless an error or shutdown forbids it.
   */
  lemma NoLostWork(last: nat, l0: nat, more: bool, steps: seq<Step>, end: State)
    requires Runs(Opened(last, l0, more), steps, end)
    ensures end.hasImm == end.imm && end.pool + (if end.running.Some? then 1 else 0) <= 1
    ensures end.frozen == end.flushed + if end.imm then 1 else 0
    ensures (end.imm || NeedsCompaction(end)) && !end.bgError && !end.shutdown ==> end.scheduled
  {
    hide Runs, QueueOk, DoneOk, HistoryOk, HeadOk;
    OpenedOk(last, l0, more);
    RunKeeps(Opened(last, l0, more), steps, end);
  }

  lemma AcknowledgedWasLogged(g: Group, m: nat)
    requires GroupOk(g) && m < |g.members| && g.result.Ok? && g.members[m].batch.Some?
    ensures g.wrote && (g.members[m].sync ==> g.synced) && !g.sawError && g.count == |Ops(g.members)|
  {
    hide Groupable, Ops;
  }

  /** Where the operations of one member are among those of its group. */
  lemma {:induction false} OpsHold(ws: seq<Waiter>, m: nat)
    requires m < |ws| && ws[m].batch.Some?
    ensures var at := |Ops(ws[..m])|;
            at + |ws[m].batch.value| <= |Ops(ws)| && Ops(ws)[at..at + |ws[m].batch.value|] == ws[m].batch.value
    decreases |ws|
  {
    var front := ws[..|ws| - 1];
    if m < |ws| - 1 {
      assert front[..m] == ws[..m];
      OpsHold(front, m);
    }
  }

  /**
   * In every run an acknowledged write was logged by the group that completed it, and synced if it asked for that; the
   * group's leader had seen no background error; and the write's operations have consecutive sequence numbers within
   * the group's, in the order of the batch.
   */
  lemma AcknowledgedIsLogged(last: nat, l0: nat, more: bool, steps: seq<Step>, end: State, i: nat)
    returns (k: nat, m: nat, at: nat)
    requires Runs(Opened(last, l0, more), steps, end) && i < |end.arrived| && end.arrived[i].batch.Some?
    requires end.arrived[i].id in end.pc && end.pc[end.arrived[i].id] == Completed(Ok)
    ensures k < |end.groups| && m < |end.groups[k].members| && end.groups[k].members[m] == end.arrived[i]
    ensures var g := end.groups[k];
            && g.wrote && g.result.Ok? && !g.sawError && (end.arrived[i].sync ==> g.synced)
            && at + |end.arrived[i].batch.value| <= g.count == |Ops(g.members)|
            && Ops(g.members)[at..at + |end.arrived[i].batch.value|] == end.arrived[i].batch.value
            && last < g.first && g.first + g.count <= end.lastSeq + 1
  {
    hide Runs, GroupOk, Ops;
    k, m := CompletesOnce(last, l0, more, steps, end, i);
    AcknowledgedWasLogged(end.groups[k], m);
    OpsHold(end.groups[k].members, m);
    at := |Ops(end.groups[k].members[..m])|;
    OpenedOk(last, l0, more);
    RunKeeps(Opened(last, l0, more), steps, end);
    WithinRange(end.groups, end.base, end.lastSeq, k);
  }

  lemma {:induction false} WithinRange(groups: seq<Group>, base: nat, last: nat, k: nat)
    requires Ranges(groups, base, last) && k < |groups|
    ensures base < groups[k].first && groups[k].first + groups[k].count <= last + 1
    decreases |groups|
  {
    var n := |groups| - 1;
    if k < n {
      WithinRange(groups[..n], base, groups[n].first - 1, k);
    }
  }

  /** Groups take consecutive ranges of sequence numbers in the order they finish, failed writes included. */
  lemma {:induction false} RangesAreDisjoint(groups: seq<Group>, base: nat, last: nat, i: nat, j: nat)
    requires Ranges(groups, base, last) && i < j < |groups|
    ensures base < groups[i].first && groups[i].first + groups[i].count <= groups[j].first
    ensures j == i + 1 ==> groups[i].first + groups[i].count == groups[j].first
    ensures groups[j].first + groups[j].count <= last + 1
    decreases |groups|
  {
    var n := |groups| - 1;
    var front := groups[..n];
    if j < n {
      RangesAreDisjoint(front, base, groups[n].first - 1, i, j);
    } else {
      assert front[n - 1] == groups[n - 1];
      if i < n - 1 {
        RangesAreDisjoint(front, base, groups[n].first - 1, i, n - 1);
      }
    }
  }

  /** Once the background error is set and no leader is past its check, every later group fails. */
  lemma {:induction false} ErrorIsFinal(st: State, steps: seq<Step>, end: State)
    requires Inv(st) && Runs(st, steps, end) && st.bgError && !HeadPc(st).Writing?
    ensures end.bgError && st.groups <= end.groups
    ensures forall k :: |st.groups| <= k < |end.groups| ==> end.groups[k].result.Failed?
    decreases |steps|
  {
    hide Inv, Enabled, Next;
    if steps != [] {
      var next := Next(st, steps[0]);
      StepKeeps(st, steps[0]);
      StepIsLater(st, steps[0]);
      ErrorStep(st, steps[0]);
      ErrorIsFinal(next, steps[1..], end);
    }
  }

  lemma ErrorRoom(st: State, step: Step)
    requires Inv(st) && Enabled(st, step) && st.bgError && step.MakeRoom?
    ensures var st' := Next(st, step);
            !HeadPc(st').Writing? && |st'.groups| == |st.groups| + 1 && st'.groups[|st.groups|].result.Failed?
  {
    hide HistoryOk, ScheduleOk, HeadOk, QueueOk, DoneOk, GroupLength, HeadPc;
    var g := Group(st.queue[..1], st.lastSeq + 1, 0, false, false, st.bgError, st.switched, Failed);
    FinishQueue(st, 1, g);
    if Next(st, step).queue == [] {
      NoHead(Next(st, step));
    }
  }

  lemma NoHead(st: State)
    requires st.queue == []
    ensures HeadPc(st) == Waiting
  {
  }

  /** Whatever leaves the threads alone, or wakes the blocked one, leaves no leader writing. */
  lemma StillNotWriting(st: State, same: State)
    requires QueueOk(st.arrived, st.queue, st.groups, st.pc) && DoneOk(st.groups, st.pc) && !HeadPc(st).Writing?
    requires same.queue == st.queue && same.pc == st.pc && same.groups == st.groups && same.arrived == st.arrived
    ensures !HeadPc(same).Writing? && !HeadPc(Broadcast(same)).Writing? && Broadcast(same).groups == st.groups
  {
    hide QueueOk, DoneOk, Broadcast;
    BroadcastKeeps(same);
  }

  lemma ErrorBackground(st: State, step: Step)
    requires Inv(st) && Enabled(st, step) && st.bgError && !HeadPc(st).Writing?
    requires step.BgStart? || step.BgFlush? || step.BgCompact? || step.BgEnd? || step.SeekCompaction? || step.Shutdown?
    ensures var st' := Next(st, step);
            !HeadPc(st').Writing? && st'.groups == st.groups
  {
    hide HistoryOk, ScheduleOk, HeadOk, QueueOk, DoneOk, Broadcast, HeadPc, Roomed, Written;
    var st' := Next(st, step);
    match step {
      case BgFlush(ok, added) =>
        var next := if ok then st.(imm := false, hasImm := false, flushed := st.flushed + 1, l0 := st.l0 + added) else st;
        StillNotWriting(st, next);
        StillNotWriting(st, next.(running := Some(Ending)));
        assert st' == next.(running := Some(Ending)) || st' == Broadcast(next);
      case BgEnd =>
        var done := Schedule(st.(scheduled := false, running := None));
        StillNotWriting(st, done);
        assert st' == Broadcast(done);
      case _ => StillNotWriting(st, st');
    }
  }

  lemma ErrorStep(st: State, step: Step)
    requires Inv(st) && Enabled(st, step) && st.bgError && !HeadPc(st).Writing?
    ensures var st' := Next(st, step);
            && !HeadPc(st').Writing? && |st'.groups| <= |st.groups| + 1
            && (|st'.groups| > |st.groups| ==> st'.groups[|st.groups|].result.Failed?)
  {
    hide DoneOk, HistoryOk, ScheduleOk, HeadOk, QueueOk, Roomed, Written, Broadcast;
    match step {
      case MakeRoom(fits, created, closed) => ErrorRoom(st, step);
      case Wake(id) => SignalledIsHead(st, id);
      case Arrive(w) =>
      case SleepDone =>
      case WriteDone(_, _) =>
      case _ => ErrorBackground(st, step);
    }
  }
}
