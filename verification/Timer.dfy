/** The timer wheel (stl_timer.c): sixteen rows of slots, one row for each tick of sixteen time units. */
module Timer {

  const TICK := 16
  const WHEEL_COUNT := 16
  const UINT64_MAX: nat := 0xffff_ffff_ffff_ffff
  const INVALID := UINT64_MAX
  const ID_SHIFT := 0x1_0000_0000
  /** A slot is three 8-byte fields. */
  const CAP_MAX := 0xffff_ffff / 24 / WHEEL_COUNT

  datatype Item = Item(timeout: nat, kind: nat, data: nat)

  /** A timer that has been added and has neither fired nor been cancelled; `due` is the tick whose row it is in. */
  datatype Live = Live(deadline: nat, kind: nat, data: nat, due: nat)

  /** Row, and position in the row. */
  type Slot = (nat, nat)

  type Table = map<Slot, Live>

  function Index(row: nat, wheel: nat, s: nat): nat {
    row * wheel + s
  }

  lemma Distribute(a: nat, w: nat)
    ensures (a + 1) * w == a * w + w
  {
  }

  lemma Monotone(a: nat, b: nat, w: nat)
    requires a <= b
    ensures a * w <= b * w
  {
  }

  /** Rows follow each other without overlap. */
  lemma RowOrder(wheel: nat, a: nat, s: nat, b: nat)
    requires s < wheel
    ensures Index(b, wheel, s) == Index(b, wheel, 0) + s
    ensures a < b ==> Index(a, wheel, s) < Index(b, wheel, 0)
    ensures a > b ==> Index(a, wheel, s) >= Index(b, wheel, 0) + wheel
  {
    Distribute(a, wheel);
    Distribute(b, wheel);
    if a < b {
      Monotone(a + 1, b, wheel);
    } else if b < a {
      Monotone(b + 1, a, wheel);
    }
  }

  lemma IndexBound(row: nat, wheel: nat, s: nat)
    requires row < WHEEL_COUNT && s < wheel
    ensures Index(row, wheel, s) < WHEEL_COUNT * wheel
  {
    Distribute(row, wheel);
    Monotone(row + 1, WHEEL_COUNT, wheel);
  }

  lemma IndexUnique(wheel: nat, a: nat, s: nat, b: nat, t: nat)
    requires s < wheel && t < wheel && Index(a, wheel, s) == Index(b, wheel, t)
    ensures a == b && s == t
  {
    hide Index;
    RowOrder(wheel, a, s, b);
    RowOrder(wheel, b, t, b);
    RowOrder(wheel, a, s, a);
  }

  /** The id handed out for a slot. */
  function IdOf(slot: Slot): nat {
    slot.1 * ID_SHIFT + slot.0
  }

  function SlotOf(id: nat): Slot {
    (id % ID_SHIFT, id / ID_SHIFT)
  }

  /** Ids name slots uniquely, whatever the size of the rows, and none of them is the invalid id. */
  lemma IdsNameSlots(slot: Slot)
    requires slot.0 < WHEEL_COUNT && slot.1 < ID_SHIFT - 1
    ensures SlotOf(IdOf(slot)) == slot && IdOf(slot) != INVALID
  {
  }

  function ItemOf(t: Live): Item {
    Item(t.deadline, t.kind, t.data)
  }

  /** The slots hold exactly the live timers. */
  ghost predicate Mirrors(slots: seq<Item>, wheel: nat, live: Table) {
    && |slots| == WHEEL_COUNT * wheel
    && (forall slot :: slot in live ==> slot.0 < WHEEL_COUNT && slot.1 < wheel)
    && forall row, s :: 0 <= row < WHEEL_COUNT && 0 <= s < wheel ==>
         (IndexBound(row, wheel, s);
          var item := slots[Index(row, wheel, s)];
          if (row, s) in live then item == ItemOf(live[(row, s)]) && item.timeout < UINT64_MAX
          else item.timeout == UINT64_MAX)
  }

  /** Where a timer is, and the bound on its lateness: its row is reached before its deadline is more than a tick past. */
  predicate OnTime(slot: Slot, t: Live, now: nat, advance: nat) {
    && slot.0 == t.due % WHEEL_COUNT && advance <= t.due
    && t.deadline <= now + TICK * (t.due - advance) + TICK - 1
  }

  ghost predicate AllOnTime(live: Table, now: nat, advance: nat) {
    forall slot :: slot in live ==> OnTime(slot, live[slot], now, advance)
  }

  /** Is the row among the `wheels` rows passed from tick `advance` on? */
  predicate Passed(row: nat, advance: nat, wheels: nat) {
    exists j :: 0 <= j < wheels && row == RowAt(advance, j)
  }

  function RowAt(advance: nat, j: nat): (r: nat)
    ensures r < WHEEL_COUNT
  {
    (advance + j) % WHEEL_COUNT
  }

  /** What a poll at `timestamp` that passes `wheels` rows fires. */
  ghost predicate Fires(slot: Slot, t: Live, advance: nat, wheels: nat, timestamp: nat) {
    Passed(slot.0, advance, wheels) && t.deadline <= timestamp
  }

  /** What has fired when `wheels` whole rows and `i` places of the next one have been looked at. */
  ghost predicate Gone(slot: Slot, t: Live, advance: nat, wheels: nat, i: nat, now: nat) {
    t.deadline <= now && (Passed(slot.0, advance, wheels) || (slot.0 == RowAt(advance, wheels) && slot.1 < i))
  }

  ghost function Left(live: Table, advance: nat, wheels: nat, i: nat, now: nat): Table {
    map slot | slot in live && !Gone(slot, live[slot], advance, wheels, i, now) :: live[slot]
  }

  /** The callbacks made so far: one for each timer gone, and no other. */
  ghost predicate Called(fired: seq<Item>, order: seq<Slot>, live: Table, advance: nat, wheels: nat, i: nat, now: nat) {
    && |fired| == |order| && (forall a, b :: 0 <= a < b < |order| ==> order[a] != order[b])
    && (forall k :: 0 <= k < |order| ==> order[k] in live && fired[k] == ItemOf(live[order[k]]))
    && (forall slot :: slot in live ==> (slot in order <==> Gone(slot, live[slot], advance, wheels, i, now)))
  }

  lemma PassedNext(row: nat, advance: nat, wheels: nat)
    ensures Passed(row, advance, wheels + 1) <==> Passed(row, advance, wheels) || row == RowAt(advance, wheels)
    ensures !Passed(row, advance, 0)
  {
    if row == RowAt(advance, wheels) {
      assert Passed(row, advance, wheels + 1);
    } else if Passed(row, advance, wheels) {
      var j :| 0 <= j < wheels && row == RowAt(advance, j);
      assert Passed(row, advance, wheels + 1);
    }
  }

  /** A row looked at to its end counts as passed. */
  lemma RowDone(live: Table, advance: nat, wheels: nat, wheel: nat, now: nat, fired: seq<Item>, order: seq<Slot>)
    requires forall slot :: slot in live ==> slot.1 < wheel
    requires Called(fired, order, live, advance, wheels, wheel, now)
    ensures Left(live, advance, wheels, wheel, now) == Left(live, advance, wheels + 1, 0, now)
    ensures Called(fired, order, live, advance, wheels + 1, 0, now)
  {
    forall slot | slot in live
      ensures Gone(slot, live[slot], advance, wheels, wheel, now) <==> Gone(slot, live[slot], advance, wheels + 1, 0, now)
    {
      PassedNext(slot.0, advance, wheels);
    }
  }

  /** Looking at one more place. */
  lemma PlaceDone(live: Table, advance: nat, wheels: nat, i: nat, now: nat, fired: seq<Item>, order: seq<Slot>)
    requires Called(fired, order, live, advance, wheels, i, now)
    requires !Passed(RowAt(advance, wheels), advance, wheels)
    ensures var slot := (RowAt(advance, wheels), i);
            var before := Left(live, advance, wheels, i, now);
            && (slot in before <==> slot in live) && (slot in live ==> before[slot] == live[slot])
            && (slot in live && live[slot].deadline <= now ==>
                  Left(live, advance, wheels, i + 1, now) == before - {slot}
                  && Called(fired + [ItemOf(live[slot])], order + [slot], live, advance, wheels, i + 1, now))
            && (!(slot in live && live[slot].deadline <= now) ==>
                  Left(live, advance, wheels, i + 1, now) == before && Called(fired, order, live, advance, wheels, i + 1, now))
  {
    var slot := (RowAt(advance, wheels), i);
    forall other | other in live && other != slot
      ensures Gone(other, live[other], advance, wheels, i + 1, now) <==> Gone(other, live[other], advance, wheels, i, now)
    {
    }
  }

  /** The rows of one poll are different. */
  lemma RowsDiffer(advance: nat, wheels: nat)
    requires wheels < WHEEL_COUNT
    ensures !Passed(RowAt(advance, wheels), advance, wheels)
  {
  }

  /** A timer whose tick is passed fires in that poll, and one that stays is still on time. */
  lemma PassedFires(slot: Slot, t: Live, now: nat, advance: nat, wheels: nat, timestamp: nat)
    requires OnTime(slot, t, now, advance) && now + TICK * wheels <= timestamp && wheels <= WHEEL_COUNT
    ensures t.due < advance + wheels ==> Fires(slot, t, advance, wheels, timestamp)
    ensures !Fires(slot, t, advance, wheels, timestamp) ==> OnTime(slot, t, timestamp, advance + wheels)
  {
    if t.due < advance + wheels {
      var j := t.due - advance;
      assert slot.0 == RowAt(advance, j);
    }
  }

  /** The first `rows` rows have been copied to the front of rows of twice the size; everything else is empty. */
  ghost predicate Copied(slots: seq<Item>, wide: seq<Item>, wheel: nat, rows: nat) {
    && |slots| == WHEEL_COUNT * wheel && |wide| == WHEEL_COUNT * (2 * wheel)
    && forall row, s :: 0 <= row < WHEEL_COUNT && 0 <= s < 2 * wheel ==>
         (IndexBound(row, 2 * wheel, s);
          var item := wide[Index(row, 2 * wheel, s)];
          if row < rows && s < wheel then (IndexBound(row, wheel, s); item == slots[Index(row, wheel, s)])
          else item.timeout == UINT64_MAX)
  }

  /** The block of slots [at, at + |items|) overwritten. */
  function Overwrite(slots: seq<Item>, at: nat, items: seq<Item>): (r: seq<Item>)
    requires at + |items| <= |slots|
    ensures |r| == |slots|
    ensures forall k :: 0 <= k < |r| ==> r[k] == if at <= k < at + |items| then items[k - at] else slots[k]
  {
    slots[..at] + items + slots[at + |items|..]
  }

  lemma RowFits(row: nat, wheel: nat)
    requires row < WHEEL_COUNT && wheel > 0
    ensures Index(row, wheel, 0) + wheel <= WHEEL_COUNT * wheel
  {
    Distribute(row, wheel);
    Monotone(row + 1, WHEEL_COUNT, wheel);
  }

  lemma RowCopied(slots: seq<Item>, wide: seq<Item>, wheel: nat, i: nat)
    requires Copied(slots, wide, wheel, i) && i < WHEEL_COUNT && wheel > 0
    ensures Index(i, wheel, 0) + wheel <= |slots| && Index(i, 2 * wheel, 0) + wheel <= |wide|
    ensures var src := Index(i, wheel, 0);
            Copied(slots, Overwrite(wide, Index(i, 2 * wheel, 0), slots[src..src + wheel]), wheel, i + 1)
  {
    hide Index;
    RowFits(i, wheel);
    RowFits(i, 2 * wheel);
    var src, dst := Index(i, wheel, 0), Index(i, 2 * wheel, 0);
    var after := Overwrite(wide, dst, slots[src..src + wheel]);
    forall row, s | 0 <= row < WHEEL_COUNT && 0 <= s < 2 * wheel
      ensures Index(row, 2 * wheel, s) < |wide|
      ensures s < wheel ==> Index(row, wheel, s) < |slots|
      ensures var item := after[Index(row, 2 * wheel, s)];
              if row < i + 1 && s < wheel then item == slots[Index(row, wheel, s)] else item.timeout == UINT64_MAX
    {
      IndexBound(row, 2 * wheel, s);
      RowOrder(2 * wheel, row, s, i);
      if s < wheel {
        IndexBound(row, wheel, s);
        RowOrder(wheel, row, s, row);
      }
    }
  }

  lemma CopiedMirrors(slots: seq<Item>, wide: seq<Item>, wheel: nat, live: Table)
    requires Mirrors(slots, wheel, live) && Copied(slots, wide, wheel, WHEEL_COUNT)
    ensures Mirrors(wide, 2 * wheel, live)
  {
    hide Index;
    forall row, s | 0 <= row < WHEEL_COUNT && 0 <= s < 2 * wheel
      ensures Index(row, 2 * wheel, s) < |wide|
      ensures var item := wide[Index(row, 2 * wheel, s)];
              if (row, s) in live then item == ItemOf(live[(row, s)]) && item.timeout < UINT64_MAX
              else item.timeout == UINT64_MAX
    {
      IndexBound(row, 2 * wheel, s);
      if s < wheel {
        IndexBound(row, wheel, s);
      }
    }
  }

  lemma AllEmpty(slots: seq<Item>, wheel: nat)
    requires |slots| == WHEEL_COUNT * wheel && forall k :: 0 <= k < |slots| ==> slots[k].timeout == UINT64_MAX
    ensures Mirrors(slots, wheel, map[]) && Copied(slots, seq(WHEEL_COUNT * (2 * wheel), _ => Item(UINT64_MAX, 0, 0)), wheel, 0)
  {
    hide Index;
    forall row, s | 0 <= row < WHEEL_COUNT && 0 <= s < wheel ensures Index(row, wheel, s) < |slots| {
      IndexBound(row, wheel, s);
    }
    NothingCopied(slots, wheel);
  }

  lemma NothingCopied(slots: seq<Item>, wheel: nat)
    requires |slots| == WHEEL_COUNT * wheel
    ensures Copied(slots, seq(WHEEL_COUNT * (2 * wheel), _ => Item(UINT64_MAX, 0, 0)), wheel, 0)
  {
    hide Index;
    forall row, s | 0 <= row < WHEEL_COUNT && 0 <= s < 2 * wheel ensures Index(row, 2 * wheel, s) < WHEEL_COUNT * (2 * wheel) {
      IndexBound(row, 2 * wheel, s);
    }
  }

  /** A free slot is filled. */
  lemma MirrorsAdd(slots: seq<Item>, wheel: nat, live: Table, slot: Slot, t: Live)
    requires Mirrors(slots, wheel, live) && slot.0 < WHEEL_COUNT && slot.1 < wheel && t.deadline < UINT64_MAX
    ensures Index(slot.0, wheel, slot.1) < |slots|
    ensures Mirrors(slots[Index(slot.0, wheel, slot.1) := ItemOf(t)], wheel, live[slot := t])
  {
    hide Index;
    IndexBound(slot.0, wheel, slot.1);
    var at := Index(slot.0, wheel, slot.1);
    forall row, s | 0 <= row < WHEEL_COUNT && 0 <= s < wheel
      ensures Index(row, wheel, s) < |slots| && (Index(row, wheel, s) == at ==> (row, s) == slot)
    {
      IndexBound(row, wheel, s);
      if Index(row, wheel, s) == at {
        IndexUnique(wheel, row, s, slot.0, slot.1);
      }
    }
  }

  /** A timer's slot is emptied. */
  lemma MirrorsRemove(slots: seq<Item>, wheel: nat, live: Table, slot: Slot, kind: nat, data: nat)
    requires Mirrors(slots, wheel, live) && slot.0 < WHEEL_COUNT && slot.1 < wheel
    ensures Index(slot.0, wheel, slot.1) < |slots|
    ensures Mirrors(slots[Index(slot.0, wheel, slot.1) := Item(UINT64_MAX, kind, data)], wheel, live - {slot})
  {
    hide Index;
    IndexBound(slot.0, wheel, slot.1);
    var at := Index(slot.0, wheel, slot.1);
    forall row, s | 0 <= row < WHEEL_COUNT && 0 <= s < wheel
      ensures Index(row, wheel, s) < |slots| && (Index(row, wheel, s) == at ==> (row, s) == slot)
    {
      IndexBound(row, wheel, s);
      if Index(row, wheel, s) == at {
        IndexUnique(wheel, row, s, slot.0, slot.1);
      }
    }
  }

  lemma MirrorsAt(slots: seq<Item>, wheel: nat, live: Table, slot: Slot)
    requires Mirrors(slots, wheel, live) && slot.0 < WHEEL_COUNT && slot.1 < wheel
    ensures Index(slot.0, wheel, slot.1) < |slots|
    ensures var item := slots[Index(slot.0, wheel, slot.1)];
            if slot in live then item == ItemOf(live[slot]) && item.timeout < UINT64_MAX else item.timeout == UINT64_MAX
  {
    hide Index;
    IndexBound(slot.0, wheel, slot.1);
  }

  predicate Full(row: nat, wheel: nat, live: Table) {
    forall s :: 0 <= s < wheel ==> (row, s) in live
  }

  /** The row some steps on. */
  function Onward(row: nat, steps: nat): nat {
    (row + steps) % WHEEL_COUNT
  }

  lemma RowsGoRound(advance: nat, j: nat, wheels: nat)
    ensures RowAt(advance, j + 1) == Onward(RowAt(advance, j), 1)
    ensures RowAt(advance, 0) == advance % WHEEL_COUNT
    ensures Onward(advance % WHEEL_COUNT, wheels) == (advance + wheels) % WHEEL_COUNT
  {
    ReduceFirst(advance + j, 1);
    ReduceFirst(advance, wheels);
  }

  lemma ReduceFirst(a: nat, b: nat)
    ensures (a % WHEEL_COUNT + b) % WHEEL_COUNT == (a + b) % WHEEL_COUNT
  {
    var q := a / WHEEL_COUNT;
    assert a == WHEEL_COUNT * q + a % WHEEL_COUNT;
  }

  lemma MirrorsKeys(slots: seq<Item>, wheel: nat, live: Table, slot: Slot)
    requires Mirrors(slots, wheel, live) && slot in live
    ensures slot.0 < WHEEL_COUNT && slot.1 < wheel
  {
  }

  // ---- the code ----

  class Timer {
    var timestamp: nat
    var head: nat
    var wheel: nat
    var count: nat
    var list: seq<Item>
    ghost var live: Table
    ghost var advance: nat    // rows passed since the start
    ghost var failures: nat   // adds that failed since the wheel was last cleared

    ghost predicate Layout()
      reads this
    {
      && 1 <= wheel <= CAP_MAX && head == advance % WHEEL_COUNT
      && Mirrors(list, wheel, live) && AllOnTime(live, timestamp, advance)
    }

    /** count is the number of live timers, and of the adds that failed. */
    ghost predicate Valid()
      reads this
    {
      Layout() && count == |live| + failures
    }

    /** stl_timer_init, when its allocation succeeds. */
    constructor (timestamp: nat)
      ensures Valid() && live == map[] && this.timestamp == timestamp && failures == 0 && advance == 0 && wheel == 4
    {
      var empty := seq(WHEEL_COUNT * 4, _ => Item(UINT64_MAX, 0, 0));
      AllEmpty(empty, 4);
      count := 0;
      head := 0;
      wheel := 4;
      this.timestamp := timestamp;
      live, advance, failures := map[], 0, 0;
      list := empty;
    }

    /** stl_timer_clear. */
    method Clear()
      requires Valid()
      modifies this
      ensures Valid() && live == map[] && failures == 0 && count == 0 && timestamp == old(timestamp)
    {
      hide Mirrors, AllOnTime;
      var cap := wheel * WHEEL_COUNT;
      SlotCount(list, wheel, live);
      count := 0;
      head := 0;
      for i := 0 to cap
        invariant |list| == cap && forall k :: 0 <= k < i ==> list[k].timeout == UINT64_MAX
        invariant wheel == old(wheel) && count == 0 && head == 0 && timestamp == old(timestamp)
      {
        list := list[i := Item(UINT64_MAX, list[i].kind, 0)];
      }
      live, advance, failures := map[], 0, 0;
      AllEmpty(list, wheel);
      NoneLate(timestamp);
    }

    /** expand: rows of twice the size, with every timer at the same place in its row. */
    method Expand(hasMemory: bool) returns (ok: bool)
      requires Layout()
      modifies this`wheel, this`list
      ensures Layout() && ok == (hasMemory && old(wheel) <= CAP_MAX / 2)
      ensures if ok then wheel == 2 * old(wheel) else wheel == old(wheel) && list == old(list)
    {
      hide Mirrors, AllOnTime, Copied, Index;
      if wheel > CAP_MAX / 2 || !hasMemory {
        return false;
      }
      var cap := wheel * WHEEL_COUNT * 2;
      var alloc := seq(cap, _ => Item(UINT64_MAX, 0, 0));
      SlotCount(list, wheel, live);
      NothingCopied(list, wheel);
      for i := 0 to WHEEL_COUNT
        invariant Copied(list, alloc, wheel, i) && wheel == old(wheel) && list == old(list)
      {
        RowCopied(list, alloc, wheel, i);
        var src, dst := Index(i, wheel, 0), Index(i, 2 * wheel, 0);
        alloc := Overwrite(alloc, dst, list[src..src + wheel]);
      }
      CopiedMirrors(list, alloc, wheel, live);
      list := alloc;
      wheel := wheel * 2;
      return true;
    }

    /** stl_timer_add: the id names a slot that stays the timer's until it fires or is cancelled. */
    method Add(timeout: nat, kind: nat, data: nat, hasMemory: bool) returns (id: nat)
      requires Valid() && timeout + timestamp < UINT64_MAX
      modifies this
      ensures Valid() && timestamp == old(timestamp) && advance == old(advance)
      ensures id != INVALID ==>
                && id == IdOf(SlotOf(id)) && SlotOf(id) !in old(live) && failures == old(failures)
                && live == old(live)[SlotOf(id) := Live(timestamp + timeout, kind, data, advance + timeout / TICK)]
      ensures id != INVALID ==>
                var (row, s) := SlotOf(id);
                row == (advance + timeout / TICK) % WHEEL_COUNT && s < wheel && forall t :: 0 <= t < s ==> (row, t) in old(live)
      ensures wheel == old(wheel) || (hasMemory && wheel == 2 * old(wheel))
      ensures id == INVALID ==> live == old(live) && failures == old(failures) + 1
      ensures id == INVALID ==> !hasMemory || old(wheel) > CAP_MAX / 2
      ensures id == INVALID ==> Full((advance + timeout / TICK) % WHEEL_COUNT, wheel, live)
    {
      hide Mirrors, AllOnTime, Index;
      var pos := (timeout / TICK + head) % WHEEL_COUNT;
      SameRow(timeout, head, advance);
      count := count + 1;
      var s := FirstFree(pos);
      ghost var t := Live(timestamp + timeout, kind, data, advance + timeout / TICK);
      if s == wheel {
        RowIsFull(list, wheel, live, (pos, s));
        var ok := Expand(hasMemory);
        if !ok {
          failures := failures + 1;
          return INVALID;
        }
      }
      MirrorsAdd(list, wheel, live, (pos, s), t);
      OneMoreOnTime(live, timestamp, advance, (pos, s), t);
      list := list[Index(pos, wheel, s) := Item(timestamp + timeout, kind, data)];
      live := live[(pos, s) := t];
      IdsNameSlots((pos, s));
      id := IdOf((pos, s));
    }

    /** The first empty place in a row, or its size. */
    method FirstFree(pos: nat) returns (s: nat)
      requires Layout() && pos < WHEEL_COUNT
      ensures s <= wheel && (s < wheel ==> (pos, s) !in live) && forall t :: 0 <= t < s ==> (pos, t) in live
    {
      hide Mirrors, AllOnTime, Index;
      SlotCount(list, wheel, live);
      s := 0;
      while s < wheel
        invariant 0 <= s <= wheel && forall t :: 0 <= t < s ==> (pos, t) in live
      {
        MirrorsAt(list, wheel, live, (pos, s));
        if list[At(pos, s)].timeout == UINT64_MAX {
          return;
        }
        s := s + 1;
      }
    }

    function At(row: nat, s: nat): (k: nat)
      requires |list| == WHEEL_COUNT * wheel && row < WHEEL_COUNT && s < wheel
      reads this
      ensures k < |list| && k == Index(row, wheel, s)
    {
      IndexBound(row, wheel, s);
      Index(row, wheel, s)
    }

    /** The inner loop of stl_timer_timeout: one row. */
    method PollRow(row: nat, ghost live0: Table, ghost advance0: nat, ghost wheels: nat, fired0: seq<Item>, ghost order0: seq<Slot>)
      returns (fired: seq<Item>, ghost order: seq<Slot>)
      requires 1 <= wheel && Mirrors(list, wheel, live) && row == RowAt(advance0, wheels) && wheels < WHEEL_COUNT
      requires live == Left(live0, advance0, wheels, 0, timestamp) && timestamp < UINT64_MAX
      requires Called(fired0, order0, live0, advance0, wheels, 0, timestamp)
      requires count == |live| + failures && forall slot :: slot in live0 ==> slot.1 < wheel
      modifies this`list, this`live, this`count
      ensures Mirrors(list, wheel, live) && count == |live| + failures
      ensures live == Left(live0, advance0, wheels + 1, 0, timestamp)
      ensures Called(fired, order, live0, advance0, wheels + 1, 0, timestamp)
    {
      hide Mirrors, Index, Left, Called;
      fired, order := fired0, order0;
      RowsDiffer(advance0, wheels);
      for i := 0 to wheel
        invariant Mirrors(list, wheel, live) && count == |live| + failures
        invariant live == Left(live0, advance0, wheels, i, timestamp)
        invariant Called(fired, order, live0, advance0, wheels, i, timestamp)
      {
        ghost var slot := (row, i);
        SlotCount(list, wheel, live);
        MirrorsAt(list, wheel, live, slot);
        PlaceDone(live0, advance0, wheels, i, timestamp, fired, order);
        var at := At(row, i);
        var item := list[at];
        if item.timeout <= timestamp {
          MirrorsRemove(list, wheel, live, slot, item.kind, item.data);
          FewerTimers(live, slot);
          list := list[at := Item(UINT64_MAX, item.kind, item.data)];
          count := count - 1;
          fired := fired + [item];
          order := order + [slot];
          live := live - {slot};
        }
      }
      RowDone(live0, advance0, wheels, wheel, timestamp, fired, order);
    }

    /**
     * stl_timer_timeout, with the callbacks it makes in order: exactly the timers in the rows it passes whose
     * deadline has come, each once.
     */
    method Poll(now: nat) returns (next: nat, fired: seq<Item>, ghost order: seq<Slot>)
      requires Valid() && timestamp <= now < UINT64_MAX
      modifies this
      ensures Valid() && failures == old(failures)
      ensures var w := Wheels(now - old(timestamp));
              && advance == old(advance) + w && timestamp == (if w == 0 then old(timestamp) else now)
              && live == Left(old(live), old(advance), w, 0, now)
              && Called(fired, order, old(live), old(advance), w, 0, now)
              && next == NextPoll(now - old(timestamp))
      ensures var (w, elapsed) := (advance - old(advance), now - old(timestamp));
              && 0 <= w <= 16 && 16 * w <= elapsed && (w == 16 || elapsed < 16 * (w + 1))
              && next <= 16 && (w == 0 ==> now + next == old(timestamp) + 16)
              && (w > 0 ==> next == if elapsed == 16 then 0 else 16)
    {
      hide Mirrors, AllOnTime, Left, Called, Index, RowAt, Onward, Wheels;
      var time := now - timestamp;
      var wheels := Wheels(time);
      next := NextPoll(time);
      fired, order := [], [];
      NothingGone(live, advance, now);
      if wheels == 0 {
        return;
      }
      ghost var live0, advance0 := live, advance;
      SurvivorsOnTime(live, timestamp, advance, wheels, now);
      SlotsInRows(list, wheel, live);
      var row := head;
      timestamp := now;
      head := Onward(head, wheels);
      RowsGoRound(advance, 0, wheels);
      for j := 0 to wheels
        invariant Mirrors(list, wheel, live) && count == |live| + failures && row == RowAt(advance0, j)
        invariant live == Left(live0, advance0, j, 0, now) && Called(fired, order, live0, advance0, j, 0, now)
        invariant wheel == old(wheel) && timestamp == now && failures == old(failures) && advance == advance0
        invariant head == (advance0 + wheels) % WHEEL_COUNT
      {
        fired, order := PollRow(row, live0, advance0, j, fired, order);
        RowsGoRound(advance0, j, wheels);
        row := Onward(row, 1);
      }
      advance := advance + wheels;
    }

    /** stl_timer_cancel. */
    method Cancel(id: nat) returns (id': nat)
      requires Valid() && (id == INVALID || SlotOf(id) in live)
      modifies this
      ensures Valid() && id' == INVALID && timestamp == old(timestamp) && advance == old(advance)
      ensures live == if id == INVALID then old(live) else old(live) - {SlotOf(id)}
      ensures failures == old(failures)
    {
      hide Mirrors, AllOnTime, Index;
      if id == INVALID {
        return id;
      }
      var slot := SlotOf(id);
      count := count - 1;
      MirrorsKeys(list, wheel, live, slot);
      SlotCount(list, wheel, live);
      var pos := At(slot.0, slot.1);
      MirrorsRemove(list, wheel, live, slot, list[pos].kind, list[pos].data);
      list := list[pos := Item(UINT64_MAX, list[pos].kind, list[pos].data)];
      FewerOnTime(live, timestamp, advance, slot);
      live := live - {slot};
      return INVALID;
    }
  }

  lemma NothingGone(live: Table, advance: nat, now: nat)
    ensures Left(live, advance, 0, 0, now) == live && Called([], [], live, advance, 0, 0, now)
  {
  }

  /** The rows a poll passes. */
  function Wheels(elapsed: nat): (w: nat)
    ensures w <= WHEEL_COUNT && TICK * w <= elapsed && (w == WHEEL_COUNT || elapsed < TICK * (w + 1))
  {
    if elapsed / TICK < WHEEL_COUNT then elapsed / TICK else WHEEL_COUNT
  }

  /** The unsigned difference TICK - elapsed, at most TICK. */
  function NextPoll(elapsed: nat): nat {
    if elapsed <= TICK then TICK - elapsed else TICK
  }

  lemma SurvivorsOnTime(live: Table, now: nat, advance: nat, wheels: nat, timestamp: nat)
    requires AllOnTime(live, now, advance) && now + TICK * wheels <= timestamp && wheels <= WHEEL_COUNT
    ensures AllOnTime(Left(live, advance, wheels, 0, timestamp), timestamp, advance + wheels)
  {
    forall slot | slot in Left(live, advance, wheels, 0, timestamp)
      ensures OnTime(slot, live[slot], timestamp, advance + wheels)
    {
      PassedFires(slot, live[slot], now, advance, wheels, timestamp);
    }
  }

  lemma SlotCount(slots: seq<Item>, wheel: nat, live: Table)
    requires Mirrors(slots, wheel, live)
    ensures |slots| == WHEEL_COUNT * wheel
  {
  }

  lemma NoneLate(now: nat)
    ensures AllOnTime(map[], now, 0)
  {
  }

  lemma SameRow(timeout: nat, head: nat, advance: nat)
    requires head == advance % WHEEL_COUNT
    ensures (timeout / TICK + head) % WHEEL_COUNT == (advance + timeout / TICK) % WHEEL_COUNT
  {
  }

  lemma RowIsFull(slots: seq<Item>, wheel: nat, live: Table, slot: Slot)
    requires Mirrors(slots, wheel, live) && slot.1 == wheel
    ensures slot !in live
  {
  }

  lemma OneMoreOnTime(live: Table, now: nat, advance: nat, slot: Slot, t: Live)
    requires AllOnTime(live, now, advance) && slot.0 == t.due % WHEEL_COUNT
    requires t.deadline >= now && t.due == advance + (t.deadline - now) / TICK
    ensures AllOnTime(live[slot := t], now, advance)
  {
  }

  lemma FewerTimers(live: Table, slot: Slot)
    requires slot in live
    ensures |live - {slot}| == |live| - 1
  {
    assert live == (live - {slot})[slot := live[slot]];
  }

  lemma SlotsInRows(slots: seq<Item>, wheel: nat, live: Table)
    requires Mirrors(slots, wheel, live)
    ensures forall slot :: slot in live ==> slot.1 < wheel
  {
  }

  lemma FewerOnTime(live: Table, now: nat, advance: nat, slot: Slot)
    requires AllOnTime(live, now, advance) && slot in live
    ensures AllOnTime(live - {slot}, now, advance) && |live - {slot}| == |live| - 1
  {
    FewerTimers(live, slot);
  }

  /** The count a caller sees is the number of occupied slots exactly when no add has failed since the last clear. */
  method Counted(t: Timer) returns (n: nat)
    requires t.Valid()
    ensures n == |t.live| + t.failures
    ensures n == |t.live| <==> t.failures == 0
  {
    n := t.count;
  }

  /** Five timers for one row of four, and no memory to grow: the count is one too many. */
  method FailedAddMiscounts() returns (count: nat, occupied: nat)
    ensures count == 5 && occupied == 4
  {
    hide Mirrors, AllOnTime, IdOf, SlotOf;
    var t := new Timer(0);
    occupied := 0;
    var id := INVALID;
    while occupied < 5
      invariant t.Valid() && t.advance == 0 && t.timestamp == 0 && t.wheel == 4 && fresh(t)
      invariant t.failures == 0 && occupied <= 4 && t.count == occupied
      invariant forall slot :: slot in t.live <==> slot.0 == 0 && slot.1 < occupied
      decreases 5 - occupied
    {
      ghost var before := t.live;
      id := t.Add(0, 0, 0, false);
      if id == INVALID {
        break;
      }
      assert SlotOf(id) == (0, occupied);
      occupied := occupied + 1;
    }
    count := t.count;
    assert (0, occupied) !in t.live;
  }

  // ---- how late a timer can be ----

  /** The clock of the wheel after a poll: polls less than a tick apart do not move it. */
  function NowAfter(now: nat, poll: nat): nat {
    if now + TICK <= poll then poll else now
  }

  predicate InOrder(now: nat, polls: seq<nat>)
    decreases |polls|
  {
    polls != [] ==> now <= polls[0] && InOrder(polls[0], polls[1..])
  }

  /** Rows passed by a list of polls. */
  function Total(now: nat, polls: seq<nat>): nat
    requires InOrder(now, polls)
    decreases |polls|
  {
    if polls == [] then 0
    else (Later(now, polls); Wheels(polls[0] - now) + Total(NowAfter(now, polls[0]), polls[1..]))
  }

  lemma {:induction false} InOrderFrom(a: nat, b: nat, polls: seq<nat>)
    requires a <= b && InOrder(b, polls)
    ensures InOrder(a, polls)
  {
  }

  lemma Later(now: nat, polls: seq<nat>)
    requires polls != [] && InOrder(now, polls)
    ensures InOrder(NowAfter(now, polls[0]), polls[1..])
  {
    InOrderFrom(NowAfter(now, polls[0]), polls[0], polls[1..]);
  }

  /** The timer survives the polls before the k-th and fires in the k-th. */
  ghost predicate FiresAt(slot: Slot, t: Live, now: nat, advance: nat, polls: seq<nat>, k: nat)
    requires InOrder(now, polls) && k < |polls|
    decreases |polls|
  {
    var w := Wheels(polls[0] - now);
    if k == 0 then Fires(slot, t, advance, w, polls[0])
    else
      Later(now, polls);
      !Fires(slot, t, advance, w, polls[0])
      && FiresAt(slot, t, NowAfter(now, polls[0]), advance + w, polls[1..], k - 1)
  }

  /**
   * A timer left alone fires in exactly one poll: not before its deadline, and no later than the poll that passes its
   * row, which for a timer of delay d is the one in which the rows passed since it was added exceed d / 16.
   */
  lemma {:induction false} FiresInTime(slot: Slot, t: Live, now: nat, advance: nat, polls: seq<nat>) returns (k: nat)
    requires OnTime(slot, t, now, advance) && InOrder(now, polls) && advance + Total(now, polls) > t.due
    ensures k < |polls| && FiresAt(slot, t, now, advance, polls, k)
    ensures t.deadline <= polls[k]
    ensures InOrder(now, polls[..k]) && advance + Total(now, polls[..k]) <= t.due
    decreases |polls|
  {
    hide OnTime, Fires, Wheels;
    assert advance <= t.due && (polls == [] ==> Total(now, polls) == 0) by { NotPast(slot, t, now, advance); }
    var w := Wheels(polls[0] - now);
    Later(now, polls);
    PassedFires(slot, t, now, advance, w, polls[0]);
    if Fires(slot, t, advance, w, polls[0]) {
      k := 0;
      FiredPast(slot, t, advance, w, polls[0]);
    } else {
      var now' := NowAfter(now, polls[0]);
      StillOnTime(slot, t, now, advance, polls[0]);
      var j := FiresInTime(slot, t, now', advance + w, polls[1..]);
      k := j + 1;
      assert polls[..k][1..] == polls[1..][..j] && polls[..k][0] == polls[0];
      PrefixInOrder(now, polls, k);
    }
  }

  lemma NotPast(slot: Slot, t: Live, now: nat, advance: nat)
    requires OnTime(slot, t, now, advance)
    ensures advance <= t.due
  {
  }

  lemma FiredPast(slot: Slot, t: Live, advance: nat, wheels: nat, timestamp: nat)
    requires Fires(slot, t, advance, wheels, timestamp)
    ensures t.deadline <= timestamp
  {
  }

  lemma StillOnTime(slot: Slot, t: Live, now: nat, advance: nat, poll: nat)
    requires OnTime(slot, t, now, advance) && now <= poll
    requires !Fires(slot, t, advance, Wheels(poll - now), poll)
    ensures OnTime(slot, t, NowAfter(now, poll), advance + Wheels(poll - now))
  {
    PassedFires(slot, t, now, advance, Wheels(poll - now), poll);
  }

  lemma {:induction false} PrefixInOrder(now: nat, polls: seq<nat>, k: nat)
    requires InOrder(now, polls) && k <= |polls|
    ensures InOrder(now, polls[..k])
    decreases k
  {
    if k > 0 {
      assert polls[..k][1..] == polls[1..][..k - 1];
      PrefixInOrder(polls[0], polls[1..], k - 1);
    }
  }

  /** Polls at least 16 time units after each other, and after `now`. */
  predicate Spaced(now: nat, polls: seq<nat>)
    decreases |polls|
  {
    polls != [] ==> now + 16 <= polls[0] && Spaced(polls[0], polls[1..])
  }

  /** Each of them passes a row. */
  lemma {:induction false} SpacedPass(now: nat, polls: seq<nat>)
    requires Spaced(now, polls)
    ensures InOrder(now, polls) && Total(now, polls) >= |polls|
    decreases |polls|
  {
    if polls != [] {
      SpacedPass(polls[0], polls[1..]);
    }
  }

  lemma {:induction false} PrefixSpaced(now: nat, polls: seq<nat>, k: nat)
    requires Spaced(now, polls) && k <= |polls|
    ensures Spaced(now, polls[..k])
    decreases k
  {
    if k > 0 {
      assert polls[..k][1..] == polls[1..][..k - 1];
      PrefixSpaced(polls[0], polls[1..], k - 1);
    }
  }

  /** With such polls a timer of delay d fires in the (d / 16 + 1)-th of them at the latest. */
  lemma {:induction false} FiresByPoll(slot: Slot, t: Live, now: nat, advance: nat, polls: seq<nat>) returns (k: nat)
    requires OnTime(slot, t, now, advance) && Spaced(now, polls) && InOrder(now, polls)
    requires t.deadline >= now && t.due == advance + (t.deadline - now) / 16 && |polls| > (t.deadline - now) / 16
    ensures k <= (t.deadline - now) / 16 && FiresAt(slot, t, now, advance, polls, k) && t.deadline <= polls[k]
  {
    hide OnTime, FiresAt;
    SpacedPass(now, polls);
    k := FiresInTime(slot, t, now, advance, polls);
    PrefixSpaced(now, polls, k);
    SpacedPass(now, polls[..k]);
  }

  lemma {:induction false} SpacedBound(now: nat, polls: seq<nat>)
    requires Spaced(now, polls) && polls != []
    ensures now < polls[0] <= polls[|polls| - 1]
    decreases |polls|
  {
    if |polls| > 1 {
      SpacedBound(polls[0], polls[1..]);
    }
  }

  /** What leaves the wheel in a poll is called back in it. */
  lemma FiredAre(live: Table, advance: nat, wheels: nat, now: nat, fired: seq<Item>, order: seq<Slot>)
    requires Called(fired, order, live, advance, wheels, 0, now)
    ensures var left := Left(live, advance, wheels, 0, now);
            && (forall slot :: slot in left ==> slot in live && left[slot] == live[slot])
            && forall slot :: slot in live && slot !in left ==> ItemOf(live[slot]) in fired
  {
    hide Gone;
    forall slot | slot in live && Gone(slot, live[slot], advance, wheels, 0, now) ensures ItemOf(live[slot]) in fired {
      assert slot in order;
    }
  }

  lemma NoneOverdue(live: Table, now: nat, advance: nat)
    requires AllOnTime(live, now, advance)
    ensures forall slot :: slot in live ==> advance <= live[slot].due
  {
  }

  /**
   * The same for the wheel itself: after so many polls, each at least 16 time units after the last, a timer that was added
   * just before them is gone, and its callback has been made.
   */
  method PollEach(timer: Timer, polls: seq<nat>) returns (fired: seq<Item>)
    requires timer.Valid() && Spaced(timer.timestamp, polls) && (polls != [] ==> polls[|polls| - 1] < UINT64_MAX)
    modifies timer
    ensures timer.Valid()
    ensures forall slot :: slot in old(timer.live) && old(timer.live)[slot].due < old(timer.advance) + |polls| ==>
              slot !in timer.live && ItemOf(old(timer.live)[slot]) in fired
  {
    hide Mirrors, AllOnTime, Index, RowAt, Called, Left;
    fired := [];
    ghost var live0, advance0 := timer.live, timer.advance;
    assert polls[0..] == polls;
    for i := 0 to |polls|
      invariant timer.Valid() && Spaced(timer.timestamp, polls[i..]) && timer.advance >= advance0 + i
      invariant forall slot :: slot in timer.live ==> slot in live0 && live0[slot] == timer.live[slot]
      invariant forall slot :: slot in live0 && slot !in timer.live ==> ItemOf(live0[slot]) in fired
    {
      assert polls[i..][1..] == polls[i + 1..];
      SpacedBound(timer.timestamp, polls[i..]);
      ghost var before, advance, w := timer.live, timer.advance, Wheels(polls[i] - timer.timestamp);
      var next, more, order := timer.Poll(polls[i]);
      FiredAre(before, advance, w, polls[i], more, order);
      fired := fired + more;
    }
    NoneOverdue(timer.live, timer.timestamp, timer.advance);
  }
}
