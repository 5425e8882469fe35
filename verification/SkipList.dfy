/**
 * The skiplist (skiplist.c): one writer that links a node a pointer store at a time, and readers that take no lock.
 * Keys are integers, standing for any strict total order; nodes are named by their keys, which are never repeated.
 */
module SkipList {

  const MAX_HEIGHT := 12

  datatype Ptr = Head | Null | Node(key: int)

  /** The next pointers: what was never stored is not in the map. */
  type Links = map<(Ptr, nat), Ptr>

  type Level = set<int>

  // ---- one level ----

  /** Does the node (or the head) come before this key? */
  predicate Before(x: Ptr, k: int) {
    x.Head? || (x.Node? && x.key < k)
  }

  predicate On(s: Level, x: Ptr) {
    x.Head? || (x.Node? && x.key in s)
  }

  /** n is the first node of the level after x. */
  predicate IsNext(s: Level, x: Ptr, n: Ptr) {
    && (n.Null? || (n.Node? && n.key in s && Before(x, n.key)))
    && forall k :: k in s && Before(x, k) ==> n.Node? && n.key <= k
  }

  /** A level is a strictly sorted linked list of exactly its keys. */
  ghost predicate Linked(next: Links, l: nat, s: Level) {
    forall x :: On(s, x) ==> (x, l) in next && IsNext(s, x, next[(x, l)])
  }

  /** p is the last node of the level before the key. */
  predicate IsPrev(s: Level, k: int, p: Ptr) {
    On(s, p) && Before(p, k) && forall j :: j in s && j < k ==> !Before(p, j)
  }

  /** The first node at or after the key. */
  predicate FirstFrom(s: Level, k: int, n: Ptr) {
    && (n.Null? || (n.Node? && n.key in s && n.key >= k))
    && forall j :: j in s && j >= k ==> n.Node? && n.key <= j
  }

  /** The last node, or the head of an empty level. */
  predicate IsLast(s: Level, p: Ptr) {
    On(s, p) && forall j :: j in s ==> !Before(p, j)
  }

  /** Storing the predecessor's pointer puts a prepared node into its level. */
  lemma LinksIn(next: Links, l: nat, s: Level, k: int, p: Ptr)
    requires Linked(next, l, s) && k !in s && IsPrev(s, k, p)
    requires (Node(k), l) in next && next[(Node(k), l)] == next[(p, l)]
    ensures Linked(next[(p, l) := Node(k)], l, s + {k})
  {
    var next' := next[(p, l) := Node(k)];
    var s' := s + {k};
    forall x | On(s', x) ensures (x, l) in next' && IsNext(s', x, next'[(x, l)]) {
      if x == p {
        assert IsNext(s', p, Node(k));
      } else if x == Node(k) {
        assert IsNext(s, p, next[(p, l)]);
      } else {
        assert On(s, x) && IsNext(s, x, next[(x, l)]);
      }
    }
  }

  /** A store elsewhere leaves a level alone. */
  lemma StaysLinked(next: Links, l: nat, s: Level, at: (Ptr, nat), n: Ptr)
    requires Linked(next, l, s) && (at.1 != l || !On(s, at.0))
    ensures Linked(next[at := n], l, s)
  {
  }

  // ---- searching, one pointer load at a time ----

  datatype Query = AtOrAfter(key: int) | JustBefore(key: int) | Last

  datatype Search = Search(query: Query, x: Ptr, level: nat) | Found(query: Query, result: Ptr)

  /** Does the search go on along this level? */
  predicate Advances(q: Query, n: Ptr) {
    n.Node? && (q.Last? || n.key < q.key)
  }

  /** What one turn of the loops of ldb_skiplist_find_ge, find_lt and find_last does with the pointer it loads. */
  function Turn(s: Search, n: Ptr): Search
    requires s.Search?
  {
    if Advances(s.query, n) then Search(s.query, n, s.level)
    else if s.level > 0 then Search(s.query, s.x, s.level - 1)
    else Found(s.query, if s.query.AtOrAfter? then n else s.x)
  }

  /** The right answer on the bottom level. */
  predicate Answers(s: Level, q: Query, r: Ptr) {
    match q
    case AtOrAfter(k) => FirstFrom(s, k, r)
    case JustBefore(k) => IsPrev(s, k, r)
    case Last => IsLast(s, r)
  }

  /** Where a search may be: on its level, still before its key. */
  predicate InPlace(levels: seq<Level>, s: Search) {
    s.Search? ==>
      && s.level < |levels| && On(levels[s.level], s.x)
      && (s.query.Last? || Before(s.x, s.query.key))
  }

  ghost predicate Nested(levels: seq<Level>) {
    |levels| == MAX_HEIGHT && forall l :: 0 < l < MAX_HEIGHT ==> levels[l] <= levels[l - 1]
  }

  lemma {:induction false} OnBottom(levels: seq<Level>, l: nat, k: int)
    requires Nested(levels) && l < MAX_HEIGHT && k in levels[l]
    ensures k in levels[0]
  {
    if l > 0 {
      OnBottom(levels, l - 1, k);
    }
  }

  /** One turn keeps a search in place; its last turn finds the right answer for the list as it is at that load. */
  lemma TurnIsRight(levels: seq<Level>, next: Links, s: Search)
    requires Nested(levels) && s.Search? && InPlace(levels, s) && Linked(next, s.level, levels[s.level])
    ensures (s.x, s.level) in next
    ensures var t := Turn(s, next[(s.x, s.level)]);
            && InPlace(levels, t) && t.query == s.query
            && (t.Found? ==> Answers(levels[0], t.query, t.result))
  {
    assert On(levels[s.level], s.x);
    assert IsNext(levels[s.level], s.x, next[(s.x, s.level)]);
  }

  /** The keys a search may still have to pass. */
  ghost function Ahead(bottom: Level, s: Search): set<int> {
    if s.Search? then set k | k in bottom && Before(s.x, k) && (s.query.Last? || k < s.query.key) else {}
  }

  /** Loads a search may still need: one for each key ahead of it and each level below it, and the last. */
  ghost function Remaining(bottom: Level, s: Search): nat {
    if s.Search? then |Ahead(bottom, s)| + s.level + 1 else 0
  }

  lemma {:induction false} SmallerSet<T>(a: set<T>, b: set<T>)
    requires a <= b
    ensures |a| <= |b| && (a != b ==> |a| < |b|)
    decreases b
  {
    if a != {} {
      var x :| x in a;
      SmallerSet(a - {x}, b - {x});
      assert a == (a - {x}) + {x} && b == (b - {x}) + {x};
    }
  }

  /** Every turn uses up a load. */
  lemma TurnGetsCloser(levels: seq<Level>, next: Links, s: Search)
    requires Nested(levels) && s.Search? && InPlace(levels, s) && Linked(next, s.level, levels[s.level])
    requires (s.x, s.level) in next
    ensures Remaining(levels[0], Turn(s, next[(s.x, s.level)])) < Remaining(levels[0], s)
  {
    var n := next[(s.x, s.level)];
    assert On(levels[s.level], s.x) && IsNext(levels[s.level], s.x, n);
    if Advances(s.query, n) {
      OnBottom(levels, s.level, n.key);
      var t := Turn(s, n);
      assert n.key in Ahead(levels[0], s) && n.key !in Ahead(levels[0], t);
      SmallerSet(Ahead(levels[0], t), Ahead(levels[0], s));
    }
  }

  /** A key that appears meanwhile costs a search at most one more load. */
  lemma NewKeyCostsOne(bottom: Level, k: int, s: Search)
    ensures Remaining(bottom + {k}, s) <= Remaining(bottom, s) + 1
  {
    if s.Search? {
      var a, b := Ahead(bottom, s), Ahead(bottom + {k}, s);
      SmallerSet(b, a + {k});
      assert |a + {k}| <= |a| + 1;
    }
  }

  // ---- the writer and its readers ----

  datatype Writer =
    | Idle
    | Finding(key: int, height: nat, search: Search, prev: map<nat, Ptr>)
    | Raising(key: int, height: nat, prev: map<nat, Ptr>)
    | Linking(key: int, height: nat, prev: map<nat, Ptr>, level: nat, filled: bool)

  datatype State = State(next: Links, maxHeight: nat, levels: seq<Level>, writer: Writer, readers: map<nat, Search>)

  datatype Step =
    | BeginInsert(key: int, height: nat)
    | WriterLoad                              // one load of the insert's own search
    | StoreHeight                             // max_height, when the new node is taller
    | Fill                                    // the new node's own pointer at a level
    | Publish                                 // the predecessor's pointer at that level
    | BeginSearch(id: nat, query: Query, height: nat)
    | ReaderLoad(id: nat)
    | EndSearch(id: nat)

  ghost predicate Enabled(st: State, step: Step) {
    match step
    case BeginInsert(k, h) => st.writer.Idle? && |st.levels| > 0 && k !in st.levels[0] && 1 <= h <= MAX_HEIGHT
    case WriterLoad => st.writer.Finding? && st.writer.search.Search?
    case StoreHeight => st.writer.Raising?
    case Fill => st.writer.Linking? && !st.writer.filled
    case Publish => st.writer.Linking? && st.writer.filled
    case BeginSearch(id, _, h) => id !in st.readers && 1 <= h <= MAX_HEIGHT
    case ReaderLoad(id) => id in st.readers && st.readers[id].Search?
    case EndSearch(id) => id in st.readers && st.readers[id].Found?
  }

  /** The pointer a search loads next. */
  function Load(next: Links, s: Search): Ptr
    requires s.Search?
  {
    if (s.x, s.level) in next then next[(s.x, s.level)] else Null
  }

  function PrevAt(prev: map<nat, Ptr>, l: nat): Ptr {
    if l in prev then prev[l] else Head
  }

  ghost function Next(st: State, step: Step): State
    requires |st.levels| == MAX_HEIGHT && Enabled(st, step)
    requires st.writer.Linking? ==> st.writer.level < MAX_HEIGHT
  {
    match step
    case BeginInsert(k, h) =>
      st.(writer := Finding(k, h, Search(AtOrAfter(k), Head, if st.maxHeight > 0 then st.maxHeight - 1 else 0), map[]))
    case WriterLoad =>
      var w := st.writer;
      var n := Load(st.next, w.search);
      var t := Turn(w.search, n);
      var prev := if Advances(w.search.query, n) then w.prev else w.prev[w.search.level := w.search.x];
      st.(writer := if t.Found? then Raising(w.key, w.height, prev) else w.(search := t, prev := prev))
    case StoreHeight =>
      var w := st.writer;
      st.(maxHeight := if w.height > st.maxHeight then w.height else st.maxHeight,
          writer := Linking(w.key, w.height, w.prev, 0, false))
    case Fill =>
      var w := st.writer;
      var p := PrevAt(w.prev, w.level);
      var n := if (p, w.level) in st.next then st.next[(p, w.level)] else Null;
      st.(next := st.next[(Node(w.key), w.level) := n], writer := w.(filled := true))
    case Publish =>
      var w := st.writer;
      st.(next := st.next[(PrevAt(w.prev, w.level), w.level) := Node(w.key)],
          levels := st.levels[w.level := st.levels[w.level] + {w.key}],
          writer := if w.level + 1 < w.height then w.(level := w.level + 1, filled := false) else Idle)
    case BeginSearch(id, q, h) => st.(readers := st.readers[id := Search(q, Head, h - 1)])
    case ReaderLoad(id) =>
      st.(readers := st.readers[id := Turn(st.readers[id], Load(st.next, st.readers[id]))])
    case EndSearch(id) => st.(readers := st.readers - {id})
  }

  // ---- the invariant ----

  ghost predicate LevelsOk(next: Links, levels: seq<Level>) {
    Nested(levels) && forall l :: 0 <= l < MAX_HEIGHT ==> Linked(next, l, levels[l])
  }

  /** No level at or above the recorded height has a node yet. */
  predicate EmptyAbove(levels: seq<Level>, h: nat) {
    forall l :: h <= l < |levels| ==> levels[l] == {}
  }

  predicate PrevsFrom(levels: seq<Level>, k: int, prev: map<nat, Ptr>, from: nat) {
    forall l :: from <= l < |levels| ==> IsPrev(levels[l], k, PrevAt(prev, l))
  }

  ghost predicate WriterOk(next: Links, maxHeight: nat, levels: seq<Level>, w: Writer)
    requires |levels| == MAX_HEIGHT
  {
    && 1 <= maxHeight <= MAX_HEIGHT && EmptyAbove(levels, maxHeight)
    && (!w.Idle? ==> 1 <= w.height <= MAX_HEIGHT)
    && match w
       case Idle => true
       case Finding(k, h, s, prev) =>
         && k !in levels[0] && s.Search? && s.query == AtOrAfter(k) && s.level < maxHeight && InPlace(levels, s)
         && PrevsFrom(levels, k, prev, s.level + 1)
       case Raising(k, h, prev) => k !in levels[0] && PrevsFrom(levels, k, prev, 0)
       case Linking(k, h, prev, i, filled) =>
         && i < h <= maxHeight && PrevsFrom(levels, k, prev, i)
         && (forall l :: 0 <= l < MAX_HEIGHT ==> (k in levels[l] <==> l < i))
         && (filled ==> (Node(k), i) in next && (PrevAt(prev, i), i) in next
                        && next[(Node(k), i)] == next[(PrevAt(prev, i), i)])
  }

  predicate ReadersOk(levels: seq<Level>, readers: map<nat, Search>) {
    forall id :: id in readers ==> InPlace(levels, readers[id])
  }

  /** Level 0 is strictly sorted, each level is a part of the one below, and everyone is in place on them. */
  ghost predicate Inv(st: State) {
    && LevelsOk(st.next, st.levels)
    && WriterOk(st.next, st.maxHeight, st.levels, st.writer)
    && ReadersOk(st.levels, st.readers)
  }

  /** An empty list. */
  function Fresh(): State {
    State(map l: nat | l < MAX_HEIGHT :: (Head, l) := Null, 1, seq(MAX_HEIGHT, i => {}), Idle, map[])
  }

  lemma FreshOk()
    ensures Inv(Fresh())
  {
  }

  lemma FillKeeps(st: State)
    requires Inv(st) && Enabled(st, Fill)
    ensures Inv(Next(st, Fill))
  {
    hide IsPrev, InPlace;
    var w := st.writer;
    var st' := Next(st, Fill);
    assert PrevAt(w.prev, w.level) != Node(w.key) && (PrevAt(w.prev, w.level), w.level) in st.next by { PrevLinked(st, w.level); }
    forall l | 0 <= l < MAX_HEIGHT ensures Linked(st'.next, l, st.levels[l]) {
      StaysLinked(st.next, l, st.levels[l], (Node(w.key), w.level), st'.next[(Node(w.key), w.level)]);
    }
  }

  lemma PrevLinked(st: State, l: nat)
    requires Inv(st) && st.writer.Linking? && l == st.writer.level
    ensures l < MAX_HEIGHT
    ensures var p := PrevAt(st.writer.prev, l);
            && IsPrev(st.levels[l], st.writer.key, p) && On(st.levels[l], p)
            && p != Node(st.writer.key) && (p, l) in st.next
  {
    var p := PrevAt(st.writer.prev, l);
    assert IsPrev(st.levels[l], st.writer.key, p);
    assert Linked(st.next, l, st.levels[l]);
  }

  lemma PublishKeeps(st: State)
    requires Inv(st) && Enabled(st, Publish)
    ensures Inv(Next(st, Publish))
  {
    hide InPlace, IsPrev;
    var w := st.writer;
    var k, i := w.key, w.level;
    var p := PrevAt(w.prev, i);
    PrevLinked(st, i);
    var st' := Next(st, Publish);
    forall l | 0 <= l < MAX_HEIGHT ensures Linked(st'.next, l, st'.levels[l]) {
      if l == i {
        LinksIn(st.next, l, st.levels[l], k, p);
      } else {
        StaysLinked(st.next, l, st.levels[l], (p, i), Node(k));
      }
    }
    assert Nested(st'.levels);
    PlacesStay(st.levels, st'.levels, st.readers);
  }

  lemma PlacesStay(levels: seq<Level>, levels': seq<Level>, readers: map<nat, Search>)
    requires ReadersOk(levels, readers) && |levels| == |levels'|
    requires forall l :: 0 <= l < |levels| ==> levels[l] <= levels'[l]
    ensures ReadersOk(levels', readers)
  {
  }

  lemma WriterLoadKeeps(st: State)
    requires Inv(st) && Enabled(st, WriterLoad)
    ensures Inv(Next(st, WriterLoad))
  {
    hide ReadersOk;
    var w := st.writer;
    var s := w.search;
    assert Linked(st.next, s.level, st.levels[s.level]);
    TurnIsRight(st.levels, st.next, s);
    var n := Load(st.next, s);
    if !Advances(s.query, n) {
      assert IsNext(st.levels[s.level], s.x, n);
      assert IsPrev(st.levels[s.level], w.key, s.x);
      var prev := w.prev[s.level := s.x];
      forall l | s.level <= l < MAX_HEIGHT ensures IsPrev(st.levels[l], w.key, PrevAt(prev, l)) {
        if l > s.level {
          assert IsPrev(st.levels[l], w.key, PrevAt(w.prev, l));
        }
      }
    }
  }

  lemma ReaderLoadKeeps(st: State, id: nat)
    requires Inv(st) && Enabled(st, ReaderLoad(id))
    ensures Inv(Next(st, ReaderLoad(id)))
  {
    hide WriterOk;
    var s := st.readers[id];
    assert Linked(st.next, s.level, st.levels[s.level]);
    TurnIsRight(st.levels, st.next, s);
  }

  /** Every pointer and height store, and every load, keeps the invariant. */
  lemma StepKeeps(st: State, step: Step)
    requires Inv(st) && Enabled(st, step)
    ensures Inv(Next(st, step))
  {
    match step {
      case WriterLoad => WriterLoadKeeps(st);
      case Fill => FillKeeps(st);
      case Publish => PublishKeeps(st);
      case ReaderLoad(id) => ReaderLoadKeeps(st, id);
      case StoreHeight => RaiseKeeps(st);
      case BeginInsert(k, h) => BeginInsertKeeps(st, k, h);
      case _ =>
    }
  }

  lemma RaiseKeeps(st: State)
    requires Inv(st) && Enabled(st, StoreHeight)
    ensures Inv(Next(st, StoreHeight))
  {
    hide ReadersOk, LevelsOk, IsPrev;
    assert Nested(st.levels) by { LevelsAreNested(st); }
    forall l | 0 <= l < MAX_HEIGHT ensures st.writer.key !in st.levels[l] {
      if st.writer.key in st.levels[l] {
        OnBottom(st.levels, l, st.writer.key);
      }
    }
  }

  lemma LevelsAreNested(st: State)
    requires LevelsOk(st.next, st.levels)
    ensures Nested(st.levels)
  {
  }

  lemma BeginInsertKeeps(st: State, k: int, h: nat)
    requires Inv(st) && Enabled(st, BeginInsert(k, h))
    ensures Inv(Next(st, BeginInsert(k, h)))
  {
    LevelsAreNested(st);
    hide ReadersOk, LevelsOk;
    forall l | st.maxHeight <= l < MAX_HEIGHT ensures IsPrev(st.levels[l], k, Head) {
      assert st.levels[l] == {};
    }
  }

  // ---- whole runs ----

  ghost predicate Runs(st: State, steps: seq<Step>, end: State)
    decreases |steps|
  {
    if steps == [] then st == end
    else Enabled(st, steps[0]) && |st.levels| == MAX_HEIGHT && (st.writer.Linking? ==> st.writer.level < MAX_HEIGHT)
         && Runs(Next(st, steps[0]), steps[1..], end)
  }

  /** Every reachable state is well formed: level 0 sorted, every higher level a part of the one below. */
  lemma {:induction false} RunKeeps(st: State, steps: seq<Step>, end: State)
    requires Inv(st) && Runs(st, steps, end)
    ensures Inv(end) && st.levels[0] <= end.levels[0]
    decreases |steps|
  {
    hide Inv, Enabled, Next;
    BottomGrows(st, steps);
    if steps != [] {
      StepKeeps(st, steps[0]);
      BottomGrows(Next(st, steps[0]), steps);
      RunKeeps(Next(st, steps[0]), steps[1..], end);
    }
  }

  /** After any run from an empty list every level is a sorted list of its keys, and a part of the level below. */
  lemma AlwaysSorted(steps: seq<Step>, end: State)
    requires Runs(Fresh(), steps, end)
    ensures Nested(end.levels) && forall l :: 0 <= l < MAX_HEIGHT ==> Linked(end.next, l, end.levels[l])
  {
    hide Runs, Linked, WriterOk, ReadersOk;
    FreshOk();
    RunKeeps(Fresh(), steps, end);
  }

  lemma BottomGrows(st: State, steps: seq<Step>)
    requires Inv(st)
    ensures |st.levels| == MAX_HEIGHT
    ensures steps != [] && Enabled(st, steps[0]) && (st.writer.Linking? ==> st.writer.level < MAX_HEIGHT) ==>
              |Next(st, steps[0]).levels| == MAX_HEIGHT && st.levels[0] <= Next(st, steps[0]).levels[0]
  {
    hide WriterOk, ReadersOk;
  }

  /**
   * A search that runs while nodes are inserted, started at any height, answers exactly for the keys that were
   * in the list at one moment between its start and its end.
   */
  lemma {:induction false} SearchIsAtomic(st: State, steps: seq<Step>, end: State, id: nat) returns (bottom: Level)
    requires Inv(st) && Runs(st, steps, end) && id in st.readers && st.readers[id].Search?
    requires id in end.readers && end.readers[id].Found? && EndSearch(id) !in steps
    ensures |st.levels| == MAX_HEIGHT && |end.levels| == MAX_HEIGHT
    ensures st.levels[0] <= bottom <= end.levels[0]
    ensures end.readers[id].query == st.readers[id].query && Answers(bottom, st.readers[id].query, end.readers[id].result)
    decreases |steps|
  {
    hide Inv, Runs, Answers;
    RunKeeps(st, steps, end);
    BottomGrows(st, steps);
    BottomGrows(end, []);
    assert steps != [] by { NoSteps(st, steps, end); }
    FirstStep(st, steps, end);
    var next := Next(st, steps[0]);
    StepKeeps(st, steps[0]);
    OneLoad(st, steps[0], id);
    if next.readers[id].Found? {
      bottom := next.levels[0];
      RunKeeps(next, steps[1..], end);
      FoundStays(next, steps[1..], end, id);
    } else {
      bottom := SearchIsAtomic(next, steps[1..], end, id);
    }
  }

  lemma NoSteps(st: State, steps: seq<Step>, end: State)
    requires Runs(st, steps, end)
    ensures steps == [] ==> st == end
  {
  }

  lemma FirstStep(st: State, steps: seq<Step>, end: State)
    requires Runs(st, steps, end) && steps != []
    ensures Enabled(st, steps[0]) && |st.levels| == MAX_HEIGHT && (st.writer.Linking? ==> st.writer.level < MAX_HEIGHT)
    ensures Runs(Next(st, steps[0]), steps[1..], end)
  {
  }

  /** What one step does to a given search. */
  lemma OneLoad(st: State, step: Step, id: nat)
    requires Inv(st) && Enabled(st, step) && id in st.readers && st.readers[id].Search? && step != EndSearch(id)
    ensures |st.levels| == MAX_HEIGHT && (st.writer.Linking? ==> st.writer.level < MAX_HEIGHT)
    ensures var next := Next(st, step);
            && id in next.readers && next.readers[id].query == st.readers[id].query
            && (step != ReaderLoad(id) ==> next.readers[id] == st.readers[id])
            && (next.readers[id].Found? ==>
                  next.levels == st.levels && Answers(next.levels[0], next.readers[id].query, next.readers[id].result))
            && (step == ReaderLoad(id) ==> Remaining(next.levels[0], next.readers[id]) < Remaining(st.levels[0], st.readers[id]))
  {
    hide Answers, Remaining;
    var s := st.readers[id];
    assert Linked(st.next, s.level, st.levels[s.level]);
    TurnIsRight(st.levels, st.next, s);
    TurnGetsCloser(st.levels, st.next, s);
  }

  lemma {:induction false} FoundStays(st: State, steps: seq<Step>, end: State, id: nat)
    requires Runs(st, steps, end) && id in st.readers && st.readers[id].Found? && EndSearch(id) !in steps
    ensures id in end.readers && end.readers[id] == st.readers[id]
    decreases |steps|
  {
    if steps != [] {
      var next := Next(st, steps[0]);
      assert id in next.readers && next.readers[id] == st.readers[id];
      hide Next, Enabled;
      FoundStays(next, steps[1..], end, id);
    }
  }

  /** During a single insertion a search answers for the list before it or for the list after it. */
  lemma SearchDuringInsert(st: State, steps: seq<Step>, end: State, id: nat, k: int)
    requires Inv(st) && Runs(st, steps, end) && id in st.readers && st.readers[id].Search?
    requires id in end.readers && end.readers[id].Found? && EndSearch(id) !in steps
    requires |st.levels| > 0 && |end.levels| > 0 && end.levels[0] <= st.levels[0] + {k}
    ensures var (q, r) := (st.readers[id].query, end.readers[id].result);
            Answers(st.levels[0], q, r) || Answers(st.levels[0] + {k}, q, r)
  {
    hide Inv, Runs, Answers;
    var bottom := SearchIsAtomic(st, steps, end, id);
    if k !in bottom {
      assert bottom == st.levels[0];
    } else {
      assert bottom == st.levels[0] + {k};
    }
  }

  /**
   * ldb_skipiter_next on a node, or the head, that an iterator stands at while nodes are inserted: the one load it makes
   * gives the first node after it of the list as it is then.
   */
  lemma {:induction false} IterNextIsNext(st: State, steps: seq<Step>, end: State, x: Ptr)
    requires Inv(st) && Runs(st, steps, end) && |st.levels| == MAX_HEIGHT && On(st.levels[0], x)
    ensures |end.levels| == MAX_HEIGHT && st.levels[0] <= end.levels[0]
    ensures (x, 0) in end.next && IsNext(end.levels[0], x, end.next[(x, 0)])
    decreases |steps|
  {
    if steps == [] {
      hide WriterOk, ReadersOk;
      assert Linked(st.next, 0, st.levels[0]);
    } else {
      BottomGrows(st, steps);
      hide Inv, Enabled, Next, IsNext;
      StepKeeps(st, steps[0]);
      IterNextIsNext(Next(st, steps[0]), steps[1..], end, x);
    }
  }

  function Loads(steps: seq<Step>, id: nat): nat {
    if steps == [] then 0 else (if steps[0] == ReaderLoad(id) then 1 else 0) + Loads(steps[1..], id)
  }

  /** A search ends: it makes at most as many loads as it needed at the start, and one more for each key added since. */
  lemma {:induction false} LoadsAreBounded(st: State, steps: seq<Step>, end: State, id: nat)
    requires Inv(st) && Runs(st, steps, end) && id in st.readers && EndSearch(id) !in steps
    ensures |st.levels| == MAX_HEIGHT && |end.levels| == MAX_HEIGHT && id in end.readers
    ensures Loads(steps, id) + Remaining(end.levels[0], end.readers[id])
         <= Remaining(st.levels[0], st.readers[id]) + |end.levels[0]| - |st.levels[0]|
    decreases |steps|
  {
    hide Inv, Enabled, Next, Remaining;
    BottomGrows(st, steps);
    if steps != [] {
      var next := Next(st, steps[0]);
      StepKeeps(st, steps[0]);
      OneStepCost(st, steps[0], id);
      LoadsAreBounded(next, steps[1..], end, id);
    }
  }

  lemma OneStepCost(st: State, step: Step, id: nat)
    requires Inv(st) && Enabled(st, step) && id in st.readers && step != EndSearch(id)
    ensures |st.levels| == MAX_HEIGHT && (st.writer.Linking? ==> st.writer.level < MAX_HEIGHT)
    ensures var next := Next(st, step);
            && |next.levels| == MAX_HEIGHT && id in next.readers
            && (if step == ReaderLoad(id) then 1 else 0) + Remaining(next.levels[0], next.readers[id])
               <= Remaining(st.levels[0], st.readers[id]) + |next.levels[0]| - |st.levels[0]|
  {
    hide Remaining, InPlace, IsPrev, Linked;
    if st.readers[id].Search? {
      OneLoad(st, step, id);
    }
    if step.Publish? {
      NewKeyCostsOne(st.levels[0], st.writer.key, st.readers[id]);
    }
  }

  // ---- the list itself, for one thread ----

  /** The operations on one list; the run of stores of Insert is the writer's part of the transition system. */
  class List {
    var next: Links
    var maxHeight: nat
    ghost var levels: seq<Level>

    ghost predicate Valid()
      reads this
    {
      LevelsOk(next, levels) && 1 <= maxHeight <= MAX_HEIGHT && EmptyAbove(levels, maxHeight)
    }

    ghost function Keys(): Level
      requires Valid()
      reads this
    {
      levels[0]
    }

    /** ldb_skiplist_init. */
    constructor ()
      ensures Valid() && Keys() == {}
    {
      next := map l: nat | l < MAX_HEIGHT :: (Head, l) := Null;
      maxHeight := 1;
      levels := seq(MAX_HEIGHT, i => {});
    }

    lemma LoadOk(s: Search)
      requires Valid() && s.Search? && InPlace(levels, s)
      ensures (s.x, s.level) in next
      ensures var n := next[(s.x, s.level)];
              && InPlace(levels, Turn(s, n))
              && Remaining(levels[0], Turn(s, n)) < Remaining(levels[0], s)
              && (Turn(s, n).Found? ==> Answers(levels[0], s.query, Turn(s, n).result))
              && (!Advances(s.query, n) && s.query.AtOrAfter? ==> IsPrev(levels[s.level], s.query.key, s.x))
    {
      assert Linked(next, s.level, levels[s.level]);
      TurnIsRight(levels, next, s);
      TurnGetsCloser(levels, next, s);
      assert IsNext(levels[s.level], s.x, next[(s.x, s.level)]);
    }

    /** ldb_skiplist_find_ge, with the predecessors it fills in. */
    method FindGe(key: int) returns (result: Ptr, prev: map<nat, Ptr>)
      requires Valid()
      ensures FirstFrom(Keys(), key, result)
      ensures PrevsFrom(levels, key, prev, 0)
    {
      hide LevelsOk, Linked, IsPrev, FirstFrom, InPlace, Remaining;
      var level: nat, x := maxHeight - 1, Head;
      prev := map[];
      ghost var q := AtOrAfter(key);
      Starts(q, maxHeight - 1);
      EmptyPrevs(key);
      while true
        invariant level < maxHeight && InPlace(levels, Search(q, x, level)) && PrevsFrom(levels, key, prev, level + 1)
        decreases Remaining(Keys(), Search(q, x, level))
      {
        LoadOk(Search(q, x, level));
        var n := next[(x, level)];
        if n.Node? && n.key < key {
          x := n;
        } else {
          prev := prev[level := x];
          if level == 0 {
            return n, prev;
          }
          level := level - 1;
        }
      }
    }

    lemma Starts(q: Query, level: nat)
      requires Valid() && level < MAX_HEIGHT
      ensures InPlace(levels, Search(q, Head, level))
    {
    }

    lemma EmptyPrevs(key: int)
      requires Valid()
      ensures PrevsFrom(levels, key, map[], maxHeight)
    {
    }

    /** ldb_skiplist_find_lt. */
    method FindLt(key: int) returns (result: Ptr)
      requires Valid()
      ensures IsPrev(Keys(), key, result)
    {
      hide LevelsOk, Linked, IsPrev, InPlace, Remaining, EmptyAbove;
      var level: nat, x := maxHeight - 1, Head;
      ghost var q := JustBefore(key);
      Starts(q, maxHeight - 1);
      while true
        invariant level < maxHeight && InPlace(levels, Search(q, x, level))
        decreases Remaining(Keys(), Search(q, x, level))
      {
        LoadOk(Search(q, x, level));
        var n := next[(x, level)];
        if !n.Node? || n.key >= key {
          if level == 0 {
            return x;
          }
          level := level - 1;
        } else {
          x := n;
        }
      }
    }

    /** ldb_skiplist_find_last. */
    method FindLast() returns (result: Ptr)
      requires Valid()
      ensures IsLast(Keys(), result)
    {
      hide LevelsOk, Linked, IsLast, InPlace, Remaining, EmptyAbove;
      var level: nat, x := maxHeight - 1, Head;
      Starts(Last, maxHeight - 1);
      while true
        invariant level < maxHeight && InPlace(levels, Search(Last, x, level))
        decreases Remaining(Keys(), Search(Last, x, level))
      {
        LoadOk(Search(Last, x, level));
        NeverHead(x, level);
        var n := next[(x, level)];
        if n.Null? {
          if level == 0 {
            return x;
          }
          level := level - 1;
        } else {
          x := n;
        }
      }
    }

    lemma NeverHead(x: Ptr, level: nat)
      requires Valid() && level < MAX_HEIGHT && InPlace(levels, Search(Last, x, level))
      ensures (x, level) in next && (next[(x, level)].Null? || next[(x, level)].Node?)
    {
      assert Linked(next, level, levels[level]);
      assert IsNext(levels[level], x, next[(x, level)]);
    }

    /** One level of the new node: its own pointer, then the pointer that publishes it. */
    method LinkLevel(key: int, prev: map<nat, Ptr>, i: nat)
      requires LevelsOk(next, levels) && i < MAX_HEIGHT && IsPrev(levels[i], key, PrevAt(prev, i))
      requires key !in levels[i] && (i > 0 ==> key in levels[i - 1])
      modifies this`next, this`levels
      ensures LevelsOk(next, levels) && levels == old(levels[i := levels[i] + {key}])
    {
      hide IsPrev;
      var p := PrevAt(prev, i);
      assert Linked(next, i, levels[i]);
      assert On(levels[i], p) && p != Node(key) by { PrevIsOn(levels[i], key, p); }
      ghost var links, s := next, levels[i];
      var n := next[(p, i)];
      next := next[(Node(key), i) := n];
      StaysLinked(links, i, s, (Node(key), i), n);
      LinksIn(next, i, s, key, p);
      ghost var filled := next;
      next := next[(p, i) := Node(key)];
      levels := levels[i := s + {key}];
      forall l | 0 <= l < MAX_HEIGHT && l != i ensures Linked(next, l, levels[l]) {
        StaysLinked(links, l, levels[l], (Node(key), i), n);
        StaysLinked(filled, l, levels[l], (p, i), Node(key));
      }
    }

    lemma PrevIsOn(s: Level, key: int, p: Ptr)
      requires IsPrev(s, key, p)
      ensures On(s, p) && p != Node(key)
    {
    }

    /** ldb_skiplist_insert: the key must be new. */
    method Insert(key: int, height: nat)
      requires Valid() && key !in Keys() && 1 <= height <= MAX_HEIGHT
      modifies this
      ensures Valid() && Keys() == old(Keys()) + {key}
    {
      hide Linked, IsPrev, FirstFrom;
      var node, prev := FindGe(key);
      if height > maxHeight {
        maxHeight := height;
      }
      ghost var before, raised := levels, maxHeight;
      assert EmptyAbove(before, raised);
      NotYet(key);
      for i := 0 to height
        invariant LevelsOk(next, levels) && 1 <= height <= maxHeight == raised <= MAX_HEIGHT
        invariant forall l :: 0 <= l < MAX_HEIGHT ==> levels[l] == before[l] + if l < i then {key} else {}
      {
        LinkLevel(key, prev, i);
      }
      assert EmptyAbove(levels, maxHeight);
    }

    lemma NotYet(key: int)
      requires LevelsOk(next, levels) && key !in levels[0]
      ensures forall l :: 0 <= l < MAX_HEIGHT ==> key !in levels[l]
    {
      hide Linked;
      forall l | 0 <= l < MAX_HEIGHT ensures key !in levels[l] {
        if key in levels[l] {
          OnBottom(levels, l, key);
        }
      }
    }

    /** ldb_skiplist_contains. */
    method Contains(key: int) returns (found: bool)
      requires Valid()
      ensures found <==> key in Keys()
    {
      hide LevelsOk;
      var node, prev := FindGe(key);
      found := node.Node? && node.key == key;
    }

    /** ldb_skipiter_next. */
    method IterNext(node: Ptr) returns (result: Ptr)
      requires Valid() && node.Node? && node.key in Keys()
      ensures IsNext(Keys(), node, result)
    {
      assert Linked(next, 0, levels[0]) && On(levels[0], node);
      result := next[(node, 0)];
    }

    /** ldb_skipiter_prev: the last node before this one, or invalid. */
    method IterPrev(node: Ptr) returns (result: Ptr)
      requires Valid() && node.Node? && node.key in Keys()
      ensures if exists k :: k in Keys() && k < node.key then IsPrev(Keys(), node.key, result) else result == Null
    {
      hide LevelsOk;
      result := FindLt(node.key);
      if result.Head? {
        result := Null;
      }
    }

    /** ldb_skipiter_seek. */
    method IterSeek(target: int) returns (result: Ptr)
      requires Valid()
      ensures FirstFrom(Keys(), target, result)
    {
      var prev;
      result, prev := FindGe(target);
    }

    /** ldb_skipiter_first. */
    method IterFirst() returns (result: Ptr)
      requires Valid()
      ensures IsNext(Keys(), Head, result)
    {
      assert Linked(next, 0, levels[0]);
      result := next[(Head, 0)];
    }

    /** ldb_skipiter_last. */
    method IterLast() returns (result: Ptr)
      requires Valid()
      ensures if exists k :: k in Keys() then IsLast(Keys(), result) else result == Null
    {
      hide LevelsOk;
      result := FindLast();
      if result.Head? {
        result := Null;
      }
    }
  }
}
