/** The database iterator: a two-direction cursor over user keys on top of a cursor over internal entries (db_iter.c). */
module DbIter {
  import opened Bytes
  import opened Mvcc
  import Format

  // ---- the abstract cursor ----

  datatype Cursor = Off | At(index: nat)

  datatype Op = First | Last | Seek(target: Bytes) | Next | Prev

  /** Index i is what a reader at s sees of its user key: a value with no older-index version it may see. */
  ghost predicate Visible(es: seq<Entry>, s: nat, i: int) {
    && 0 <= i < |es|
    && es[i].seqno <= s && es[i].kind.Value?
    && forall j :: 0 <= j < i && es[j].key == es[i].key ==> es[j].seqno > s
  }

  /** The visible pairs among the first n entries, in order. */
  ghost function View(es: seq<Entry>, s: nat, n: nat): (v: seq<(Bytes, Bytes)>)
    requires n <= |es|
  {
    if n == 0 then []
    else if Visible(es, s, n - 1) then View(es, s, n - 1) + [(es[n - 1].key, es[n - 1].value)]
    else View(es, s, n - 1)
  }

  ghost function Rank(es: seq<Entry>, s: nat, n: nat): nat
    requires n <= |es|
  {
    |View(es, s, n)|
  }

  function LowerIndex(v: seq<(Bytes, Bytes)>, target: Bytes): (i: nat)
    ensures i <= |v|
    ensures forall j :: 0 <= j < i ==> Less(v[j].0, target)
    ensures i < |v| ==> !Less(v[i].0, target)
  {
    if v == [] || !Less(v[0].0, target) then 0 else 1 + LowerIndex(v[1..], target)
  }

  function Step(v: seq<(Bytes, Bytes)>, c: Cursor, op: Op): Cursor {
    match op
    case First => if v == [] then Off else At(0)
    case Last => if v == [] then Off else At(|v| - 1)
    case Seek(t) => if LowerIndex(v, t) < |v| then At(LowerIndex(v, t)) else Off
    case Next => if c.At? && c.index + 1 < |v| then At(c.index + 1) else Off
    case Prev => if c.At? && 0 < c.index <= |v| then At(c.index - 1) else Off
  }

  function Read(v: seq<(Bytes, Bytes)>, c: Cursor): Option<(Bytes, Bytes)> {
    if c.At? && c.index < |v| then Some(v[c.index]) else None
  }

  /** What a run of operations shows, one reading after each. */
  function Trace(v: seq<(Bytes, Bytes)>, c: Cursor, ops: seq<Op>): seq<Option<(Bytes, Bytes)>>
    decreases |ops|
  {
    if ops == [] then []
    else
      var d := Step(v, c, ops[0]);
      [Read(v, d)] + Trace(v, d, ops[1..])
  }

  // ---- facts about sorted entries ----

  lemma KeysAscend(es: seq<Entry>, i: int, j: int)
    requires Sorted(es) && 0 <= i <= j < |es|
    ensures AtMost(es[i].key, es[j].key)
    ensures Less(es[i].key, es[j].key) <==> es[i].key != es[j].key
  {
    LessIsTotal(es[i].key, es[j].key);
    if i < j {
      assert InternalLess(es[i], es[j]);
    }
  }

  lemma KeysContiguous(es: seq<Entry>, i: int, m: int, j: int)
    requires Sorted(es) && 0 <= i <= m <= j < |es| && es[i].key == es[j].key
    ensures es[m].key == es[i].key
  {
    KeysAscend(es, i, m);
    KeysAscend(es, m, j);
    LessIsTotal(es[i].key, es[m].key);
  }

  lemma {:induction false} ViewGrows(es: seq<Entry>, s: nat, m: nat, n: nat)
    requires m <= n <= |es|
    ensures View(es, s, m) <= View(es, s, n)
  {
    if m < n {
      ViewGrows(es, s, m, n - 1);
    }
  }

  lemma ViewHolds(es: seq<Entry>, s: nat, i: nat)
    requires Visible(es, s, i)
    ensures Rank(es, s, i) < Rank(es, s, |es|)
    ensures View(es, s, |es|)[Rank(es, s, i)] == (es[i].key, es[i].value)
  {
    assert |View(es, s, i + 1)| == |View(es, s, i)| + 1;
    ViewGrows(es, s, i + 1, |es|);
  }

  lemma {:induction false} ViewSkips(es: seq<Entry>, s: nat, m: nat, n: nat)
    requires m <= n <= |es| && forall i :: m <= i < n ==> !Visible(es, s, i)
    ensures View(es, s, m) == View(es, s, n)
  {
    if m < n {
      ViewSkips(es, s, m, n - 1);
    }
  }

  /** The view holds a pair exactly when a read at s answers its value. */
  lemma {:induction false} ViewMembers(es: seq<Entry>, s: nat, n: nat, p: (Bytes, Bytes))
    requires n <= |es|
    ensures p in View(es, s, n) <==> exists i :: 0 <= i < n && Visible(es, s, i) && p == (es[i].key, es[i].value)
  {
    if n > 0 {
      ViewMembers(es, s, n - 1, p);
    }
  }

  lemma VisibleIsAnswer(es: seq<Entry>, s: nat, i: nat)
    requires Sorted(es) && Distinct(Elements(es)) && Visible(es, s, i)
    ensures Answer(Elements(es), es[i].key, s) == Some(es[i].value)
  {
    forall f | Seen(Elements(es), es[i].key, s, f) ensures f.seqno <= es[i].seqno {
      var j :| 0 <= j < |es| && es[j] == f;
      if i < j {
        assert InternalLess(es[i], es[j]);
        LessIsTotal(es[i].key, es[j].key);
      }
    }
    AnswerIs(Elements(es), es[i].key, s, es[i]);
  }

  lemma AnswerIsVisible(es: seq<Entry>, s: nat, k: Bytes) returns (i: nat)
    requires Sorted(es) && Distinct(Elements(es)) && Answer(Elements(es), k, s).Some?
    ensures Visible(es, s, i) && es[i].key == k
  {
    var e :| Newest(Elements(es), k, s, e) && e.kind.Value?;
    i :| 0 <= i < |es| && es[i] == e;
    forall j | 0 <= j < i && es[j].key == es[i].key ensures es[j].seqno > s {
      assert InternalLess(es[j], es[i]);
      LessIsTotal(es[j].key, es[i].key);
      if es[j].seqno <= s {
        assert Seen(Elements(es), k, s, es[j]);
      }
    }
  }

  /** The abstract cursor ranges over exactly the map a read at s sees. */
  lemma ViewIsSnapshot(es: seq<Entry>, s: nat, k: Bytes, x: Bytes)
    requires Sorted(es) && Distinct(Elements(es))
    ensures (k, x) in View(es, s, |es|) <==> Answer(Elements(es), k, s) == Some(x)
  {
    ViewMembers(es, s, |es|, (k, x));
    if i :| 0 <= i < |es| && Visible(es, s, i) && (k, x) == (es[i].key, es[i].value) {
      VisibleIsAnswer(es, s, i);
    }
    if Answer(Elements(es), k, s).Some? {
      var i := AnswerIsVisible(es, s, k);
      VisibleIsAnswer(es, s, i);
    }
  }

  /** The view lists each key once, in increasing order. */
  lemma {:induction false} ViewAscends(es: seq<Entry>, s: nat, n: nat)
    requires Sorted(es) && n <= |es|
    ensures forall a, b :: 0 <= a < b < Rank(es, s, n) ==> Less(View(es, s, n)[a].0, View(es, s, n)[b].0)
  {
    if n > 0 {
      ViewAscends(es, s, n - 1);
      if Visible(es, s, n - 1) {
        var v := View(es, s, n - 1);
        forall a | 0 <= a < |v| ensures Less(v[a].0, es[n - 1].key) {
          ViewMembers(es, s, n - 1, v[a]);
          var i :| 0 <= i < n - 1 && Visible(es, s, i) && v[a] == (es[i].key, es[i].value);
          KeysAscend(es, i, n - 1);
        }
      }
    }
  }

  // ---- the forward scan ----

  ghost predicate SeenBefore(es: seq<Entry>, s: nat, p: int, k: Bytes) {
    exists j :: 0 <= j < p && j < |es| && es[j].key == k && es[j].seqno <= s
  }

  /** Keys already accounted for before index p are all skipped, and the key to skip is not ahead of the scan. */
  ghost predicate Hides(es: seq<Entry>, s: nat, p: int, skipping: bool, skip: Bytes) {
    && (forall i :: 0 <= i && p <= i < |es| && SeenBefore(es, s, p, es[i].key) ==> skipping && es[i].key == skip)
    && (skipping ==> forall i :: 0 <= i && p <= i < |es| && es[i].seqno <= s ==> AtMost(skip, es[i].key))
  }

  /** What a forward scan from p0 looks for. */
  ghost predicate Target(es: seq<Entry>, s: nat, p0: int, skipping: bool, skip: Bytes, i: int) {
    p0 <= i && Visible(es, s, i) && !(skipping && es[i].key == skip)
  }

  ghost predicate Scanned(es: seq<Entry>, s: nat, p0: int, skipping0: bool, skip0: Bytes,
                          p: int, skipping: bool, skip: Bytes) {
    && 0 <= p0 <= p <= |es|
    && (forall i :: 0 <= i < p ==> !Target(es, s, p0, skipping0, skip0, i))
    && Hides(es, s, p, skipping, skip)
    && (forall i :: p <= i < |es| && es[i].seqno <= s ==>
          (skipping && es[i].key == skip
           <==> (skipping0 && es[i].key == skip0) || SeenBefore(es, s, p, es[i].key)))
  }

  lemma ScanNewer(es: seq<Entry>, s: nat, p0: int, skipping0: bool, skip0: Bytes, p: int, skipping: bool, skip: Bytes)
    requires Sorted(es) && Scanned(es, s, p0, skipping0, skip0, p, skipping, skip)
    requires p < |es| && es[p].seqno > s
    ensures Scanned(es, s, p0, skipping0, skip0, p + 1, skipping, skip)
  {
    forall k ensures SeenBefore(es, s, p + 1, k) <==> SeenBefore(es, s, p, k) {
    }
  }

  lemma ScanHidden(es: seq<Entry>, s: nat, p0: int, skipping0: bool, skip0: Bytes, p: int, skipping: bool, skip: Bytes)
    requires Sorted(es) && Scanned(es, s, p0, skipping0, skip0, p, skipping, skip)
    requires p < |es| && es[p].seqno <= s && skipping && AtMost(es[p].key, skip)
    ensures Scanned(es, s, p0, skipping0, skip0, p + 1, skipping, skip)
  {
    LessIsTotal(es[p].key, skip);
    assert es[p].key == skip;
    SeenOne(es, s, p);
  }

  lemma SeenOne(es: seq<Entry>, s: nat, p: int)
    requires 0 <= p < |es| && es[p].seqno <= s
    ensures forall k :: SeenBefore(es, s, p + 1, k) <==> SeenBefore(es, s, p, k) || k == es[p].key
  {
    forall k ensures SeenBefore(es, s, p + 1, k) <==> SeenBefore(es, s, p, k) || k == es[p].key {
      if SeenBefore(es, s, p + 1, k) && k != es[p].key {
        var j :| 0 <= j < p + 1 && j < |es| && es[j].key == k && es[j].seqno <= s;
        assert 0 <= j < p;
      }
    }
  }

  lemma ScanDeletion(es: seq<Entry>, s: nat, p0: int, skipping0: bool, skip0: Bytes, p: int, skipping: bool, skip: Bytes)
    requires Sorted(es) && Scanned(es, s, p0, skipping0, skip0, p, skipping, skip)
    requires p < |es| && es[p].seqno <= s && es[p].kind.Deletion?
    ensures Scanned(es, s, p0, skipping0, skip0, p + 1, true, es[p].key)
  {
    SeenOne(es, s, p);
    var key := es[p].key;
    forall i | p < i < |es|
      ensures AtMost(key, es[i].key)
      ensures skipping && es[i].key == skip ==> es[i].key == key
    {
      KeysAscend(es, p, i);
      if skipping && es[i].key == skip {
        LessIsTotal(key, skip);
      }
    }
  }

  lemma ScanFound(es: seq<Entry>, s: nat, p0: int, skipping0: bool, skip0: Bytes, p: int, skipping: bool, skip: Bytes)
    requires Sorted(es) && Scanned(es, s, p0, skipping0, skip0, p, skipping, skip)
    requires p < |es| && es[p].seqno <= s && es[p].kind.Value? && !(skipping && AtMost(es[p].key, skip))
    ensures Target(es, s, p0, skipping0, skip0, p)
  {
    LessIsTotal(es[p].key, skip);
    assert !SeenBefore(es, s, p, es[p].key);
  }

  // ---- the backward scan ----

  /** A backward scan from p0 has examined everything above p; c is the lowest index there that a reader at s may see. */
  ghost predicate ScannedBack(es: seq<Entry>, s: nat, p0: int, p: int, c: int,
                              kind: Kind, key: Bytes, value: Bytes) {
    && -1 <= p < c <= p0 + 1 <= |es|
    && (forall i :: p < i < c && i <= p0 ==> es[i].seqno > s)
    && (forall i :: c < i <= p0 ==> !Visible(es, s, i))
    && (c == p0 + 1 ==> kind.Deletion?)
    && (c <= p0 ==> es[c].seqno <= s && kind == es[c].kind
                    && (kind.Value? ==> key == es[c].key && value == es[c].value))
  }

  lemma BackSkip(es: seq<Entry>, s: nat, p0: int, p: int, c: int, kind: Kind, key: Bytes, value: Bytes)
    requires ScannedBack(es, s, p0, p, c, kind, key, value) && p >= 0 && es[p].seqno > s
    ensures ScannedBack(es, s, p0, p - 1, c, kind, key, value)
  {
  }

  lemma BackTake(es: seq<Entry>, s: nat, p0: int, p: int, c: int, kind: Kind, key: Bytes, value: Bytes,
                 key': Bytes, value': Bytes)
    requires Sorted(es) && ScannedBack(es, s, p0, p, c, kind, key, value) && p >= 0 && es[p].seqno <= s
    requires !(kind.Value? && Less(es[p].key, key))
    requires es[p].kind.Value? ==> key' == es[p].key && value' == es[p].value
    ensures ScannedBack(es, s, p0, p - 1, p, es[p].kind, key', value')
  {
    if c <= p0 {
      KeysAscend(es, p, c);
      assert !Visible(es, s, c);
    }
  }

  lemma BackFound(es: seq<Entry>, s: nat, p0: int, p: int, c: int, kind: Kind, key: Bytes, value: Bytes)
    requires Sorted(es) && ScannedBack(es, s, p0, p, c, kind, key, value) && kind.Value?
    requires p >= 0 ==> Less(es[p].key, key)
    ensures Visible(es, s, c)
  {
    forall j | 0 <= j < c && es[j].key == es[c].key ensures es[j].seqno > s {
      if j <= p {
        KeysAscend(es, j, p);
        LessIsTotal(es[p].key, es[j].key);
      }
    }
  }

  // ---- from entry indices to the abstract cursor ----

  /** With nothing visible strictly between them, `to` ranks one past `from`. */
  lemma RankStep(es: seq<Entry>, s: nat, from: int, to: int)
    requires -1 <= from < to <= |es| && (from >= 0 ==> Visible(es, s, from))
    requires forall i :: from < i < to ==> !Visible(es, s, i)
    ensures Rank(es, s, to) == if from == -1 then 0 else Rank(es, s, from) + 1
  {
    ViewSkips(es, s, from + 1, to);
  }

  lemma LowerIndexIs(v: seq<(Bytes, Bytes)>, target: Bytes, n: nat)
    requires n <= |v|
    requires forall j :: 0 <= j < n ==> Less(v[j].0, target)
    requires n < |v| ==> !Less(v[n].0, target)
    ensures LowerIndex(v, target) == n
  {
    assert LowerIndex(v, target) >= n;
  }

  /** After a move off entry `from`, a forward scan from p skips its key and nothing else. */
  lemma SkipsCurrent(es: seq<Entry>, s: nat, from: int, p: int)
    requires Sorted(es) && Visible(es, s, from) && 0 <= p <= from + 1 && p < |es|
    requires forall j :: p <= j < from ==> es[j].seqno > s
    requires 0 < p <= from ==> Less(es[p - 1].key, es[from].key)
    ensures Hides(es, s, p, true, es[from].key)
  {
    forall i | p <= i < |es| && SeenBefore(es, s, p, es[i].key) ensures es[i].key == es[from].key {
      var j :| 0 <= j < p && j < |es| && es[j].key == es[i].key && es[j].seqno <= s;
      assert InternalLess(es[j], es[i]);
      LessIsTotal(es[j].key, es[i].key);
      assert i >= from;
      if p == from + 1 {
        KeysContiguous(es, j, from, i);
      } else {
        KeysAscend(es, j, p - 1);
        KeysAscend(es, from, i);
        LessTransitive(es[j].key, es[p - 1].key, es[from].key);
        LessIsTotal(es[j].key, es[from].key);
      }
    }
    forall i | p <= i < |es| && es[i].seqno <= s ensures AtMost(es[from].key, es[i].key) {
      KeysAscend(es, from, i);
    }
  }

  /** What is visible after entry `from` is exactly what such a scan looks for. */
  lemma TargetsAfter(es: seq<Entry>, s: nat, from: int, p: int, i: int)
    requires Sorted(es) && Visible(es, s, from) && 0 <= p <= from + 1 && 0 <= i < |es|
    requires forall j :: p <= j < from ==> es[j].seqno > s
    ensures Target(es, s, p, true, es[from].key, i) <==> from < i && Visible(es, s, i)
  {
  }

  /** No entry at or after a seek position has a version before it that s may see. */
  lemma SeekHides(es: seq<Entry>, s: nat, target: Bytes, p: int)
    requires Sorted(es) && 0 <= p < |es|
    requires forall i :: 0 <= i < p ==> InternalLess(es[i], Probe(target, s))
    requires !InternalLess(es[p], Probe(target, s))
    ensures forall skip :: Hides(es, s, p, false, skip)
    ensures forall i :: p <= i < |es| && es[i].seqno <= s ==> !Less(es[i].key, target)
  {
    var probe := Probe(target, s);
    forall i | p <= i < |es| ensures !Less(es[i].key, target) {
      if Less(es[i].key, target) && p < i {
        InternalLessTransitive(es[p], es[i], probe);
      }
    }
    forall j | 0 <= j < p && es[j].seqno <= s ensures Less(es[j].key, target) {
      ProbeSplits(target, s, es[j]);
      LessIsTotal(es[j].key, target);
    }
  }

  lemma SeekLands(es: seq<Entry>, s: nat, target: Bytes, p: nat, n: nat)
    requires Sorted(es) && p <= n <= |es|
    requires forall i :: 0 <= i < p ==> InternalLess(es[i], Probe(target, s))
    requires forall i :: p <= i < n ==> !Visible(es, s, i)
    requires n < |es| ==> Visible(es, s, n) && !Less(es[n].key, target)
    ensures LowerIndex(View(es, s, |es|), target) == Rank(es, s, n)
  {
    var v := View(es, s, |es|);
    ViewGrows(es, s, n, |es|);
    forall j | 0 <= j < Rank(es, s, n) ensures Less(v[j].0, target) {
      ViewMembers(es, s, n, v[j]);
      var i :| 0 <= i < n && Visible(es, s, i) && v[j] == (es[i].key, es[i].value);
      ProbeSplits(target, s, es[i]);
      LessIsTotal(es[i].key, target);
    }
    if n < |es| {
      ViewHolds(es, s, n);
    }
    LowerIndexIs(v, target, Rank(es, s, n));
  }

  // ---- where an operation lands, in terms of the keys alone ----

  /** Is the key one that the operation looks for, when `from` is the key it starts at? */
  predicate Candidate(op: Op, from: Bytes, key: Bytes) {
    match op
    case First => true
    case Last => true
    case Seek(target) => AtMost(target, key)
    case Next => Less(from, key)
    case Prev => Less(key, from)
  }

  /** Nothing is shown when there is no candidate, and otherwise the first of them, or for last and prev the last. */
  ghost predicate Lands(v: seq<(Bytes, Bytes)>, op: Op, from: Bytes, shown: Option<(Bytes, Bytes)>) {
    match shown
    case None => forall p :: p in v ==> !Candidate(op, from, p.0)
    case Some(q) =>
      && q in v && Candidate(op, from, q.0)
      && forall p :: p in v && Candidate(op, from, p.0) ==> if op.Last? || op.Prev? then AtMost(p.0, q.0) else AtMost(q.0, p.0)
  }

  function KeyOf(shown: Option<(Bytes, Bytes)>): Bytes {
    if shown.Some? then shown.value.0 else []
  }

  ghost predicate Ascend(v: seq<(Bytes, Bytes)>) {
    forall i, j :: 0 <= i < j < |v| ==> Less(v[i].0, v[j].0)
  }

  lemma StepLands(v: seq<(Bytes, Bytes)>, c: Cursor, op: Op)
    requires Ascend(v) && (op.Next? || op.Prev? ==> Read(v, c).Some?)
    ensures Lands(v, op, KeyOf(Read(v, c)), Read(v, Step(v, c, op)))
  {
    hide Less, AtMost;
    var from, d := KeyOf(Read(v, c)), Step(v, c, op);
    forall i, j | 0 <= i < |v| && 0 <= j < |v| ensures AtMost(v[i].0, v[j].0) <==> i <= j {
      LessIsTotal(v[i].0, v[j].0);
    }
    forall i, j | 0 <= i < |v| && 0 <= j < |v| ensures Less(v[i].0, v[j].0) <==> i < j {
      LessIsTotal(v[i].0, v[j].0);
    }
    forall p | p in v && op.Seek? ensures AtMost(op.target, p.0) <==> !Less(p.0, op.target) {
      LessIsTotal(p.0, op.target);
    }
    forall p | p in v ensures exists i :: 0 <= i < |v| && v[i] == p {
    }
    if op.Seek? {
      SeekLowers(v, op.target);
    }
  }

  /** The keys before the lower index are less than the target, and the others are not. */
  lemma SeekLowers(v: seq<(Bytes, Bytes)>, target: Bytes)
    requires Ascend(v)
    ensures forall i :: 0 <= i < |v| ==> (Less(v[i].0, target) <==> i < LowerIndex(v, target))
  {
    hide Less, AtMost;
    var n := LowerIndex(v, target);
    forall i | n <= i < |v| ensures !Less(v[i].0, target) {
      if Less(v[i].0, target) && n < i {
        LessIsTotal(v[n].0, v[i].0);
        LessIsTotal(v[i].0, target);
        LessTransitive(v[n].0, v[i].0, target);
      }
    }
  }

  // ---- entries that arrive while an iterator is open ----

  function InsertedAt(es: seq<Entry>, i: nat, e: Entry): (r: seq<Entry>)
    requires i <= |es|
    ensures |r| == |es| + 1
    ensures forall k :: 0 <= k < |r| ==> r[k] == if k < i then es[k] else if k == i then e else es[k - 1]
  {
    es[..i] + [e] + es[i..]
  }

  /** Where entry j of the old list is in the new one. */
  function Moved(i: nat, j: int): int {
    if j < i then j else j + 1
  }

  lemma StaysSorted(es: seq<Entry>, i: nat, e: Entry)
    requires Sorted(es) && i <= |es|
    requires forall j :: 0 <= j < i ==> InternalLess(es[j], e)
    requires forall j :: i <= j < |es| ==> InternalLess(e, es[j])
    ensures Sorted(InsertedAt(es, i, e))
  {
    hide InternalLess;
    var es' := InsertedAt(es, i, e);
    forall j, k | 0 <= j < k < |es'| ensures InternalLess(es'[j], es'[k]) {
      if k < i {
        assert InternalLess(es[j], es[k]);
      } else if j > i {
        assert InternalLess(es[j - 1], es[k - 1]);
      } else if j < i && k > i {
        assert InternalLess(es[j], es[k - 1]);
      }
    }
  }

  /** An entry that s may not see changes nothing about what s sees. */
  lemma VisibleMoves(es: seq<Entry>, s: nat, i: nat, e: Entry, j: nat)
    requires i <= |es| && j < |es| && e.seqno > s
    ensures Visible(InsertedAt(es, i, e), s, Moved(i, j)) <==> Visible(es, s, j)
    ensures !Visible(InsertedAt(es, i, e), s, i)
  {
    var es' := InsertedAt(es, i, e);
    if Visible(es', s, Moved(i, j)) {
      forall k | 0 <= k < j && es[k].key == es[j].key ensures es[k].seqno > s {
        assert es'[Moved(i, k)] == es[k];
      }
    }
  }

  lemma ArrivalHidden(es: seq<Entry>, s: nat, i: nat, e: Entry)
    requires i <= |es| && e.seqno > s
    ensures !Visible(InsertedAt(es, i, e), s, i)
  {
  }

  lemma {:induction false} ViewStays(es: seq<Entry>, s: nat, i: nat, e: Entry, n: nat)
    requires i <= |es| && n <= |es| && e.seqno > s
    ensures n <= i ==> View(InsertedAt(es, i, e), s, n) == View(es, s, n)
    ensures n >= i ==> View(InsertedAt(es, i, e), s, n + 1) == View(es, s, n)
    decreases n
  {
    hide Visible;
    var es' := InsertedAt(es, i, e);
    ArrivalHidden(es, s, i, e);
    if n > 0 {
      VisibleMoves(es, s, i, e, n - 1);
      ViewStays(es, s, i, e, n - 1);
      assert es'[Moved(i, n - 1)] == es[n - 1];
    }
  }

  lemma SameRank(es: seq<Entry>, s: nat, i: nat, e: Entry, j: nat)
    requires i <= |es| && j < |es| && e.seqno > s
    ensures Moved(i, j) < |InsertedAt(es, i, e)| && InsertedAt(es, i, e)[Moved(i, j)] == es[j]
    ensures Rank(InsertedAt(es, i, e), s, Moved(i, j)) == Rank(es, s, j)
  {
    ViewStays(es, s, i, e, j);
  }

  ghost predicate UpTo(es: seq<Entry>, newest: nat) {
    forall f :: f in es ==> f.seqno <= newest
  }

  lemma Comparable(es: seq<Entry>, e: Entry, newest: nat)
    requires UpTo(es, newest) && newest < e.seqno
    ensures forall f :: f in es ==> InternalLess(f, e) || InternalLess(e, f)
  {
    hide Less;
    forall f | f in es ensures InternalLess(f, e) || InternalLess(e, f) {
      LessIsTotal(f.key, e.key);
    }
  }

  lemma Arrived(es: seq<Entry>, s: nat, i: nat, e: Entry, newest: nat)
    requires i <= |es| && UpTo(es, newest) && s <= newest < e.seqno
    ensures var es' := InsertedAt(es, i, e); UpTo(es', e.seqno) && View(es', s, |es'|) == View(es, s, |es|)
  {
    ViewStays(es, s, i, e, |es|);
  }

  /** Nor about entries between two that it may not see. */
  lemma HiddenMove(es: seq<Entry>, s: nat, i: nat, e: Entry, from: int, to: nat)
    requires i <= |es| && -1 <= from < to < |es| && e.seqno > s && forall j :: from < j < to ==> es[j].seqno > s
    ensures var es' := InsertedAt(es, i, e);
            && es'[Moved(i, to)] == es[to] && (from >= 0 ==> es'[Moved(i, from)] == es[from])
            && forall j :: Moved(i, from) < j < Moved(i, to) ==> es'[j].seqno > s
  {
  }

  // ---- the inner cursor ----

  /** A cursor over the merged internal entries, to which the writer may add; off either end it is simply not valid. */
  class InnerIter {
    var entries: seq<Entry>
    var pos: int

    constructor (entries: seq<Entry>)
      ensures this.entries == entries && pos == -1
    {
      this.entries := entries;
      this.pos := -1;
    }

    ghost predicate Placed()
      reads this
    {
      -1 <= pos < |entries|
    }

    predicate Valid()
      reads this
    {
      0 <= pos < |entries|
    }

    function Entry(): Entry
      requires Valid()
      reads this
    {
      entries[pos]
    }

    method First()
      modifies this
      ensures pos == if entries == [] then -1 else 0
      ensures entries == old(entries)
    {
      pos := if entries == [] then -1 else 0;
    }

    method Last()
      modifies this
      ensures pos == |entries| - 1
      ensures entries == old(entries)
    {
      pos := |entries| - 1;
    }

    method Next()
      requires Valid()
      modifies this
      ensures pos == if old(pos) + 1 < |entries| then old(pos) + 1 else -1
      ensures entries == old(entries)
    {
      pos := if pos + 1 < |entries| then pos + 1 else -1;
    }

    method Prev()
      requires Valid()
      modifies this
      ensures pos == old(pos) - 1
      ensures entries == old(entries)
    {
      pos := pos - 1;
    }

    /** The writer adds an entry; the cursor stays at its own. */
    method Arrive(e: Entry) returns (ghost i: nat)
      requires Sorted(entries) && Placed()
      requires forall f :: f in entries ==> InternalLess(f, e) || InternalLess(e, f)
      modifies this
      ensures i <= |old(entries)| && entries == InsertedAt(old(entries), i, e) && Sorted(entries)
      ensures pos == Moved(i, old(pos))
    {
      hide InternalLess;
      var n := 0;
      while n < |entries| && InternalLess(entries[n], e)
        invariant 0 <= n <= |entries|
        invariant forall j :: 0 <= j < n ==> InternalLess(entries[j], e)
      {
        n := n + 1;
      }
      forall j | n <= j < |entries| ensures InternalLess(e, entries[j]) {
        assert entries[n] in entries;
        if n < j {
          InternalLessTransitive(e, entries[n], entries[j]);
        }
      }
      StaysSorted(entries, n, e);
      i := n;
      pos := Moved(n, pos);
      entries := InsertedAt(entries, n, e);
    }

    /** Positions at the first entry that does not sort before the target. */
    method Seek(target: Entry)
      modifies this
      ensures Placed() && entries == old(entries)
      ensures forall i :: 0 <= i < (if pos == -1 then |entries| else pos) ==> InternalLess(entries[i], target)
      ensures pos >= 0 ==> !InternalLess(entries[pos], target)
    {
      pos := 0;
      while pos < |entries| && InternalLess(entries[pos], target)
        invariant 0 <= pos <= |entries| && entries == old(entries)
        invariant forall i :: 0 <= i < pos ==> InternalLess(entries[i], target)
      {
        pos := pos + 1;
      }
      if pos == |entries| {
        pos := -1;
      }
    }
  }

  datatype Direction = Forward | Reverse

  /** In reverse the inner cursor rests before the shown key, past entries no reader at s sees. */
  ghost predicate Shows(es: seq<Entry>, s: nat, at: int, direction: Direction, pos: int, key: Bytes, value: Bytes)
    requires -1 <= pos < |es|
  {
    && Visible(es, s, at)
    && (direction.Forward? ==> pos == at)
    && (direction.Reverse? ==>
          && key == es[at].key && value == es[at].value
          && pos < at
          && (pos >= 0 ==> Less(es[pos].key, es[at].key))
          && forall j :: pos < j < at ==> es[j].seqno > s)
  }

  lemma ShowsStill(es: seq<Entry>, s: nat, i: nat, e: Entry, at: int, direction: Direction, pos: int, key: Bytes,
                   value: Bytes)
    requires -1 <= pos < |es| && Shows(es, s, at, direction, pos, key, value) && i <= |es| && e.seqno > s
    ensures Moved(i, pos) <= |es| && Shows(InsertedAt(es, i, e), s, Moved(i, at), direction, Moved(i, pos), key, value)
    ensures Rank(InsertedAt(es, i, e), s, Moved(i, at)) == Rank(es, s, at)
  {
    hide Less;
    VisibleMoves(es, s, i, e, at);
    SameRank(es, s, i, e, at);
    hide Visible, InsertedAt;
    if direction.Reverse? {
      HiddenMove(es, s, i, e, pos, at);
    }
  }

  class DbIter {
    const iter: InnerIter
    const sequence: nat
    var savedKey: Bytes
    var savedValue: Bytes
    var direction: Direction
    var valid: bool
    ghost var at: int  // index of the entry being shown, when valid

    ghost predicate Valid()
      reads this, iter
    {
      && Sorted(iter.entries) && iter.Placed()
      && (valid ==> Shows(iter.entries, sequence, at, direction, iter.pos, savedKey, savedValue))
    }

    ghost function Pairs(): seq<(Bytes, Bytes)>
      reads iter
    {
      View(iter.entries, sequence, |iter.entries|)
    }

    ghost function Cursor(): Cursor
      requires Valid()
      reads this, iter
    {
      if valid then At(Rank(iter.entries, sequence, at)) else Off
    }

    /** What a caller sees. */
    ghost function Shown(): Option<(Bytes, Bytes)>
      requires Valid()
      reads this, iter
    {
      Read(Pairs(), Cursor())
    }

    lemma Landed(c: Cursor, op: Op)
      requires Valid() && Cursor() == Step(Pairs(), c, op) && (op.Next? || op.Prev? ==> Read(Pairs(), c).Some?)
      ensures Lands(Pairs(), op, KeyOf(Read(Pairs(), c)), Shown()) && (valid <==> Shown().Some?)
    {
      hide Visible, Sorted, Shows, Lands, Less, Step;
      Ascends();
      StepLands(Pairs(), c, op);
      IsShown();
    }

    lemma Ascends()
      requires Valid()
      ensures Ascend(Pairs()) && (Cursor().At? ==> Cursor().index < |Pairs()|)
    {
      ViewAscends(iter.entries, sequence, |iter.entries|);
      if valid {
        ViewHolds(iter.entries, sequence, at);
      }
    }

    lemma IsShown()
      requires Valid()
      ensures valid <==> Shown().Some?
    {
      Ascends();
    }

    constructor (iter: InnerIter, sequence: nat)
      requires Sorted(iter.entries) && iter.Placed()
      ensures this.iter == iter && this.sequence == sequence
      ensures Valid() && Cursor() == Off
    {
      this.iter := iter;
      this.sequence := sequence;
      savedKey, savedValue := [], [];
      direction := Forward;
      valid := false;
    }

    /** Key() and Value(): the pair the abstract cursor rests on. */
    method Current() returns (key: Bytes, value: Bytes)
      requires Valid() && valid
      ensures Read(Pairs(), Cursor()) == Some((key, value))
    {
      ViewHolds(iter.entries, sequence, at);
      if direction.Forward? {
        key, value := iter.Entry().key, iter.Entry().value;
      } else {
        key, value := savedKey, savedValue;
      }
    }

    /** find_next_user_entry: the key to skip is always held in savedKey. */
    method FindNextUserEntry(skipping: bool)
      requires Sorted(iter.entries) && iter.Valid() && direction.Forward?
      requires Hides(iter.entries, sequence, iter.pos, skipping, savedKey)
      modifies this, iter
      ensures Valid() && direction.Forward? && iter.entries == old(iter.entries)
      ensures valid ==> Target(iter.entries, sequence, old(iter.pos), skipping, old(savedKey), at)
      ensures forall i :: 0 <= i < (if valid then at else |iter.entries|)
                ==> !Target(iter.entries, sequence, old(iter.pos), skipping, old(savedKey), i)
    {
      hide Sorted, InternalLess, Less, Compare;
      var skip := skipping;
      ghost var p0, key0 := iter.pos, savedKey;
      ghost var es := iter.entries;
      while true
        invariant 0 <= iter.pos < |es| && direction == Forward && iter.entries == es
        invariant Scanned(es, sequence, p0, skipping, key0, iter.pos, skip, savedKey)
        decreases |es| - iter.pos
      {
        ghost var p := iter.pos;
        var e := iter.Entry();
        if e.seqno <= sequence {
          if e.kind.Deletion? {
            ScanDeletion(es, sequence, p0, skipping, key0, p, skip, savedKey);
            savedKey := e.key;
            skip := true;
          } else if skip && AtMost(e.key, savedKey) {
            ScanHidden(es, sequence, p0, skipping, key0, p, skip, savedKey);
          } else {
            ScanFound(es, sequence, p0, skipping, key0, p, skip, savedKey);
            valid := true;
            at := p;
            savedKey := [];
            return;
          }
        } else {
          ScanNewer(es, sequence, p0, skipping, key0, p, skip, savedKey);
        }
        iter.Next();
        if !iter.Valid() {
          break;
        }
      }
      savedKey := [];
      valid := false;
    }

    /** find_prev_user_entry. */
    method FindPrevUserEntry()
      requires Sorted(iter.entries) && iter.Placed() && direction.Reverse?
      modifies this, iter
      ensures Valid() && iter.entries == old(iter.entries)
      ensures valid ==> direction.Reverse? && at <= old(iter.pos)
      ensures !valid ==> direction.Forward?
      ensures forall i :: (if valid then at else -1) < i <= old(iter.pos) ==> !Visible(iter.entries, sequence, i)
    {
      hide Sorted, InternalLess, Less, Compare;
      var kind := Deletion;
      ghost var es, p0 := iter.entries, iter.pos;
      ghost var c := p0 + 1;
      if iter.Valid() {
        while true
          invariant 0 <= iter.pos < |es| && direction == Reverse && iter.entries == es
          invariant ScannedBack(es, sequence, p0, iter.pos, c, kind, savedKey, savedValue)
          decreases iter.pos
        {
          var e := iter.Entry();
          ghost var p, k, v := iter.pos, savedKey, savedValue;
          if e.seqno <= sequence {
            if kind != Deletion && Less(e.key, savedKey) {
              break;
            }
            ghost var before := kind;
            kind := e.kind;
            if kind == Deletion {
              savedKey, savedValue := [], [];
            } else {
              savedKey, savedValue := e.key, e.value;
            }
            BackTake(es, sequence, p0, p, c, before, k, v, savedKey, savedValue);
            c := p;
          } else {
            BackSkip(es, sequence, p0, p, c, kind, k, v);
          }
          iter.Prev();
          if !iter.Valid() {
            break;
          }
        }
      }
      if kind == Deletion {
        valid := false;
        savedKey, savedValue := [], [];
        direction := Forward;
      } else {
        BackFound(es, sequence, p0, iter.pos, c, kind, savedKey, savedValue);
        valid := true;
        at := c;
      }
    }

    lemma RestsAfter(from: int)
      requires Valid() && -1 <= from < |iter.entries| && (from >= 0 ==> Visible(iter.entries, sequence, from))
      requires valid ==> from < at
      requires forall i :: from < i < (if valid then at else |iter.entries|) ==> !Visible(iter.entries, sequence, i)
      ensures from == -1 ==> Cursor() == Step(Pairs(), Off, Op.First)
      ensures from >= 0 ==> Cursor() == Step(Pairs(), At(Rank(iter.entries, sequence, from)), Op.Next)
    {
      RankStep(iter.entries, sequence, from, if valid then at else |iter.entries|);
      if valid {
        ViewHolds(iter.entries, sequence, at);
      }
    }

    lemma RestsBefore(from: int)
      requires Valid() && 0 <= from <= |iter.entries|
      requires from < |iter.entries| ==> Visible(iter.entries, sequence, from)
      requires valid ==> at < from
      requires forall i :: (if valid then at else -1) < i < from ==> !Visible(iter.entries, sequence, i)
      ensures from == |iter.entries| ==> Cursor() == Step(Pairs(), Off, Op.Last)
      ensures from < |iter.entries| ==> Cursor() == Step(Pairs(), At(Rank(iter.entries, sequence, from)), Op.Prev)
    {
      RankStep(iter.entries, sequence, if valid then at else -1, from);
      if from < |iter.entries| {
        ViewHolds(iter.entries, sequence, from);
      }
    }

    /** ldb_dbiter_first. */
    method First()
      requires Valid()
      modifies this, iter
      ensures Valid() && iter.entries == old(iter.entries) && Cursor() == Step(Pairs(), old(Cursor()), Op.First)
      ensures Lands(Pairs(), Op.First, KeyOf(old(Shown())), Shown()) && (valid <==> Shown().Some?)
    {
      ghost var c := Cursor();
      direction := Forward;
      savedValue := [];
      iter.First();
      if iter.Valid() {
        assert forall i :: Visible(iter.entries, sequence, i) ==> Target(iter.entries, sequence, 0, false, savedKey, i);
        FindNextUserEntry(false);
      } else {
        valid := false;
      }
      RestsAfter(-1);
      Landed(c, Op.First);
    }

    /** ldb_dbiter_last. */
    method Last()
      requires Valid()
      modifies this, iter
      ensures Valid() && iter.entries == old(iter.entries) && Cursor() == Step(Pairs(), old(Cursor()), Op.Last)
      ensures Lands(Pairs(), Op.Last, KeyOf(old(Shown())), Shown()) && (valid <==> Shown().Some?)
    {
      ghost var c := Cursor();
      direction := Reverse;
      savedValue := [];
      iter.Last();
      FindPrevUserEntry();
      RestsBefore(|iter.entries|);
      Landed(c, Op.Last);
    }

    /** ldb_dbiter_next. */
    method Next()
      requires Valid() && valid
      modifies this, iter
      ensures Valid() && iter.entries == old(iter.entries) && Cursor() == Step(Pairs(), old(Cursor()), Op.Next)
      ensures Lands(Pairs(), Op.Next, KeyOf(old(Shown())), Shown()) && (valid <==> Shown().Some?)
    {
      ghost var c, from := Cursor(), at;
      IsShown();
      if direction.Reverse? {
        direction := Forward;
        if !iter.Valid() {
          iter.First();
        } else {
          iter.Next();
        }
      } else {
        savedKey := iter.Entry().key;
        iter.Next();
      }
      if !iter.Valid() {
        valid := false;
        savedKey := [];
      } else {
        ghost var p := iter.pos;
        SkipsCurrent(iter.entries, sequence, from, p);
        forall i | 0 <= i < |iter.entries|
          ensures Target(iter.entries, sequence, p, true, savedKey, i) <==> from < i && Visible(iter.entries, sequence, i)
        {
          TargetsAfter(iter.entries, sequence, from, p, i);
        }
        FindNextUserEntry(true);
      }
      RestsAfter(from);
      Landed(c, Op.Next);
    }

    /** ldb_dbiter_prev. */
    method Prev()
      requires Valid() && valid
      modifies this, iter
      ensures Valid() && iter.entries == old(iter.entries) && Cursor() == Step(Pairs(), old(Cursor()), Op.Prev)
      ensures Lands(Pairs(), Op.Prev, KeyOf(old(Shown())), Shown()) && (valid <==> Shown().Some?)
    {
      ghost var c, from := Cursor(), at;
      IsShown();
      if direction.Forward? {
        savedKey := iter.Entry().key;
        while true
          invariant Sorted(iter.entries) && 0 <= iter.pos <= from && valid && direction.Forward?
          invariant iter.entries == old(iter.entries)
          invariant savedKey == iter.entries[from].key
          invariant forall i :: iter.pos <= i <= from ==> iter.entries[i].key == savedKey
          decreases iter.pos
        {
          iter.Prev();
          if !iter.Valid() {
            valid := false;
            savedKey, savedValue := [], [];
            RestsBefore(from);
            Landed(c, Op.Prev);
            return;
          }
          KeysAscend(iter.entries, iter.pos, from);
          if Less(iter.Entry().key, savedKey) {
            break;
          }
        }
        direction := Reverse;
      }
      FindPrevUserEntry();
      RestsBefore(from);
      Landed(c, Op.Prev);
    }

    /** ldb_dbiter_seek. */
    method Seek(target: Bytes)
      requires Valid()
      modifies this, iter
      ensures Valid() && iter.entries == old(iter.entries) && Cursor() == Step(Pairs(), old(Cursor()), Op.Seek(target))
      ensures Lands(Pairs(), Op.Seek(target), KeyOf(old(Shown())), Shown()) && (valid <==> Shown().Some?)
    {
      ghost var c := Cursor();
      direction := Forward;
      savedValue := [];
      savedKey := Format.ExportKey(target, sequence, Value);
      iter.Seek(Probe(target, sequence));
      ghost var p := if iter.Valid() then iter.pos else |iter.entries|;
      if iter.Valid() {
        SeekHides(iter.entries, sequence, target, p);
        assert forall i :: p <= i && Visible(iter.entries, sequence, i)
                  ==> Target(iter.entries, sequence, p, false, savedKey, i);
        FindNextUserEntry(false);
      } else {
        valid := false;
      }
      SeekLands(iter.entries, sequence, target, p, if valid then at else |iter.entries|);
      if valid {
        ViewHolds(iter.entries, sequence, at);
      }
      Landed(c, Op.Seek(target));
    }

    /** An entry that the iterator may not see changes nothing about what it shows. */
    method Arrive(e: Entry, ghost newest: nat)
      requires Valid() && UpTo(iter.entries, newest) && sequence <= newest < e.seqno
      modifies this, iter
      ensures Valid() && Pairs() == old(Pairs()) && Cursor() == old(Cursor()) && UpTo(iter.entries, e.seqno)
    {
      hide InternalLess, Visible, Sorted, InsertedAt, Less, Shows, View, UpTo;
      ghost var es, p := iter.entries, iter.pos;
      Comparable(es, e, newest);
      ghost var i := iter.Arrive(e);
      Arrived(es, sequence, i, e, newest);
      if valid {
        ShowsStill(es, sequence, i, e, at, direction, p, savedKey, savedValue);
        at := Moved(i, at);
      }
    }

    /** One operation, then a look at what is shown. */
    method Do(op: Op) returns (shown: Option<(Bytes, Bytes)>)
      requires Valid() && (op.Next? || op.Prev? ==> valid)
      modifies this, iter
      ensures Valid() && iter.entries == old(iter.entries) && Cursor() == Step(Pairs(), old(Cursor()), op)
      ensures Lands(Pairs(), op, KeyOf(old(Shown())), shown)
      ensures shown == Read(Pairs(), Cursor())
    {
      match op {
        case First => First();
        case Last => Last();
        case Seek(t) => Seek(t);
        case Next => Next();
        case Prev => Prev();
      }
      if valid {
        var key, value := Current();
        shown := Some((key, value));
      } else {
        shown := None;
      }
    }
  }

  /** next and prev are called only when the cursor is valid. */
  ghost predicate Callable(v: seq<(Bytes, Bytes)>, c: Cursor, ops: seq<Op>)
    decreases |ops|
  {
    ops != [] ==> (ops[0].Next? || ops[0].Prev? ==> c.At?) && Callable(v, Step(v, c, ops[0]), ops[1..])
  }

  lemma TraceStep(v: seq<(Bytes, Bytes)>, c: Cursor, op: Op, ops: seq<Op>)
    requires Callable(v, c, [op] + ops)
    ensures op.Next? || op.Prev? ==> c.At?
    ensures Callable(v, Step(v, c, op), ops)
    ensures Trace(v, c, [op] + ops) == [Read(v, Step(v, c, op))] + Trace(v, Step(v, c, op), ops)
  {
    assert ([op] + ops)[1..] == ops;
  }

  /** What happens to an open iterator: an operation is called, or the writer adds an entry. */
  datatype Event = Call(op: Op) | Arrival(e: Entry)

  function Calls(events: seq<Event>): seq<Op> {
    if events == [] then []
    else if events[0].Call? then [events[0].op] + Calls(events[1..])
    else Calls(events[1..])
  }

  /** New entries have ever larger sequence numbers. */
  predicate Later(events: seq<Event>, newest: nat)
    decreases |events|
  {
    events != [] ==>
      if events[0].Call? then Later(events[1..], newest)
      else newest < events[0].e.seqno && Later(events[1..], events[0].e.seqno)
  }

  lemma EventStep(events: seq<Event>, n: nat, newest: nat)
    requires n < |events| && Later(events[n..], newest)
    ensures events[n].Call? ==>
              Calls(events[n..]) == [events[n].op] + Calls(events[n + 1..]) && Later(events[n + 1..], newest)
    ensures events[n].Arrival? ==>
              && Calls(events[n..]) == Calls(events[n + 1..])
              && newest < events[n].e.seqno && Later(events[n + 1..], events[n].e.seqno)
  {
    assert events[n..][1..] == events[n + 1..];
  }

  lemma TraceEnds(v: seq<(Bytes, Bytes)>, c: Cursor, events: seq<Event>)
    ensures Trace(v, c, Calls(events[|events|..])) == []
  {
  }

  /** Each reading is the one its operation is for, from the one before. */
  ghost predicate EachLands(v: seq<(Bytes, Bytes)>, from: Option<(Bytes, Bytes)>, ops: seq<Op>,
                            trace: seq<Option<(Bytes, Bytes)>>)
    decreases |ops|
  {
    && |trace| == |ops|
    && (ops != [] ==> Lands(v, ops[0], KeyOf(from), trace[0]) && EachLands(v, trace[0], ops[1..], trace[1..]))
  }

  lemma {:induction false} TraceLands(v: seq<(Bytes, Bytes)>, c: Cursor, ops: seq<Op>)
    requires Ascend(v) && Callable(v, c, ops) && (c.At? ==> c.index < |v|)
    ensures EachLands(v, Read(v, c), ops, Trace(v, c, ops))
    decreases |ops|
  {
    hide Lands, Less, LowerIndex;
    if ops != [] {
      var d := Step(v, c, ops[0]);
      StepLands(v, c, ops[0]);
      TraceLands(v, d, ops[1..]);
      assert Trace(v, c, ops)[1..] == Trace(v, d, ops[1..]);
    }
  }

  /** Any interleaving of the operations, and of the writer adding entries, shows what the abstract cursor shows. */
  method Drive(it: DbIter, events: seq<Event>, ghost last: nat) returns (trace: seq<Option<(Bytes, Bytes)>>)
    requires it.Valid() && it.sequence <= last && UpTo(it.iter.entries, last)
    requires Callable(it.Pairs(), it.Cursor(), Calls(events)) && Later(events, last)
    modifies it, it.iter
    ensures it.Valid()
    ensures trace == Trace(old(it.Pairs()), old(it.Cursor()), Calls(events))
    ensures EachLands(old(it.Pairs()), old(it.Shown()), Calls(events), trace)
  {
    hide UpTo, View, Visible, Sorted, Shows, Less, Step, Trace, Callable, Calls, Later, LowerIndex, InternalLess;
    hide EachLands, Lands;
    it.Ascends();
    TraceLands(it.Pairs(), it.Cursor(), Calls(events));
    hide Read;
    trace := [];
    ghost var c0, v, newest := it.Cursor(), it.Pairs(), last;
    assert events[0..] == events;
    for n := 0 to |events|
      invariant it.Valid() && it.Pairs() == v
      invariant it.sequence <= newest && Later(events[n..], newest) && UpTo(it.iter.entries, newest)
      invariant Callable(v, it.Cursor(), Calls(events[n..]))
      invariant Trace(v, c0, Calls(events)) == trace + Trace(v, it.Cursor(), Calls(events[n..]))
    {
      EventStep(events, n, newest);
      match events[n] {
        case Call(op) =>
          TraceStep(v, it.Cursor(), op, Calls(events[n + 1..]));
          var shown := it.Do(op);
          trace := trace + [shown];
        case Arrival(e) =>
          it.Arrive(e, newest);
          newest := e.seqno;
      }
    }
    TraceEnds(v, it.Cursor(), events);
  }
}
