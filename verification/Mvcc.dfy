/** The multi-version key space: entries, what a snapshot sees of a set of entries, and replay of a write log. */
module Mvcc {
  import opened Bytes

  datatype Kind = Deletion | Value

  /** One version of one user key. */
  datatype Entry = Entry(key: Bytes, seqno: nat, kind: Kind, value: Bytes)

  /** (sequence << 8) | type */
  function Tag(seqno: nat, kind: Kind): nat {
    seqno * 256 + if kind.Value? then 1 else 0
  }

  /** The internal order: user keys ascending, then tags descending. */
  predicate InternalLess(a: Entry, b: Entry) {
    Less(a.key, b.key) || (a.key == b.key && Tag(a.seqno, a.kind) > Tag(b.seqno, b.kind))
  }

  ghost predicate Sorted(es: seq<Entry>) {
    forall i, j :: 0 <= i < j < |es| ==> InternalLess(es[i], es[j])
  }

  lemma InternalLessTotal(a: Entry, b: Entry)
    ensures InternalLess(a, b) || InternalLess(b, a) || (a.key == b.key && a.seqno == b.seqno && a.kind == b.kind)
    ensures !(InternalLess(a, b) && InternalLess(b, a))
  {
    LessIsTotal(a.key, b.key);
  }

  lemma InternalLessTransitive(a: Entry, b: Entry, c: Entry)
    requires InternalLess(a, b) && InternalLess(b, c)
    ensures InternalLess(a, c)
  {
    LessIsTotal(a.key, b.key);
    LessIsTotal(b.key, c.key);
    LessTransitive(a.key, b.key, c.key);
  }

  /** What a seek for (k, s) is positioned at: the newest possible tag for sequence s. */
  function Probe(k: Bytes, s: nat): Entry {
    Entry(k, s, Value, [])
  }

  /** A probe sorts after exactly the smaller keys and the versions of k newer than s. */
  lemma ProbeSplits(k: Bytes, s: nat, e: Entry)
    ensures !InternalLess(e, Probe(k, s)) <==> Less(k, e.key) || (e.key == k && e.seqno <= s)
  {
    LessIsTotal(k, e.key);
  }

  // ---- what a snapshot sees ----

  /** Two entries of one key never carry the same sequence number. */
  ghost predicate Distinct(es: set<Entry>) {
    forall e, f :: e in es && f in es && e.key == f.key && e.seqno == f.seqno ==> e == f
  }

  ghost predicate Seen(es: set<Entry>, k: Bytes, s: nat, e: Entry) {
    e in es && e.key == k && e.seqno <= s
  }

  /** e is the newest entry for k that a reader at sequence s may see. */
  ghost predicate Newest(es: set<Entry>, k: Bytes, s: nat, e: Entry) {
    Seen(es, k, s, e) && forall f :: Seen(es, k, s, f) ==> f.seqno <= e.seqno
  }

  /** The value a reader at sequence s gets for k, None for a missing or deleted key. */
  ghost function Answer(es: set<Entry>, k: Bytes, s: nat): Option<Bytes> {
    if exists e :: Newest(es, k, s, e) && e.kind.Value? then
      var e :| Newest(es, k, s, e) && e.kind.Value?;
      Some(e.value)
    else
      None
  }

  function Reading(e: Entry): Option<Bytes> {
    if e.kind.Value? then Some(e.value) else None
  }

  lemma AnswerIs(es: set<Entry>, k: Bytes, s: nat, e: Entry)
    requires Distinct(es) && Newest(es, k, s, e)
    ensures Answer(es, k, s) == Reading(e)
  {
    forall f | Newest(es, k, s, f) ensures f == e {
      assert Seen(es, k, s, f) && Seen(es, k, s, e);
    }
  }

  lemma AnswerNothing(es: set<Entry>, k: Bytes, s: nat)
    requires forall e :: !Seen(es, k, s, e)
    ensures Answer(es, k, s) == None
  {
  }

  lemma {:induction false} NewestExists(es: set<Entry>, k: Bytes, s: nat, e: Entry) returns (n: Entry)
    requires Seen(es, k, s, e)
    ensures Newest(es, k, s, n)
    decreases es
  {
    if f :| Seen(es, k, s, f) && f.seqno > e.seqno {
      n := NewestExists(es - {e}, k, s, f);
      assert Seen(es - {e}, k, s, f);
      forall g | Seen(es, k, s, g) ensures g.seqno <= n.seqno {
        if g != e {
          assert Seen(es - {e}, k, s, g);
        }
      }
    } else {
      n := e;
    }
  }

  /** Two sets with the same newest entry for k at s answer alike. */
  lemma AnswerAgrees(a: set<Entry>, b: set<Entry>, k: Bytes, s: nat)
    requires Distinct(a) && Distinct(b)
    requires forall e :: Newest(a, k, s, e) ==> Newest(b, k, s, e) || (e.kind.Deletion? && forall f :: !Seen(b, k, s, f))
    requires (forall f :: !Seen(a, k, s, f)) ==> forall f :: !Seen(b, k, s, f)
    ensures Answer(a, k, s) == Answer(b, k, s)
  {
    if e :| Seen(a, k, s, e) {
      var n := NewestExists(a, k, s, e);
      AnswerIs(a, k, s, n);
      if Newest(b, k, s, n) {
        AnswerIs(b, k, s, n);
      } else {
        AnswerNothing(b, k, s);
      }
    } else {
      AnswerNothing(a, k, s);
      AnswerNothing(b, k, s);
    }
  }

  /** Entries a reader at s cannot see do not change its answer. */
  lemma AnswerIgnoresLater(a: set<Entry>, b: set<Entry>, k: Bytes, s: nat)
    requires Distinct(a) && Distinct(b)
    requires forall e :: Seen(a, k, s, e) <==> Seen(b, k, s, e)
    ensures Answer(a, k, s) == Answer(b, k, s)
  {
    forall e | Newest(a, k, s, e) ensures Newest(b, k, s, e) {
    }
    AnswerAgrees(a, b, k, s);
  }

  /** Every sequence number in `older` is below every one in `newer`. */
  ghost predicate Above(newer: set<Entry>, older: set<Entry>) {
    forall e, f :: e in newer && f in older ==> f.seqno < e.seqno
  }

  /** Per key, what `older` holds is older than everything in `newer`, or a copy of something in it. */
  ghost predicate Covers(newer: set<Entry>, older: set<Entry>) {
    forall e, f :: e in newer && f in older && e.key == f.key ==> f.seqno < e.seqno || f in newer
  }

  /** Looking in the newer layer first and falling through only when it holds nothing for the key is exact. */
  lemma LayeredLookup(newer: set<Entry>, older: set<Entry>, k: Bytes, s: nat)
    requires Distinct(newer + older) && Covers(newer, older)
    ensures (exists e :: Seen(newer, k, s, e)) ==> Answer(newer + older, k, s) == Answer(newer, k, s)
    ensures (forall e :: !Seen(newer, k, s, e)) ==> Answer(newer + older, k, s) == Answer(older, k, s)
  {
    var both := newer + older;
    if e :| Seen(newer, k, s, e) {
      var n := NewestExists(newer, k, s, e);
      forall f | Seen(both, k, s, f) ensures f.seqno <= n.seqno {
        if f in newer {
          assert Seen(newer, k, s, f);
        }
      }
      AnswerIs(newer, k, s, n);
      AnswerIs(both, k, s, n);
    } else {
      forall f ensures Seen(both, k, s, f) <==> Seen(older, k, s, f) {
        assert !Seen(newer, k, s, f);
      }
      AnswerIgnoresLater(both, older, k, s);
    }
  }

  // ---- replay ----

  function Elements(log: seq<Entry>): set<Entry> {
    set e | e in log
  }

  ghost predicate Increasing(log: seq<Entry>) {
    forall i, j :: 0 <= i < j < |log| ==> log[i].seqno < log[j].seqno
  }

  /** The map obtained by applying, in order, the operations numbered at most s. */
  function Replay(log: seq<Entry>, s: nat): map<Bytes, Bytes> {
    if log == [] then map[]
    else
      var e := log[|log| - 1];
      var m := Replay(log[..|log| - 1], s);
      if e.seqno > s then m
      else if e.kind.Value? then m[e.key := e.value]
      else m - {e.key}
  }

  function Find(m: map<Bytes, Bytes>, k: Bytes): Option<Bytes> {
    if k in m then Some(m[k]) else None
  }

  lemma IncreasingIsDistinct(log: seq<Entry>)
    requires Increasing(log)
    ensures Distinct(Elements(log))
  {
  }

  /** Adding one entry newer than all others changes the answer for its own key only. */
  lemma AnswerAppend(before: set<Entry>, e: Entry, k: Bytes, s: nat)
    requires Distinct(before) && Above({e}, before)
    ensures Distinct(before + {e})
    ensures Answer(before + {e}, k, s) == if e.seqno <= s && e.key == k then Reading(e) else Answer(before, k, s)
  {
    assert before + {e} == {e} + before;
    LayeredLookup({e}, before, k, s);
    if e.seqno <= s && e.key == k {
      assert Seen({e}, k, s, e);
      AnswerIs({e}, k, s, e);
    }
  }

  lemma LastElement(log: seq<Entry>)
    requires log != [] && Increasing(log)
    ensures Elements(log) == Elements(log[..|log| - 1]) + {log[|log| - 1]}
    ensures Increasing(log[..|log| - 1])
    ensures Above({log[|log| - 1]}, Elements(log[..|log| - 1]))
  {
    var front := log[..|log| - 1];
    assert log == front + [log[|log| - 1]];
    forall e | e in log ensures e in front || e == log[|log| - 1] {
    }
  }

  /** Reading at s is replaying the first operations up to s. */
  lemma {:induction false} ReplayIsAnswer(log: seq<Entry>, k: Bytes, s: nat)
    requires Increasing(log)
    ensures Find(Replay(log, s), k) == Answer(Elements(log), k, s)
  {
    if log == [] {
      AnswerNothing(Elements(log), k, s);
    } else {
      var e := log[|log| - 1];
      var front := log[..|log| - 1];
      LastElement(log);
      IncreasingIsDistinct(front);
      ReplayIsAnswer(front, k, s);
      AnswerAppend(Elements(front), e, k, s);
      ReplayStep(front, e, k, s);
      assert log == front + [e];
    }
  }

  lemma ReplayStep(front: seq<Entry>, e: Entry, k: Bytes, s: nat)
    ensures Find(Replay(front + [e], s), k)
         == if e.seqno <= s && e.key == k then Reading(e) else Find(Replay(front, s), k)
  {
    assert (front + [e])[..|front|] == front;
  }
}
