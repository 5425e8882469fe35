/**
 * A memtable get that runs while the writer inserts: the skiplist's search, seen as a search among entries
 * (memtable.c, skiplist.c). It is why a lookup in a memtable may be taken as one step.
 */
module LiveGet {
  import opened Bytes
  import opened Mvcc
  import opened Memtable
  import SkipList

  type Entries = set<Entry>

  /** Which entry the node of each skiplist key holds: the keys follow the internal order. */
  ghost predicate Places(at: map<int, Entry>) {
    forall a, b :: a in at && b in at ==> (a < b <==> InternalLess(at[a], at[b]))
  }

  /** The key k stands for the lookup key of (key, s) among them. */
  ghost predicate StandsFor(at: map<int, Entry>, k: int, key: Bytes, s: nat) {
    forall a :: a in at ==> (a < k <==> InternalLess(at[a], Probe(key, s)))
  }

  ghost function Held(at: map<int, Entry>, keys: set<int>): Entries {
    set k | k in keys && k in at :: at[k]
  }

  /** ldb_memtable_get's look at the node its seek found. */
  function LookAt(at: map<int, Entry>, n: SkipList.Ptr, key: Bytes): Lookup {
    if !n.Node? || n.key !in at || at[n.key].key != key then Missing
    else if at[n.key].kind.Value? then Found(at[n.key].value)
    else Deleted
  }

  /** The lookup is right for these entries. */
  ghost predicate RightFor(r: Lookup, es: Entries, key: Bytes, s: nat) {
    && (r.Missing? <==> forall e :: !Seen(es, key, s, e))
    && (r.Found? ==> Answer(es, key, s) == Some(r.value))
    && (r.Deleted? ==> Answer(es, key, s) == None)
  }

  lemma FirstIsNewest(at: map<int, Entry>, keys: set<int>, k: int, key: Bytes, s: nat, n: SkipList.Ptr)
    requires Places(at) && StandsFor(at, k, key, s) && keys <= at.Keys && Distinct(Held(at, keys))
    requires SkipList.FirstFrom(keys, k, n)
    ensures RightFor(LookAt(at, n, key), Held(at, keys), key, s)
  {
    hide Answer, InternalLess;
    var es := Held(at, keys);
    forall e | Seen(es, key, s, e) ensures n.Node? && InOrder(at[n.key], e) {
      var j :| j in keys && j in at && at[j] == e;
      ProbeSplits(key, s, e);
      assert n.Node? && n.key <= j;
      assert n.key < j ==> InternalLess(at[n.key], at[j]);
    }
    if n.Node? {
      var f := at[n.key];
      assert f in es;
      ProbeSplits(key, s, f);
      assert !(n.key < k);
      LessIsTotal(key, key);
      if f.key == key {
        assert Seen(es, key, s, f);
        forall e | Seen(es, key, s, e) ensures e.seqno <= f.seqno {
          SameKeyOrder(f, e);
        }
        AnswerIs(es, key, s, f);
      } else {
        forall e ensures !Seen(es, key, s, e) {
          NotBetween(f, e, key);
        }
      }
    }
  }

  predicate InOrder(a: Entry, b: Entry) {
    a == b || InternalLess(a, b)
  }

  lemma SameKeyOrder(a: Entry, b: Entry)
    requires InOrder(a, b) && a.key == b.key
    ensures b.seqno <= a.seqno
  {
    LessIsTotal(a.key, b.key);
  }

  /** Nothing sorts after a larger key and carries a smaller one. */
  lemma NotBetween(f: Entry, e: Entry, key: Bytes)
    ensures InOrder(f, e) && Less(key, f.key) ==> e.key != key
  {
    LessIsTotal(key, f.key);
  }

  /**
   * A get whose search runs while the writer links nodes, from any height and over any run of pointer stores and loads,
   * is right for the entries that were in the memtable at one moment between its start and its end.
   */
  lemma GetIsAtomic(st: SkipList.State, steps: seq<SkipList.Step>, end: SkipList.State, id: nat,
                    at: map<int, Entry>, k: int, key: Bytes, s: nat) returns (bottom: set<int>)
    requires SkipList.Inv(st) && SkipList.Runs(st, steps, end) && id in st.readers && id in end.readers
    requires st.readers[id].Search? && st.readers[id].query == SkipList.AtOrAfter(k) && end.readers[id].Found?
    requires SkipList.EndSearch(id) !in steps
    requires Places(at) && StandsFor(at, k, key, s) && |end.levels| == SkipList.MAX_HEIGHT && end.levels[0] <= at.Keys
    requires Distinct(Held(at, at.Keys))
    ensures |st.levels| == SkipList.MAX_HEIGHT && st.levels[0] <= bottom <= end.levels[0]
    ensures RightFor(LookAt(at, end.readers[id].result, key), Held(at, bottom), key, s)
  {
    hide SkipList.Inv, SkipList.Runs, RightFor, Places, StandsFor, SkipList.FirstFrom, Distinct;
    bottom := SkipList.SearchIsAtomic(st, steps, end, id);
    HeldWithin(at, bottom);
    FirstIsNewest(at, bottom, k, key, s, end.readers[id].result);
  }

  lemma HeldWithin(at: map<int, Entry>, keys: set<int>)
    requires Distinct(Held(at, at.Keys))
    ensures Distinct(Held(at, keys))
  {
    forall e | e in Held(at, keys) ensures e in Held(at, at.Keys) {
    }
  }

  /**
   * When everything inserted meanwhile is newer than the reader's sequence, as a write group in progress is, the get
   * is right for the entries that were there when it began.
   */
  lemma GetIsSettled(st: SkipList.State, steps: seq<SkipList.Step>, end: SkipList.State, id: nat,
                     at: map<int, Entry>, k: int, key: Bytes, s: nat)
    requires SkipList.Inv(st) && SkipList.Runs(st, steps, end) && id in st.readers && id in end.readers
    requires st.readers[id].Search? && st.readers[id].query == SkipList.AtOrAfter(k) && end.readers[id].Found?
    requires SkipList.EndSearch(id) !in steps
    requires Places(at) && StandsFor(at, k, key, s) && |end.levels| == SkipList.MAX_HEIGHT && end.levels[0] <= at.Keys
    requires Distinct(Held(at, at.Keys)) && |st.levels| == SkipList.MAX_HEIGHT
    requires forall j :: j in end.levels[0] && j !in st.levels[0] ==> at[j].seqno > s
    ensures RightFor(LookAt(at, end.readers[id].result, key), Held(at, st.levels[0]), key, s)
  {
    hide SkipList.Inv, SkipList.Runs, RightFor, Places, StandsFor, Distinct;
    var bottom := GetIsAtomic(st, steps, end, id, at, k, key, s);
    HeldWithin(at, bottom);
    HeldWithin(at, st.levels[0]);
    LaterAddNothing(at, st.levels[0], bottom, s);
    SameRight(LookAt(at, end.readers[id].result, key), Held(at, bottom), Held(at, st.levels[0]), key, s);
  }

  lemma LaterAddNothing(at: map<int, Entry>, before: set<int>, keys: set<int>, s: nat)
    requires before <= keys && forall j :: j in keys && j in at && j !in before ==> at[j].seqno > s
    ensures forall key, e :: Seen(Held(at, keys), key, s, e) <==> Seen(Held(at, before), key, s, e)
  {
  }

  lemma SameRight(r: Lookup, a: Entries, b: Entries, key: Bytes, s: nat)
    requires RightFor(r, a, key, s) && Distinct(a) && Distinct(b)
    requires forall e :: Seen(a, key, s, e) <==> Seen(b, key, s, e)
    ensures RightFor(r, b, key, s)
  {
    hide Answer;
    AnswerIgnoresLater(a, b, key, s);
  }

  /** The entries in order, with the place n left free. */
  function Around(es: seq<Entry>, n: nat, i: int): Entry
    requires 0 <= i <= |es| && i != n <= |es|
  {
    es[if i < n then i else i - 1]
  }

  /** Skiplist keys that follow the order exist for any entries and any lookup. */
  lemma PlacesExist(es: seq<Entry>, key: Bytes, s: nat) returns (at: map<int, Entry>, k: int)
    requires Sorted(es)
    ensures Places(at) && StandsFor(at, k, key, s) && Held(at, at.Keys) == Elements(es)
  {
    hide InternalLess;
    var n := FirstNotBefore(es, Probe(key, s));
    k := n;
    at := map i: int | 0 <= i <= |es| && i != n :: Around(es, n, i);
    forall a, b | a in at && b in at ensures a < b <==> InternalLess(at[a], at[b]) {
      InternalLessTotal(at[a], at[b]);
    }
    forall e | e in es ensures e in Held(at, at.Keys) {
      var i :| 0 <= i < |es| && es[i] == e;
      var j := if i < n then i else i + 1;
      assert j in at && at[j] == e;
    }
  }

  /** Where a lookup splits a sorted sequence. */
  lemma FirstNotBefore(es: seq<Entry>, probe: Entry) returns (n: nat)
    requires Sorted(es)
    ensures n <= |es|
    ensures forall i :: 0 <= i < |es| ==> (i < n <==> InternalLess(es[i], probe))
  {
    hide InternalLess;
    n := 0;
    while n < |es| && InternalLess(es[n], probe)
      invariant n <= |es| && forall i :: 0 <= i < n ==> InternalLess(es[i], probe)
    {
      n := n + 1;
    }
    forall i | n <= i < |es| ensures !InternalLess(es[i], probe) {
      if n < i && InternalLess(es[i], probe) {
        InternalLessTransitive(es[n], es[i], probe);
      }
    }
  }
}
