/** The memtable: encoded entries kept in internal-key order, searched with a lookup key (memtable.c). */
module Memtable {
  import opened Bytes
  import opened Coding
  import opened Mvcc
  import opened Format

  /** An entry small enough for its 32-bit lengths and 56-bit sequence. */
  predicate Storable(e: Entry) {
    e.seqno <= MAX_SEQUENCE && |e.key| + 8 < UINT32 && |e.value| < UINT32
  }

  /** A length-prefixed internal key, then a length-prefixed value. */
  function EntryBytes(e: Entry): Bytes {
    Slice(KeyOf(e)) + Slice(e.value)
  }

  /** ldb_slice_decode on a memtable key. */
  function InternalKey(x: Bytes): Bytes {
    match SliceSlurp(x)
    case None => []
    case Some((key, _)) => key
  }

  /** What follows the internal key. */
  function ValueOf(x: Bytes): Bytes {
    match SliceSlurp(x)
    case None => []
    case Some((_, rest)) => InternalKey(rest)
  }

  /** The order of the skiplist: decoded internal keys. */
  function CompareStored(x: Bytes, y: Bytes): int {
    var a, b := InternalKey(x), InternalKey(y);
    if |a| >= 8 && |b| >= 8 then CompareInternal(a, b) else 0
  }

  lemma EntryDecodes(e: Entry)
    requires Storable(e)
    ensures InternalKey(EntryBytes(e)) == KeyOf(e) && ValueOf(EntryBytes(e)) == e.value
  {
    hide SliceSlurp, Slice, ExportKey;
    SliceRoundTrip(KeyOf(e), Slice(e.value));
    SliceRoundTrip(e.value, []);
    assert Slice(e.value) + [] == Slice(e.value);
  }

  lemma StoredOrder(a: Entry, b: Entry)
    requires Storable(a) && Storable(b)
    ensures CompareStored(EntryBytes(a), EntryBytes(b)) < 0 <==> InternalLess(a, b)
    ensures CompareStored(EntryBytes(a), EntryBytes(b)) > 0 <==> InternalLess(b, a)
  {
    hide InternalKey, EntryBytes, CompareInternal, ExportKey, InternalLess;
    EntryDecodes(a);
    EntryDecodes(b);
    CompareIsInternalOrder(a, b);
  }

  /** The lookup key is at or below exactly the versions of its key that a reader at s may see, and larger keys. */
  lemma SeekOrder(key: Bytes, s: nat, e: Entry)
    requires Storable(e) && s <= MAX_SEQUENCE && |key| + 8 < UINT32
    ensures CompareStored(EntryBytes(e), LookupKey(key, s)) >= 0 <==> Less(key, e.key) || (e.key == key && e.seqno <= s)
    ensures InternalKey(LookupKey(key, s)) == KeyOf(Probe(key, s))
  {
    hide EntryBytes, CompareInternal, ExportKey, SliceSlurp, LookupKey;
    EntryDecodes(e);
    LookupKeySeeks(key, s, e);
  }

  datatype Lookup = Found(value: Bytes) | Deleted | Missing

  class Memtable {
    var table: seq<Bytes>             // the skiplist's keys, in order
    ghost var contents: seq<Entry>

    ghost predicate Valid()
      reads this
    {
      && |table| == |contents| && Sorted(contents) && Distinct(Elements(contents))
      && forall i :: 0 <= i < |table| ==> Storable(contents[i]) && table[i] == EntryBytes(contents[i])
    }

    constructor ()
      ensures Valid() && contents == []
    {
      table, contents := [], [];
    }

    /** What the skiplist's search promises: the first key at or after x. */
    method Seek(x: Bytes) returns (i: nat)
      requires Valid()
      ensures i <= |table|
      ensures forall j :: 0 <= j < i ==> CompareStored(table[j], x) < 0
      ensures i < |table| ==> CompareStored(table[i], x) >= 0
    {
      hide CompareStored, EntryBytes, Sorted, Distinct;
      i := 0;
      while i < |table| && CompareStored(table[i], x) < 0
        invariant i <= |table|
        invariant forall j :: 0 <= j < i ==> CompareStored(table[j], x) < 0
      {
        i := i + 1;
      }
    }

    /** ldb_memtable_add. */
    method Add(e: Entry)
      requires Valid() && Storable(e)
      requires forall f :: f in contents && f.key == e.key ==> f.seqno != e.seqno
      modifies this
      ensures Valid() && Elements(contents) == old(Elements(contents)) + {e}
    {
      hide EntryBytes, CompareStored, Sorted;
      var x := EntryBytes(e);
      var i := Seek(x);
      Place(contents, table, e, i);
      contents := contents[..i] + [e] + contents[i..];
      table := table[..i] + [x] + table[i..];
    }

    /** ldb_memtable_get: one seek, then a look at the entry found. */
    method Get(key: Bytes, s: nat) returns (r: Lookup)
      requires Valid() && s <= MAX_SEQUENCE && |key| + 8 < UINT32
      ensures r.Missing? <==> forall e :: !Seen(Elements(contents), key, s, e)
      ensures r.Found? ==> Answer(Elements(contents), key, s) == Some(r.value)
      ensures r.Deleted? ==> Answer(Elements(contents), key, s) == None
    {
      hide EntryBytes, CompareStored, Sorted, InternalKey, ValueOf, ImportKey, Answer, LookupKey, Distinct;
      var i := Seek(LookupKey(key, s));
      SeekFinds(contents, table, key, s, i);
      if i < |table| {
        EntryDecodes(contents[i]);
        KeyRoundTrip(contents[i].key, contents[i].seqno, contents[i].kind);
        var stored := ImportKey(InternalKey(table[i]));
        if stored.value.0 == key {
          if stored.value.2.Value? {
            return Found(ValueOf(table[i]));
          }
          return Deleted;
        }
      }
      return Missing;
    }
  }

  /** A new entry goes where the search for it stops. */
  lemma Place(contents: seq<Entry>, table: seq<Bytes>, e: Entry, i: nat)
    requires |table| == |contents| && i <= |table| && Sorted(contents) && Distinct(Elements(contents)) && Storable(e)
    requires forall j :: 0 <= j < |table| ==> Storable(contents[j]) && table[j] == EntryBytes(contents[j])
    requires forall j :: 0 <= j < i ==> CompareStored(table[j], EntryBytes(e)) < 0
    requires i < |table| ==> CompareStored(table[i], EntryBytes(e)) >= 0
    requires forall f :: f in contents && f.key == e.key ==> f.seqno != e.seqno
    ensures var after := contents[..i] + [e] + contents[i..];
            Sorted(after) && Distinct(Elements(after)) && Elements(after) == Elements(contents) + {e}
  {
    hide EntryBytes, CompareStored, InternalLess;
    var after := contents[..i] + [e] + contents[i..];
    forall j | 0 <= j < |contents|
      ensures if j < i then InternalLess(contents[j], e) else InternalLess(e, contents[j])
    {
      StoredOrder(contents[j], e);
      if j >= i {
        StoredOrder(contents[i], e);
        InternalLessTotal(contents[i], e);
        assert contents[i] in contents;
        if i < j {
          InternalLessTransitive(e, contents[i], contents[j]);
        }
      }
    }
    forall a, b | 0 <= a < b < |after| ensures InternalLess(after[a], after[b]) {
    }
    assert contents == contents[..i] + contents[i..];
    AddsOne(contents, e, i);
  }

  lemma AddsOne(contents: seq<Entry>, e: Entry, i: nat)
    requires i <= |contents| && Distinct(Elements(contents))
    requires forall f :: f in contents && f.key == e.key ==> f.seqno != e.seqno
    ensures Elements(contents[..i] + [e] + contents[i..]) == Elements(contents) + {e}
    ensures Distinct(Elements(contents[..i] + [e] + contents[i..]))
  {
    assert contents == contents[..i] + contents[i..];
  }

  /** The entry the seek stops at is the newest visible version of the key, or there is none. */
  lemma SeekFinds(contents: seq<Entry>, table: seq<Bytes>, key: Bytes, s: nat, i: nat)
    requires |table| == |contents| && i <= |table| && Sorted(contents) && Distinct(Elements(contents))
    requires forall j :: 0 <= j < |table| ==> Storable(contents[j]) && table[j] == EntryBytes(contents[j])
    requires s <= MAX_SEQUENCE && |key| + 8 < UINT32
    requires forall j :: 0 <= j < i ==> CompareStored(table[j], LookupKey(key, s)) < 0
    requires i < |table| ==> CompareStored(table[i], LookupKey(key, s)) >= 0
    ensures i < |contents| && contents[i].key == key ==>
              Seen(Elements(contents), key, s, contents[i])
              && Answer(Elements(contents), key, s) == Reading(contents[i])
    ensures i == |contents| || contents[i].key != key ==> forall e :: !Seen(Elements(contents), key, s, e)
  {
    hide EntryBytes, CompareStored, LookupKey, Answer;
    var all := Elements(contents);
    if i < |contents| {
      SeekOrder(key, s, contents[i]);
      LessIsTotal(key, contents[i].key);
    }
    forall e | Seen(all, key, s, e)
      ensures i < |contents| && contents[i].key == key && e.seqno <= contents[i].seqno
    {
      var j :| 0 <= j < |contents| && contents[j] == e;
      SeekOrder(key, s, contents[j]);
      LessIsTotal(key, contents[i].key);
      if i < j {
        assert InternalLess(contents[i], contents[j]);
      }
    }
    if i < |contents| && contents[i].key == key {
      AnswerIs(all, key, s, contents[i]);
    }
  }

  /** After adding a list of operations, a get finds what replaying them up to its sequence finds. */
  method AddAll(m: Memtable, ops: seq<Entry>)
    requires m.Valid() && m.contents == [] && Increasing(ops) && forall e :: e in ops ==> Storable(e)
    modifies m
    ensures m.Valid() && Elements(m.contents) == Elements(ops)
    ensures forall k, s :: Answer(Elements(m.contents), k, s) == Find(Replay(ops, s), k)
  {
    for i := 0 to |ops|
      invariant m.Valid() && Elements(m.contents) == Elements(ops[..i])
    {
      forall f | f in m.contents ensures f.seqno != ops[i].seqno {
        assert f in Elements(ops[..i]);
      }
      m.Add(ops[i]);
      assert ops[..i + 1] == ops[..i] + [ops[i]];
    }
    assert ops[..|ops|] == ops;
    forall k, s ensures Answer(Elements(m.contents), k, s) == Find(Replay(ops, s), k) {
      ReplayIsAnswer(ops, k, s);
    }
  }
}
