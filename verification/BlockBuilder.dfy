/** Prefix-compressed blocks with restart points (table/block_builder.c). */
module BlockBuilder {
  import opened Bytes
  import opened Coding

  datatype Pair = Pair(key: Bytes, value: Bytes)

  predicate Fits(p: Pair) {
    |p.key| < UINT32 && |p.value| < UINT32
  }

  /** The length of the longest common prefix. */
  function Shared(a: Bytes, b: Bytes): (n: nat)
    ensures n <= |a| && n <= |b| && a[..n] == b[..n]
  {
    if a == [] || b == [] || a[0] != b[0] then 0
    else
      var n := 1 + Shared(a[1..], b[1..]);
      assert a[..n] == [a[0]] + a[1..][..n - 1] && b[..n] == [b[0]] + b[1..][..n - 1];
      n
  }

  lemma {:induction false} SharedIsLongest(a: Bytes, b: Bytes, n: nat)
    requires n <= |a| && n <= |b| && forall i :: 0 <= i < n ==> a[i] == b[i]
    requires n == |a| || n == |b| || a[n] != b[n]
    ensures Shared(a, b) == n
  {
    if n > 0 {
      assert a[0] == b[0];
      forall i | 0 <= i < n - 1 ensures a[1..][i] == b[1..][i] {
        assert a[i + 1] == b[i + 1];
      }
      SharedIsLongest(a[1..], b[1..], n - 1);
    }
  }

  // ---- the entry format ----

  function EntryBytes(shared: nat, delta: Bytes, value: Bytes): (r: Bytes)
    ensures |r| > 0
  {
    Varint(shared) + (Varint(|delta|) + (Varint(|value|) + (delta + value)))
  }

  /** An entry on the wire, byte for byte: bytes shared, bytes not shared, value length, then those bytes. */
  lemma EntryLayout(delta: Bytes, value: Bytes)
    requires |delta| == 2 && |value| == 3
    ensures EntryBytes(5, delta, value) == [5, 2, 3] + delta + value
  {
  }

  /** An entry read after the key `last`. */
  function ReadEntry(input: Bytes, last: Bytes): (r: Option<(Pair, Bytes)>)
    ensures r.Some? ==> |r.value.1| < |input|
  {
    match Varint32Slurp(input)
    case None => None
    case Some((shared, rest)) =>
      match Varint32Slurp(rest)
      case None => None
      case Some((unshared, rest)) =>
        match Varint32Slurp(rest)
        case None => None
        case Some((length, rest)) =>
          if shared > |last| || unshared + length > |rest| then None
          else Some((Pair(last[..shared] + rest[..unshared], rest[unshared..unshared + length]), rest[unshared + length..]))
  }

  /** All the entries of some bytes, the first of them read after the key `last`. */
  function Decode(input: Bytes, last: Bytes): Option<seq<Pair>>
    decreases |input|
  {
    if input == [] then Some([])
    else match ReadEntry(input, last)
      case None => None
      case Some((p, rest)) =>
        match Decode(rest, p.key)
        case None => None
        case Some(ps) => Some([p] + ps)
  }

  lemma EntryReads(last: Bytes, shared: nat, p: Pair, rest: Bytes)
    requires shared <= |last| && shared <= |p.key| && last[..shared] == p.key[..shared] && Fits(p) && shared < UINT32
    ensures ReadEntry(EntryBytes(shared, p.key[shared..], p.value) + rest, last) == Some((p, rest))
  {
    hide Varint, Varint32Slurp;
    var delta := p.key[shared..];
    var tail := delta + p.value + rest;
    var c := Varint(|p.value|) + tail;
    var b := Varint(|delta|) + c;
    assert EntryBytes(shared, delta, p.value) + rest == Varint(shared) + b;
    Varint32RoundTrip(shared, b);
    Varint32RoundTrip(|delta|, c);
    Varint32RoundTrip(|p.value|, tail);
    assert tail[..|delta|] == delta && tail[|delta|..|delta| + |p.value|] == p.value && tail[|delta| + |p.value|..] == rest;
    assert last[..shared] + delta == p.key;
  }

  // ---- blocks ----

  /** How much pair k shares with the one before it: nothing at a restart. */
  function SharedAt(pairs: seq<Pair>, k: nat, interval: nat): (n: nat)
    requires k < |pairs| && interval > 0
    ensures n <= |pairs[k].key| && (k % interval == 0 ==> n == 0)
    ensures n > 0 ==> k > 0 && n <= |pairs[k - 1].key| && pairs[k - 1].key[..n] == pairs[k].key[..n]
  {
    if k == 0 || k % interval == 0 then 0 else Shared(pairs[k - 1].key, pairs[k].key)
  }

  function EntryAt(pairs: seq<Pair>, k: nat, interval: nat): (r: Bytes)
    requires k < |pairs| && interval > 0
    ensures |r| > 0
  {
    var n := SharedAt(pairs, k, interval);
    EntryBytes(n, pairs[k].key[n..], pairs[k].value)
  }

  /** The entries from pair k on. */
  function Tail(pairs: seq<Pair>, k: nat, interval: nat): Bytes
    requires k <= |pairs| && interval > 0
    decreases |pairs| - k
  {
    if k == |pairs| then [] else EntryAt(pairs, k, interval) + Tail(pairs, k + 1, interval)
  }

  /** The offset of pair k. */
  function Offset(pairs: seq<Pair>, k: nat, interval: nat): nat
    requires k <= |pairs| && interval > 0
  {
    if k == 0 then 0 else Offset(pairs, k - 1, interval) + |EntryAt(pairs, k - 1, interval)|
  }

  /** The bytes at the offset of pair k are the entries from it on. */
  lemma {:induction false} OffsetSplits(pairs: seq<Pair>, k: nat, interval: nat)
    requires k <= |pairs| && interval > 0
    ensures var all := Tail(pairs, 0, interval);
            Offset(pairs, k, interval) <= |all| && all[Offset(pairs, k, interval)..] == Tail(pairs, k, interval)
  {
    hide EntryAt;
    if k > 0 {
      OffsetSplits(pairs, k - 1, interval);
      var all, o := Tail(pairs, 0, interval), Offset(pairs, k - 1, interval);
      assert all[o..] == EntryAt(pairs, k - 1, interval) + Tail(pairs, k, interval);
      assert all[o..][|EntryAt(pairs, k - 1, interval)|..] == all[o + |EntryAt(pairs, k - 1, interval)|..];
    }
  }

  ghost predicate AllFit(pairs: seq<Pair>) {
    forall i :: 0 <= i < |pairs| ==> Fits(pairs[i])
  }

  /** Decoding from pair k on needs the key before it, and at a restart nothing. */
  lemma {:induction false} DecodesTail(pairs: seq<Pair>, k: nat, interval: nat, last: Bytes)
    requires k <= |pairs| && interval > 0 && AllFit(pairs)
    requires k % interval == 0 || k == 0 || last == pairs[k - 1].key
    ensures Decode(Tail(pairs, k, interval), last) == Some(pairs[k..])
    decreases |pairs| - k
  {
    hide EntryBytes, ReadEntry;
    if k < |pairs| {
      var p, n := pairs[k], SharedAt(pairs, k, interval);
      assert Fits(p);
      var rest := Tail(pairs, k + 1, interval);
      EntryReads(last, n, p, rest);
      assert Tail(pairs, k, interval) == EntryBytes(n, p.key[n..], p.value) + rest;
      DecodesTail(pairs, k + 1, interval, p.key);
      assert pairs[k..] == [p] + pairs[k + 1..];
    } else {
      assert pairs[k..] == [];
    }
  }

  /** A block decodes to exactly the pairs added to it, whatever the keys. */
  lemma BlockRoundTrip(pairs: seq<Pair>, interval: nat)
    requires interval > 0 && AllFit(pairs)
    ensures Decode(Tail(pairs, 0, interval), []) == Some(pairs)
  {
    DecodesTail(pairs, 0, interval, []);
    assert pairs[0..] == pairs;
  }

  /** The restart points of n pairs: one for each run of `interval` of them, and one for an empty block. */
  function RestartCount(n: nat, interval: nat): nat
    requires interval > 0
  {
    if n == 0 then 1 else (n - 1) / interval + 1
  }

  lemma RestartBound(i: nat, n: nat, interval: nat)
    requires interval > 0 && i < RestartCount(n, interval)
    ensures i * interval <= n && (n > 0 ==> i * interval < n) && (i * interval) % interval == 0
  {
    DivBound(n, interval, i);
    MultipleMod(i, interval);
  }

  lemma DivBound(n: nat, interval: nat, i: nat)
    requires interval > 0 && i < RestartCount(n, interval)
    ensures i * interval <= n && (n > 0 ==> i * interval < n)
  {
    if n > 0 {
      var q := (n - 1) / interval;
      assert q * interval <= n - 1;
      Mono(i, q, interval);
    }
  }

  lemma Mono(a: nat, b: nat, w: nat)
    requires a <= b
    ensures a * w <= b * w
  {
  }

  lemma MultipleMod(i: nat, interval: nat)
    requires interval > 0
    ensures (i * interval) % interval == 0
  {
    ModUnique(i * interval, interval, i, 0);
  }

  ghost predicate RestartsOk(restarts: seq<nat>, pairs: seq<Pair>, interval: nat)
    requires interval > 0
  {
    && |restarts| == RestartCount(|pairs|, interval)
    && forall i :: 0 <= i < |restarts| ==>
         (RestartBound(i, |pairs|, interval); restarts[i] == Offset(pairs, i * interval, interval))
  }

  /** Decoding may start at any restart point, with no key before it, and yields every pair from there on. */
  lemma DecodesFromRestart(restarts: seq<nat>, pairs: seq<Pair>, interval: nat, i: nat)
    requires interval > 0 && AllFit(pairs) && RestartsOk(restarts, pairs, interval) && i < |restarts|
    ensures i * interval <= |pairs| && restarts[i] <= |Tail(pairs, 0, interval)|
    ensures Decode(Tail(pairs, 0, interval)[restarts[i]..], []) == Some(pairs[i * interval..])
    ensures i * interval < |pairs| ==> SharedAt(pairs, i * interval, interval) == 0
    ensures i + 1 < |restarts| ==> (i + 1) * interval == i * interval + interval
    ensures i + 1 == |restarts| ==> |pairs| - i * interval <= interval
  {
    hide Tail, Decode, Offset;
    RestartBound(i, |pairs|, interval);
    assert restarts[i] == Offset(pairs, i * interval, interval);
    OffsetSplits(pairs, i * interval, interval);
    DecodesTail(pairs, i * interval, interval, []);
    LastRun(|pairs|, interval, i);
  }

  lemma LastRun(n: nat, interval: nat, i: nat)
    requires interval > 0 && i < RestartCount(n, interval)
    ensures i + 1 == RestartCount(n, interval) ==> n - i * interval <= interval
    ensures (i + 1) * interval == i * interval + interval
  {
    if n > 0 && i == (n - 1) / interval {
      assert n - 1 == interval * i + (n - 1) % interval;
    }
  }

  // ---- the trailer ----

  function Trailer(restarts: seq<nat>): Bytes {
    Numbers(restarts) + Fixed(|restarts|, 4)
  }

  function Numbers(ns: seq<nat>): (r: Bytes)
    ensures |r| == 4 * |ns|
  {
    if ns == [] then [] else Numbers(ns[..|ns| - 1]) + Fixed(ns[|ns| - 1], 4)
  }

  function ReadNumbers(b: Bytes): seq<nat>
    requires |b| % 4 == 0
  {
    if b == [] then [] else ReadNumbers(b[..|b| - 4]) + [FixedValue(b[|b| - 4..])]
  }

  /** The restart array of a block, from its trailer. */
  function ReadRestarts(block: Bytes): Option<seq<nat>> {
    if |block| < 4 then None
    else
      var n := FixedValue(block[|block| - 4..]);
      if |block| < 4 + 4 * n then None else Some(ReadNumbers(block[|block| - 4 - 4 * n..|block| - 4]))
  }

  lemma {:induction false} NumbersReadBack(ns: seq<nat>)
    requires forall n :: n in ns ==> n < UINT32
    ensures ReadNumbers(Numbers(ns)) == ns
  {
    hide Fixed, FixedValue;
    if ns != [] {
      var front, last := ns[..|ns| - 1], ns[|ns| - 1];
      assert last in ns && forall n :: n in front ==> n in ns;
      NumbersReadBack(front);
      Fixed32RoundTrip(last);
      var b := Numbers(ns);
      assert b[..|b| - 4] == Numbers(front) && b[|b| - 4..] == Fixed(last, 4);
    }
  }

  /** A finished block gives back its restart points, and its entries before them. */
  lemma TrailerReadsBack(data: Bytes, restarts: seq<nat>)
    requires |restarts| < UINT32 && forall n :: n in restarts ==> n < UINT32
    ensures var block := data + Trailer(restarts);
            ReadRestarts(block) == Some(restarts) && block[..|block| - 4 * |restarts| - 4] == data
  {
    hide Fixed, FixedValue, Numbers, ReadNumbers;
    var block := data + Trailer(restarts);
    assert block[|block| - 4..] == Fixed(|restarts|, 4);
    Fixed32RoundTrip(|restarts|);
    assert block[|block| - 4 - 4 * |restarts|..|block| - 4] == Numbers(restarts);
    NumbersReadBack(restarts);
  }

  // ---- the generator ----

  lemma {:induction false} AddedTail(pairs: seq<Pair>, p: Pair, k: nat, interval: nat)
    requires k <= |pairs| && interval > 0
    ensures Tail(pairs + [p], k, interval) == Tail(pairs, k, interval) + EntryAt(pairs + [p], |pairs|, interval)
    ensures Offset(pairs + [p], k, interval) == Offset(pairs, k, interval)
    decreases |pairs| - k
  {
    hide EntryBytes;
    AddedOffset(pairs, p, k, interval);
    if k < |pairs| {
      assert EntryAt(pairs + [p], k, interval) == EntryAt(pairs, k, interval);
      AddedTail(pairs, p, k + 1, interval);
    } else {
      assert Tail(pairs + [p], k + 1, interval) == [];
    }
  }

  lemma {:induction false} AddedOffset(pairs: seq<Pair>, p: Pair, k: nat, interval: nat)
    requires k <= |pairs| && interval > 0
    ensures Offset(pairs + [p], k, interval) == Offset(pairs, k, interval)
  {
    hide EntryBytes;
    if k > 0 {
      AddedOffset(pairs, p, k - 1, interval);
      assert EntryAt(pairs + [p], k - 1, interval) == EntryAt(pairs, k - 1, interval);
    }
  }

  /** Entries since the last restart. */
  function Counter(n: nat, interval: nat): nat
    requires interval > 0
  {
    if n == 0 then 0 else (n - 1) % interval + 1
  }

  lemma CounterSteps(n: nat, interval: nat)
    requires interval > 0
    ensures Counter(n, interval) <= interval
    ensures Counter(n, interval) == interval <==> n > 0 && n % interval == 0
    ensures Counter(n + 1, interval) == (if Counter(n, interval) == interval then 1 else Counter(n, interval) + 1)
    ensures RestartCount(n + 1, interval)
         == RestartCount(n, interval) + if Counter(n, interval) == interval then 1 else 0
    ensures Counter(n, interval) == interval ==> RestartCount(n, interval) * interval == n
  {
    if n > 0 {
      DivSteps(n - 1, interval);
    } else {
      ModUnique(0, interval, 0, 0);
    }
  }

  /** Division of the next number. */
  lemma DivSteps(m: nat, w: nat)
    requires w > 0
    ensures m % w + 1 == w ==> (m + 1) / w == m / w + 1 && (m + 1) % w == 0 && (m / w + 1) * w == m + 1
    ensures m % w + 1 < w ==> (m + 1) / w == m / w && (m + 1) % w == m % w + 1
  {
    var q, r := m / w, m % w;
    assert m == w * q + r;
    if r + 1 == w {
      Spread(w, q);
      ModUnique(m + 1, w, q + 1, 0);
    } else {
      ModUnique(m + 1, w, q, r + 1);
    }
  }

  lemma Spread(w: nat, q: nat)
    ensures w * (q + 1) == w * q + w && (q + 1) * w == w * q + w
  {
  }

  class BlockGen {
    const interval: nat
    var buffer: Bytes
    var restarts: seq<nat>
    var lastKey: Bytes
    var counter: nat
    var finished: bool
    ghost var pairs: seq<Pair>

    ghost predicate Valid()
      reads this
    {
      && interval > 0 && !finished && AllFit(pairs)
      && buffer == Tail(pairs, 0, interval) && RestartsOk(restarts, pairs, interval)
      && counter == Counter(|pairs|, interval)
      && lastKey == if pairs == [] then [] else pairs[|pairs| - 1].key
    }

    /** ldb_blockgen_init. */
    constructor (interval: nat)
      requires interval >= 1
      ensures Valid() && pairs == [] && this.interval == interval
    {
      this.interval := interval;
      buffer, restarts, lastKey, counter, finished := [], [0], [], 0, false;
      pairs := [];
    }

    /** ldb_blockgen_reset. */
    method Reset()
      requires interval >= 1
      modifies this
      ensures Valid() && pairs == []
    {
      buffer, restarts, counter, finished, lastKey := [], [0], 0, false, [];
      pairs := [];
    }

    /** The bytes shared with the last key. */
    method SharedBytes(key: Bytes) returns (shared: nat)
      ensures shared == Shared(lastKey, key)
    {
      var minLength := if |lastKey| < |key| then |lastKey| else |key|;
      shared := 0;
      while shared < minLength && lastKey[shared] == key[shared]
        invariant shared <= minLength && forall i :: 0 <= i < shared ==> lastKey[i] == key[i]
      {
        shared := shared + 1;
      }
      SharedIsLongest(lastKey, key, shared);
    }

    /** ldb_blockgen_add. */
    method Add(key: Bytes, value: Bytes)
      requires Valid() && Fits(Pair(key, value))
      modifies this
      ensures Valid() && pairs == old(pairs) + [Pair(key, value)]
    {
      hide Tail, Offset, Shared, EntryBytes, RestartCount, Counter, RestartsOk, SharedAt, Varint;
      ghost var p, n := Pair(key, value), |pairs|;
      CounterSteps(n, interval);
      AddedTail(pairs, p, 0, interval);
      RestartsGrow(restarts, pairs, p, interval);
      var shared := 0;
      if counter < interval {
        shared := SharedBytes(key);
      } else {
        restarts := restarts + [|buffer|];
        counter := 0;
      }
      SharedIs(pairs, p, interval, shared);
      var nonShared := key[shared..];
      buffer := buffer + Varint(shared) + Varint(|nonShared|) + Varint(|value|);
      buffer := buffer + nonShared + value;
      AppendsEntry(old(buffer), shared, nonShared, value);
      lastKey := lastKey[..shared] + nonShared;
      counter := counter + 1;
      pairs := pairs + [p];
    }

    /** ldb_blockgen_finish. */
    method Finish() returns (block: Bytes)
      requires Valid()
      modifies this`buffer, this`finished
      ensures block == Tail(pairs, 0, interval) + Trailer(restarts) && finished && buffer == block
    {
      hide Tail, RestartsOk, Fixed;
      ghost var data := buffer;
      assert restarts[..0] == [] && data + Numbers([]) == data;
      for i := 0 to |restarts|
        invariant buffer == data + Numbers(restarts[..i])
      {
        assert restarts[..i + 1][..i] == restarts[..i];
        buffer := buffer + Fixed(restarts[i], 4);
      }
      assert restarts[..|restarts|] == restarts;
      buffer := buffer + Fixed(|restarts|, 4);
      finished := true;
      return buffer;
    }
  }

  lemma AppendsEntry(buffer: Bytes, shared: nat, delta: Bytes, value: Bytes)
    ensures buffer + Varint(shared) + Varint(|delta|) + Varint(|value|) + delta + value
         == buffer + EntryBytes(shared, delta, value)
  {
    hide Varint;
  }

  lemma SharedIs(pairs: seq<Pair>, p: Pair, interval: nat, shared: nat)
    requires interval > 0
    requires shared == if Counter(|pairs|, interval) == interval then 0
                       else Shared(if pairs == [] then [] else pairs[|pairs| - 1].key, p.key)
    ensures shared == SharedAt(pairs + [p], |pairs|, interval)
    ensures shared <= |p.key|
    ensures pairs != [] ==> shared <= |pairs[|pairs| - 1].key| && pairs[|pairs| - 1].key[..shared] == p.key[..shared]
    ensures pairs == [] ==> shared == 0
  {
    hide Counter;
    CounterSteps(|pairs|, interval);
  }

  lemma RestartsGrow(restarts: seq<nat>, pairs: seq<Pair>, p: Pair, interval: nat)
    requires interval > 0 && RestartsOk(restarts, pairs, interval)
    ensures RestartsOk(if Counter(|pairs|, interval) == interval then restarts + [|Tail(pairs, 0, interval)|] else restarts,
                       pairs + [p], interval)
  {
    hide Tail, Offset, Counter, RestartCount;
    var n := |pairs|;
    CounterSteps(n, interval);
    WholeOffset(pairs, interval);
    forall i | 0 <= i < |restarts|
      ensures i * interval <= n && Offset(pairs + [p], i * interval, interval) == Offset(pairs, i * interval, interval)
    {
      RestartBound(i, n, interval);
      AddedOffset(pairs, p, i * interval, interval);
    }
    AddedOffset(pairs, p, n, interval);
  }

  lemma WholeOffset(pairs: seq<Pair>, interval: nat)
    requires interval > 0
    ensures Offset(pairs, |pairs|, interval) == |Tail(pairs, 0, interval)|
  {
    hide Offset, EntryAt;
    OffsetSplits(pairs, |pairs|, interval);
    var all, o := Tail(pairs, 0, interval), Offset(pairs, |pairs|, interval);
    assert |all[o..]| == 0 by { assert Tail(pairs, |pairs|, interval) == []; }
  }
}
