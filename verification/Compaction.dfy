/** The compaction loop and why dropping entries does not change what any snapshot reads (db_impl.c). */
module Compaction {
  import opened Bytes
  import opened Mvcc
  import opened Format

  /** Entry i is hidden by a newer version that every snapshot from `smallest` on already sees. */
  ghost predicate Shadowed(input: seq<Entry>, smallest: nat, i: nat)
    requires i < |input|
  {
    exists j :: 0 <= j < i && input[j].key == input[i].key && input[j].seqno <= smallest
  }

  predicate Obsolete(e: Entry, smallest: nat, isBase: Bytes -> bool) {
    e.kind.Deletion? && e.seqno <= smallest && isBase(e.key)
  }

  ghost predicate Dropped(input: seq<Entry>, smallest: nat, isBase: Bytes -> bool, i: nat)
    requires i < |input|
  {
    Shadowed(input, smallest, i) || Obsolete(input[i], smallest, isBase)
  }

  /** The entries among the first n that survive. */
  ghost function Kept(input: seq<Entry>, smallest: nat, isBase: Bytes -> bool, n: nat): seq<Entry>
    requires n <= |input|
  {
    if n == 0 then []
    else if Dropped(input, smallest, isBase, n - 1) then Kept(input, smallest, isBase, n - 1)
    else Kept(input, smallest, isBase, n - 1) + [input[n - 1]]
  }

  function Flatten(outputs: seq<seq<Entry>>): seq<Entry> {
    if outputs == [] then [] else Flatten(outputs[..|outputs| - 1]) + outputs[|outputs| - 1]
  }

  lemma FlattenAppend(outputs: seq<seq<Entry>>, last: seq<Entry>)
    ensures Flatten(outputs + [last]) == Flatten(outputs) + last
  {
    assert (outputs + [last])[..|outputs|] == outputs;
  }

  // ---- the loop ----

  /** The last version of the current key is at most `smallest` exactly when some earlier version is. */
  lemma LastDecides(input: seq<Entry>, smallest: nat, i: nat)
    requires Sorted(input) && 0 < i < |input|
    ensures Shadowed(input, smallest, i) <==> input[i - 1].key == input[i].key && input[i - 1].seqno <= smallest
  {
    if j :| 0 <= j < i && input[j].key == input[i].key && input[j].seqno <= smallest {
      LessIsTotal(input[j].key, input[i - 1].key);
      LessIsTotal(input[i - 1].key, input[i].key);
      if j < i - 1 {
        assert InternalLess(input[j], input[i - 1]);
      }
      assert InternalLess(input[i - 1], input[i]);
    }
  }

  lemma DropRule(input: seq<Entry>, smallest: nat, isBase: Bytes -> bool, i: nat)
    requires Sorted(input) && i < |input|
    ensures Dropped(input, smallest, isBase, i)
       <==> (i > 0 && input[i - 1].key == input[i].key && input[i - 1].seqno <= smallest)
            || Obsolete(input[i], smallest, isBase)
  {
    hide Sorted;
    if i > 0 {
      LastDecides(input, smallest, i);
    }
  }

  lemma KeptNone(input: seq<Entry>, smallest: nat, isBase: Bytes -> bool)
    ensures Kept(input, smallest, isBase, 0) == []
    ensures Flatten([]) == []
  {
  }

  lemma KeptNext(input: seq<Entry>, smallest: nat, isBase: Bytes -> bool, n: nat)
    requires n < |input|
    ensures Kept(input, smallest, isBase, n + 1)
         == Kept(input, smallest, isBase, n) + if Dropped(input, smallest, isBase, n) then [] else [input[n]]
  {
    hide Dropped;
  }

  /**
   * ldb_do_compaction_work: one pass over the merged inputs. `stopBefore` and `full` stand for the two
   * rules that close an output file; neither affects what is kept.
   */
  method Compact(input: seq<Entry>, smallest: nat, isBase: Bytes -> bool,
                 stopBefore: Entry -> bool, full: seq<Entry> -> bool) returns (outputs: seq<seq<Entry>>)
    requires Sorted(input) && smallest <= MAX_SEQUENCE
    requires forall i :: 0 <= i < |input| ==> input[i].seqno <= MAX_SEQUENCE
    ensures smallest < MAX_SEQUENCE ==> Flatten(outputs) == Kept(input, smallest, isBase, |input|)
    ensures smallest == MAX_SEQUENCE ==> Flatten(outputs) == []
    ensures forall o :: o in outputs ==> o != []
  {
    hide Sorted, Kept, Dropped, Flatten;
    outputs := [];
    KeptNone(input, smallest, isBase);
    var builder := None;
    var lastSequenceForKey := MAX_SEQUENCE;
    var userKey := None;
    var n := 0;
    while n < |input|
      invariant 0 <= n <= |input|
      invariant n == 0 ==> userKey == None
      invariant n > 0 ==> userKey == Some(input[n - 1].key) && lastSequenceForKey == input[n - 1].seqno
      invariant builder.Some? ==> builder.value != []
      invariant forall o :: o in outputs ==> o != []
      invariant smallest < MAX_SEQUENCE ==>
                  Flatten(outputs) + (if builder.Some? then builder.value else []) == Kept(input, smallest, isBase, n)
      invariant smallest == MAX_SEQUENCE ==> outputs == [] && builder.None?
    {
      var e := input[n];
      var drop := false;
      KeptNext(input, smallest, isBase, n);
      if builder.Some? && stopBefore(e) {
        FlattenAppend(outputs, builder.value);
        outputs, builder := outputs + [builder.value], None;
      }
      if userKey != Some(e.key) {
        userKey := Some(e.key);
        lastSequenceForKey := MAX_SEQUENCE;
      }
      DropRule(input, smallest, isBase, n);
      if lastSequenceForKey <= smallest {
        drop := true;
      } else if e.kind.Deletion? && e.seqno <= smallest && isBase(e.key) {
        drop := true;
      }
      lastSequenceForKey := e.seqno;
      if !drop {
        builder := Some((if builder.Some? then builder.value else []) + [e]);
        if full(builder.value) {
          FlattenAppend(outputs, builder.value);
          outputs, builder := outputs + [builder.value], None;
        }
      }
      n := n + 1;
    }
    if builder.Some? {
      FlattenAppend(outputs, builder.value);
      outputs := outputs + [builder.value];
    }
  }

  // ---- what is kept ----

  lemma {:induction false} KeptMembers(input: seq<Entry>, smallest: nat, isBase: Bytes -> bool, n: nat, e: Entry)
    requires n <= |input|
    ensures e in Kept(input, smallest, isBase, n)
       <==> exists i :: 0 <= i < n && input[i] == e && !Dropped(input, smallest, isBase, i)
  {
    if n > 0 {
      KeptMembers(input, smallest, isBase, n - 1, e);
    }
  }

  /**
   * In terms of the inputs alone: an entry goes exactly when a newer one for its key is itself at or below the floor, or
   * when it is a deletion at or below the floor and no deeper level has its key.
   */
  lemma KeptExactly(input: seq<Entry>, smallest: nat, isBase: Bytes -> bool, e: Entry)
    requires Sorted(input)
    ensures e in Kept(input, smallest, isBase, |input|)
       <==> && e in input
            && !(exists f :: f in input && f.key == e.key && f.seqno <= smallest && InternalLess(f, e))
            && !(e.kind.Deletion? && e.seqno <= smallest && isBase(e.key))
  {
    hide InternalLess;
    KeptMembers(input, smallest, isBase, |input|, e);
    forall i | 0 <= i < |input| && input[i] == e
      ensures Shadowed(input, smallest, i)
         <==> exists f :: f in input && f.key == e.key && f.seqno <= smallest && InternalLess(f, e)
    {
      ShadowedBy(input, smallest, i);
    }
  }

  lemma ShadowedBy(input: seq<Entry>, smallest: nat, i: nat)
    requires Sorted(input) && i < |input|
    ensures Shadowed(input, smallest, i)
       <==> exists f :: f in input && f.key == input[i].key && f.seqno <= smallest && InternalLess(f, input[i])
  {
    if Shadowed(input, smallest, i) {
      var j :| 0 <= j < i && input[j].key == input[i].key && input[j].seqno <= smallest;
      assert input[j] in input;
    }
    if f :| f in input && f.key == input[i].key && f.seqno <= smallest && InternalLess(f, input[i]) {
      var j :| 0 <= j < |input| && input[j] == f;
      NotBoth(f, input[i]);
    }
  }

  lemma NotBoth(a: Entry, b: Entry)
    ensures !(InternalLess(a, b) && InternalLess(b, a))
  {
    LessIsTotal(a.key, b.key);
  }

  lemma {:induction false} KeptSorted(input: seq<Entry>, smallest: nat, isBase: Bytes -> bool, n: nat)
    requires Sorted(input) && n <= |input|
    ensures Sorted(Kept(input, smallest, isBase, n))
  {
    if n > 0 {
      KeptSorted(input, smallest, isBase, n - 1);
      var k := Kept(input, smallest, isBase, n - 1);
      forall a | 0 <= a < |k| ensures InternalLess(k[a], input[n - 1]) {
        KeptMembers(input, smallest, isBase, n - 1, k[a]);
      }
    }
  }

  /** At most one surviving entry per key is old enough for every snapshot to see. */
  lemma KeptOnePerKey(input: seq<Entry>, smallest: nat, isBase: Bytes -> bool, a: Entry, b: Entry)
    requires Sorted(input)
    requires a in Kept(input, smallest, isBase, |input|) && b in Kept(input, smallest, isBase, |input|)
    requires a.key == b.key && a.seqno <= smallest && b.seqno <= smallest
    ensures a == b
  {
    KeptMembers(input, smallest, isBase, |input|, a);
    KeptMembers(input, smallest, isBase, |input|, b);
    var i :| 0 <= i < |input| && input[i] == a && !Dropped(input, smallest, isBase, i);
    var j :| 0 <= j < |input| && input[j] == b && !Dropped(input, smallest, isBase, j);
  }

  /** Where the inputs sit: same-key entries elsewhere are newer (`newer`) or older (`deeper`), up to copies. */
  ghost predicate Placed(newer: set<Entry>, input: set<Entry>, deeper: set<Entry>, isBase: Bytes -> bool) {
    && Distinct(newer + input + deeper)
    && Covers(newer, input) && Covers(input, deeper) && Covers(newer, deeper)
    && (forall d :: d in deeper ==> !isBase(d.key))
  }

  lemma SortedNewerFirst(input: seq<Entry>, i: nat, j: nat)
    requires Sorted(input) && Distinct(Elements(input)) && i < |input| && j < |input|
    requires input[i].key == input[j].key
    ensures i < j <==> input[i].seqno > input[j].seqno
  {
    LessIsTotal(input[i].key, input[j].key);
    if i < j {
      assert InternalLess(input[i], input[j]);
    } else if j < i {
      assert InternalLess(input[j], input[i]);
    }
  }

  /** A shadowed entry is never what a reader at or above `smallest` finds. */
  lemma ShadowedIsNotNewest(all: set<Entry>, input: seq<Entry>, smallest: nat, k: Bytes, s: nat, i: nat)
    requires Sorted(input) && Distinct(Elements(input)) && Elements(input) <= all && smallest <= s && i < |input|
    requires Newest(all, k, s, input[i])
    ensures !Shadowed(input, smallest, i)
  {
    hide Sorted, Distinct;
    if j :| 0 <= j < i && input[j].key == input[i].key && input[j].seqno <= smallest {
      SortedNewerFirst(input, j, i);
      assert false;
    }
  }

  /** An older version of a key whose newest version is at most `smallest` does not survive. */
  lemma OlderIsShadowed(input: seq<Entry>, smallest: nat, isBase: Bytes -> bool, e: Entry, f: Entry)
    requires Sorted(input) && Distinct(Elements(input)) && e in input && e.seqno <= smallest
    requires f.key == e.key && f.seqno < e.seqno
    ensures f !in Kept(input, smallest, isBase, |input|)
  {
    hide Sorted, Distinct, Kept;
    KeptMembers(input, smallest, isBase, |input|, f);
    if j :| 0 <= j < |input| && input[j] == f && !Dropped(input, smallest, isBase, j) {
      var i :| 0 <= i < |input| && input[i] == e;
      SortedNewerFirst(input, i, j);
      assert false;
    }
  }

  /** The newest visible version survives, or it was an obsolete deletion and then nothing older survives either. */
  lemma NewestSurvives(newer: set<Entry>, input: seq<Entry>, deeper: set<Entry>, isBase: Bytes -> bool,
                       smallest: nat, k: Bytes, s: nat, e: Entry)
    requires Sorted(input) && Placed(newer, Elements(input), deeper, isBase) && smallest <= s
    requires Newest(newer + Elements(input) + deeper, k, s, e)
    ensures var kept := Elements(Kept(input, smallest, isBase, |input|));
            Newest(newer + kept + deeper, k, s, e)
            || (e.kind.Deletion? && forall f :: !Seen(newer + kept + deeper, k, s, f))
  {
    hide Sorted, Kept, Distinct, Shadowed;
    var kept := Elements(Kept(input, smallest, isBase, |input|));
    var all, rest := newer + Elements(input) + deeper, newer + kept + deeper;
    KeptWithin(input, smallest, isBase);
    DistinctWithin(all, Elements(input));
    forall f | Seen(rest, k, s, f) ensures Seen(all, k, s, f) {
    }
    if e !in rest {
      KeptMembers(input, smallest, isBase, |input|, e);
      var i :| 0 <= i < |input| && input[i] == e;
      ShadowedIsNotNewest(all, input, smallest, k, s, i);
      forall f | Seen(rest, k, s, f) ensures false {
        assert Seen(all, k, s, f);
        SameVersion(all, e, f);
        if f in kept {
          OlderIsShadowed(input, smallest, isBase, e, f);
        }
      }
    }
  }

  lemma SameVersion(all: set<Entry>, e: Entry, f: Entry)
    requires Distinct(all) && e in all && f in all && e.key == f.key
    ensures e == f || e.seqno != f.seqno
  {
  }

  lemma DistinctWithin(all: set<Entry>, part: set<Entry>)
    requires Distinct(all) && part <= all
    ensures Distinct(part)
  {
  }

  lemma KeptWithin(input: seq<Entry>, smallest: nat, isBase: Bytes -> bool)
    ensures Elements(Kept(input, smallest, isBase, |input|)) <= Elements(input)
  {
    forall e | e in Kept(input, smallest, isBase, |input|) ensures e in input {
      KeptMembers(input, smallest, isBase, |input|, e);
    }
  }

  /** Replacing the inputs by what the loop keeps changes no answer at or above `smallest`. */
  lemma CompactionPreservesReads(newer: set<Entry>, input: seq<Entry>, deeper: set<Entry>, isBase: Bytes -> bool,
                                 smallest: nat, k: Bytes, s: nat)
    requires Sorted(input) && Placed(newer, Elements(input), deeper, isBase) && smallest <= s
    ensures Answer(newer + Elements(input) + deeper, k, s)
         == Answer(newer + Elements(Kept(input, smallest, isBase, |input|)) + deeper, k, s)
  {
    var kept := Elements(Kept(input, smallest, isBase, |input|));
    var all, rest := newer + Elements(input) + deeper, newer + kept + deeper;
    KeptWithin(input, smallest, isBase);
    assert rest <= all;
    forall e | Newest(all, k, s, e)
      ensures Newest(rest, k, s, e) || (e.kind.Deletion? && forall f :: !Seen(rest, k, s, f))
    {
      NewestSurvives(newer, input, deeper, isBase, smallest, k, s, e);
    }
    if forall f :: !Seen(all, k, s, f) {
      forall f ensures !Seen(rest, k, s, f) {
        assert !Seen(all, k, s, f);
      }
    }
    AnswerAgrees(all, rest, k, s);
  }

  /** Below `smallest` the promise stops: an overwritten value the loop drops was still readable there. */
  lemma OlderReadsMayChange()
    ensures exists input: seq<Entry>, isBase: Bytes -> bool, smallest: nat, s: nat, k: Bytes ::
              && Sorted(input) && Placed({}, Elements(input), {}, isBase) && s < smallest
              && Answer(Elements(input), k, s) != Answer(Elements(Kept(input, smallest, isBase, |input|)), k, s)
  {
    var new_, old_ := Entry([], 2, Value, [1]), Entry([], 1, Value, []);
    var input := [new_, old_];
    var isBase := (k: Bytes) => false;
    assert Kept(input, 2, isBase, 1) == [new_] by {
      assert Kept(input, 2, isBase, 0) == [];
    }
    assert Shadowed(input, 2, 1) by {
      assert input[0].key == input[1].key;
    }
    assert Kept(input, 2, isBase, 2) == [new_];
    var all, rest := Elements(input), Elements([new_]);
    assert Seen(all, [], 1, old_) && Newest(all, [], 1, old_);
    AnswerIs(all, [], 1, old_);
    AnswerNothing(rest, [], 1);
    assert {} + all + {} == all;
    assert Sorted(input) && Placed({}, Elements(input), {}, isBase);
    assert Answer(Elements(input), [], 1) != Answer(Elements(Kept(input, 2, isBase, |input|)), [], 1);
  }
}
