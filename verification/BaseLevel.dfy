/** The base-level test of a compaction, with its one-way pointers (version_set.c). */
module BaseLevel {
  import opened Bytes

  /** The user keys a table spans. */
  datatype Range = Range(smallest: Bytes, largest: Bytes)

  predicate Spans(r: Range, key: Bytes) {
    AtMost(r.smallest, key) && AtMost(key, r.largest)
  }

  /** Below level 0 tables are in key order; two neighbours may share one user key. */
  ghost predicate InOrder(files: seq<Range>) {
    && (forall i :: 0 <= i < |files| ==> AtMost(files[i].smallest, files[i].largest))
    && (forall i, j :: 0 <= i < j < |files| ==> AtMost(files[i].largest, files[j].smallest))
  }

  ghost predicate SomeSpans(files: seq<Range>, key: Bytes) {
    exists i :: 0 <= i < |files| && Spans(files[i], key)
  }

  /** Every table before the pointer ends before the key. */
  ghost predicate Passed(files: seq<Range>, p: nat, key: Bytes) {
    p <= |files| && forall i :: 0 <= i < p ==> Less(files[i].largest, key)
  }

  lemma PassedLater(files: seq<Range>, p: nat, key: Bytes, later: Bytes)
    requires Passed(files, p, key) && AtMost(key, later)
    ensures Passed(files, p, later)
  {
    forall i | 0 <= i < p ensures Less(files[i].largest, later) {
      LessIsTotal(files[i].largest, key);
      LessTransitive(files[i].largest, key, later);
    }
  }

  /** Where the scan of one level stops decides whether any of its tables spans the key. */
  lemma ScanDecides(files: seq<Range>, p: nat, key: Bytes)
    requires InOrder(files) && Passed(files, p, key) && (p < |files| ==> AtMost(key, files[p].largest))
    ensures SomeSpans(files, key) <==> p < |files| && AtMost(files[p].smallest, key)
  {
    forall i | 0 <= i < |files| && i != p && (i < p || !AtMost(files[p].smallest, key)) ensures !Spans(files[i], key) {
      if i < p {
        LessIsTotal(files[i].largest, key);
      } else {
        LessIsTotal(key, files[p].smallest);
        LessTransitive(key, files[p].smallest, files[p].largest);
        LessTransitive(key, files[p].largest, files[i].smallest);
        LessIsTotal(key, files[i].smallest);
      }
    }
    if p < |files| && AtMost(files[p].smallest, key) {
      assert Spans(files[p], key);
    }
  }

  class LevelPointers {
    const levels: seq<seq<Range>>   // the levels below the compaction's output level
    var levelPtrs: seq<nat>
    ghost var last: Option<Bytes>   // the last key asked about

    ghost predicate Valid()
      reads this
    {
      && |levelPtrs| == |levels| && (forall l :: 0 <= l < |levels| ==> InOrder(levels[l]))
      && (forall l :: 0 <= l < |levels| ==> levelPtrs[l] <= |levels[l]|)
      && (last.None? ==> forall l :: 0 <= l < |levels| ==> levelPtrs[l] == 0)
      && (last.Some? ==> forall l :: 0 <= l < |levels| ==> Passed(levels[l], levelPtrs[l], last.value))
    }

    constructor (levels: seq<seq<Range>>)
      requires forall l :: 0 <= l < |levels| ==> InOrder(levels[l])
      ensures Valid() && last == None && this.levels == levels
    {
      this.levels := levels;
      levelPtrs := seq(|levels|, _ => 0);
      last := None;
    }

    /** Moves one level's pointer up to the key; says whether the table there spans it. */
    method Scan(l: nat, key: Bytes) returns (spans: bool)
      requires l < |levels| == |levelPtrs| && InOrder(levels[l]) && Passed(levels[l], levelPtrs[l], key)
      modifies this`levelPtrs
      ensures |levelPtrs| == |levels| && Passed(levels[l], levelPtrs[l], key)
      ensures forall m :: 0 <= m < |levels| && m != l ==> levelPtrs[m] == old(levelPtrs[m])
      ensures spans <==> SomeSpans(levels[l], key)
    {
      hide InOrder, SomeSpans;
      var files := levels[l];
      while levelPtrs[l] < |files|
        invariant |levelPtrs| == |levels| && Passed(files, levelPtrs[l], key)
        invariant forall m :: 0 <= m < |levels| && m != l ==> levelPtrs[m] == old(levelPtrs[m])
        decreases |files| - levelPtrs[l]
      {
        var f := files[levelPtrs[l]];
        LessIsTotal(key, f.largest);
        if Compare(key, f.largest) <= 0 {
          ScanDecides(files, levelPtrs[l], key);
          LessIsTotal(key, f.smallest);
          return Compare(key, f.smallest) >= 0;
        }
        levelPtrs := levelPtrs[l := levelPtrs[l] + 1];
      }
      ScanDecides(files, levelPtrs[l], key);
      return false;
    }

    /**
     * ldb_compaction_is_base_level_for_key, asked about keys in ascending order: true exactly when no table of any
     * deeper level spans the key.
     */
    method IsBaseLevelForKey(key: Bytes) returns (base: bool)
      requires Valid() && (last.Some? ==> AtMost(last.value, key))
      modifies this
      ensures Valid() && last == Some(key)
      ensures base <==> forall l :: 0 <= l < |levels| ==> !SomeSpans(levels[l], key)
    {
      hide InOrder, SomeSpans;
      ghost var before := last;
      forall l | 0 <= l < |levels| ensures Passed(levels[l], levelPtrs[l], key) {
        if before.Some? {
          PassedLater(levels[l], levelPtrs[l], before.value, key);
        }
      }
      last := Some(key);
      for l := 0 to |levels|
        invariant Valid() && last == Some(key)
        invariant forall m :: 0 <= m < l ==> !SomeSpans(levels[m], key)
      {
        var spans := Scan(l, key);
        if spans {
          return false;
        }
      }
      return true;
    }
  }
}
