/** Version edits: the records of the manifest (version_edit.c). */
module VersionEdit {
  import opened Bytes
  import opened Coding

  const NUM_LEVELS := 7

  const TAG_COMPARATOR := 1
  const TAG_LOG_NUMBER := 2
  const TAG_NEXT_FILE_NUMBER := 3
  const TAG_LAST_SEQUENCE := 4
  const TAG_COMPACT_POINTER := 5
  const TAG_DELETED_FILE := 6
  const TAG_NEW_FILE := 7
  const TAG_PREV_LOG_NUMBER := 9

  datatype File = File(level: nat, number: nat)

  datatype Pointer = Pointer(level: nat, key: Bytes)

  datatype NewFile = NewFile(level: nat, number: nat, size: nat, smallest: Bytes, largest: Bytes)

  datatype Edit = Edit(
    comparator: Option<Bytes>,
    logNumber: Option<nat>,
    prevLogNumber: Option<nat>,
    nextFile: Option<nat>,
    lastSequence: Option<nat>,
    pointers: seq<Pointer>,
    deleted: seq<File>,          // in the order of file_entry_compare, without repetition
    files: seq<NewFile>)

  const EMPTY := Edit(None, None, None, None, None, [], [], [])

  // ---- deleted files ----

  /** file_entry_compare: by level, then by number. */
  predicate Before(a: File, b: File) {
    a.level < b.level || (a.level == b.level && a.number < b.number)
  }

  ghost predicate Ordered(files: seq<File>) {
    forall i, j :: 0 <= i < j < |files| ==> Before(files[i], files[j])
  }

  /** rb_set_put. */
  function Put(files: seq<File>, f: File): seq<File> {
    if files == [] then [f]
    else if f == files[0] then files
    else if Before(f, files[0]) then [f] + files
    else [files[0]] + Put(files[1..], f)
  }

  /** The deleted files form a set: putting one adds it, in order, unless it is there. */
  lemma {:induction false} PutIsSetInsert(files: seq<File>, f: File)
    requires Ordered(files)
    ensures Ordered(Put(files, f))
    ensures forall g :: g in Put(files, f) <==> g in files || g == f
    ensures f in files ==> Put(files, f) == files
  {
    if files != [] && f != files[0] && !Before(f, files[0]) {
      PutIsSetInsert(files[1..], f);
      var rest := Put(files[1..], f);
      forall j | 0 <= j < |rest| ensures Before(files[0], rest[j]) {
        assert rest[j] in rest;
        if rest[j] in files[1..] {
          var k :| 0 <= k < |files| - 1 && files[1..][k] == rest[j];
          assert files[k + 1] == rest[j];
        }
      }
      assert files == [files[0]] + files[1..];
    }
  }

  /** Where the search for the place of a file ends. */
  lemma {:induction false} PutFrom(files: seq<File>, f: File, i: nat)
    requires i <= |files| && forall j :: 0 <= j < i ==> files[j] != f && !Before(f, files[j])
    requires i < |files| ==> files[i] == f || Before(f, files[i])
    ensures Put(files, f) == if i < |files| && files[i] == f then files else files[..i] + [f] + files[i..]
  {
    hide Before;
    if i > 0 {
      var rest := files[1..];
      PutFrom(rest, f, i - 1);
      assert files == [files[0]] + rest;
      Shifted(files, [f], i);
    } else if files != [] {
      assert files[..0] == [] && files[0..] == files;
    }
  }

  lemma Shifted<T>(s: seq<T>, x: seq<T>, i: nat)
    requires 0 < i <= |s|
    ensures [s[0]] + (s[1..][..i - 1] + x + s[1..][i - 1..]) == s[..i] + x + s[i..]
  {
    assert s[1..][i - 1..] == s[i..];
    assert s[..i] == [s[0]] + s[1..][..i - 1];
  }

  lemma {:induction false} PutLast(files: seq<File>, f: File)
    requires forall g :: g in files ==> Before(g, f)
    ensures Put(files, f) == files + [f]
  {
    if files != [] {
      assert files[0] in files;
      PutLast(files[1..], f);
      assert files == [files[0]] + files[1..];
    }
  }

  // ---- fields on the wire ----

  datatype Field =
    | Comparator(name: Bytes)
    | LogNumber(n: nat)
    | PrevLogNumber(n: nat)
    | NextFileNumber(n: nat)
    | LastSequence(n: nat)
    | CompactPointer(pointer: Pointer)
    | DeletedFile(file: File)
    | AddedFile(added: NewFile)

  predicate KeyFits(key: Bytes) {
    8 <= |key| < UINT32
  }

  /** What a field may hold: levels 0 to 6, 64-bit numbers, keys with room for their trailer. */
  predicate FieldFits(f: Field) {
    match f
    case Comparator(name) => |name| < UINT32
    case LogNumber(n) => n < UINT64
    case PrevLogNumber(n) => n < UINT64
    case NextFileNumber(n) => n < UINT64
    case LastSequence(n) => n < UINT64
    case CompactPointer(p) => p.level < NUM_LEVELS && KeyFits(p.key)
    case DeletedFile(d) => d.level < NUM_LEVELS && d.number < UINT64
    case AddedFile(a) =>
      a.level < NUM_LEVELS && a.number < UINT64 && a.size < UINT64 && KeyFits(a.smallest) && KeyFits(a.largest)
  }

  function Tag(f: Field): nat {
    match f
    case Comparator(_) => TAG_COMPARATOR
    case LogNumber(_) => TAG_LOG_NUMBER
    case PrevLogNumber(_) => TAG_PREV_LOG_NUMBER
    case NextFileNumber(_) => TAG_NEXT_FILE_NUMBER
    case LastSequence(_) => TAG_LAST_SEQUENCE
    case CompactPointer(_) => TAG_COMPACT_POINTER
    case DeletedFile(_) => TAG_DELETED_FILE
    case AddedFile(_) => TAG_NEW_FILE
  }

  function Body(f: Field): Bytes {
    match f
    case Comparator(name) => Slice(name)
    case LogNumber(n) => Varint(n)
    case PrevLogNumber(n) => Varint(n)
    case NextFileNumber(n) => Varint(n)
    case LastSequence(n) => Varint(n)
    case CompactPointer(p) => Varint(p.level) + Slice(p.key)
    case DeletedFile(d) => Varint(d.level) + Varint(d.number)
    case AddedFile(a) => Varint(a.level) + (Varint(a.number) + (Varint(a.size) + (Slice(a.smallest) + Slice(a.largest))))
  }

  function FieldBytes(f: Field): (r: Bytes)
    ensures |r| > 0
  {
    Varint(Tag(f)) + Body(f)
  }

  /** The fields on the wire, byte for byte: those that are one name or number, and those about files. */
  lemma FieldLayout()
    ensures FieldBytes(Comparator([97])) == [1, 1, 97] && FieldBytes(LogNumber(10)) == [2, 10]
    ensures FieldBytes(NextFileNumber(11)) == [3, 11] && FieldBytes(LastSequence(12)) == [4, 12]
    ensures FieldBytes(PrevLogNumber(16)) == [9, 16] && FieldBytes(DeletedFile(File(6, 13))) == [6, 6, 13]
  {
    SmallNumbers();
    hide Varint;
    assert Slice([97]) == [1, 97];
  }

  lemma KeyedFieldLayout(key: Bytes)
    requires |key| == 8
    ensures var slice := [8] + key;
            && FieldBytes(CompactPointer(Pointer(6, key))) == [5, 6] + slice
            && FieldBytes(AddedFile(NewFile(6, 14, 15, key, key))) == [7, 6, 14, 15] + slice + slice
  {
    hide Varint, Slice;
    SmallNumbers();
    SmallSlice(key);
    Spelled([8] + key);
  }

  lemma Spelled(slice: Bytes)
    ensures [5] + ([6] + slice) == [5, 6] + slice
    ensures [7] + ([6] + ([14] + ([15] + (slice + slice)))) == [7, 6, 14, 15] + slice + slice
  {
  }

  lemma SmallSlice(key: Bytes)
    requires |key| == 8
    ensures Slice(key) == [8] + key
  {
  }

  lemma SmallNumbers()
    ensures forall n :: 0 <= n < 128 ==> Varint(n) == [n]
  {
  }

  function AllBytes(fields: seq<Field>): Bytes {
    if fields == [] then [] else FieldBytes(fields[0]) + AllBytes(fields[1..])
  }

  /** ldb_level_slurp. */
  function LevelSlurp(input: Bytes): (r: Option<(nat, Bytes)>)
    ensures r.Some? ==> r.value.0 < NUM_LEVELS && |r.value.1| < |input|
  {
    match Varint32Slurp(input)
    case None => None
    case Some((level, rest)) => if level >= NUM_LEVELS then None else Some((level, rest))
  }

  /** One field off the front of the input. */
  function ReadField(input: Bytes): (r: Option<(Field, Bytes)>)
    ensures r.Some? ==> |r.value.1| < |input|
  {
    match Varint32Slurp(input)
    case None => None
    case Some((tag, rest)) => ReadBody(tag, rest)
  }

  function ReadBody(tag: nat, input: Bytes): (r: Option<(Field, Bytes)>)
    ensures r.Some? ==> |r.value.1| < |input|
  {
    if tag == TAG_COMPARATOR then
      match SliceSlurp(input)
      case None => None
      case Some((name, rest)) => Some((Comparator(name), rest))
    else if tag == TAG_LOG_NUMBER || tag == TAG_PREV_LOG_NUMBER || tag == TAG_NEXT_FILE_NUMBER || tag == TAG_LAST_SEQUENCE then
      match Varint64Slurp(input)
      case None => None
      case Some((n, rest)) =>
        Some((if tag == TAG_LOG_NUMBER then LogNumber(n)
              else if tag == TAG_PREV_LOG_NUMBER then PrevLogNumber(n)
              else if tag == TAG_NEXT_FILE_NUMBER then NextFileNumber(n)
              else LastSequence(n), rest))
    else if tag == TAG_COMPACT_POINTER || tag == TAG_DELETED_FILE || tag == TAG_NEW_FILE then
      match LevelSlurp(input)
      case None => None
      case Some((level, rest)) =>
        if tag == TAG_COMPACT_POINTER then ReadPointer(level, rest)
        else if tag == TAG_DELETED_FILE then ReadDeleted(level, rest)
        else ReadAdded(level, rest)
    else None
  }

  function ReadPointer(level: nat, input: Bytes): (r: Option<(Field, Bytes)>)
    ensures r.Some? ==> |r.value.1| < |input|
  {
    match SliceSlurp(input)
    case None => None
    case Some((key, rest)) => if |key| < 8 then None else Some((CompactPointer(Pointer(level, key)), rest))
  }

  function ReadDeleted(level: nat, input: Bytes): (r: Option<(Field, Bytes)>)
    ensures r.Some? ==> |r.value.1| < |input|
  {
    match Varint64Slurp(input)
    case None => None
    case Some((number, rest)) => Some((DeletedFile(File(level, number)), rest))
  }

  function ReadAdded(level: nat, input: Bytes): (r: Option<(Field, Bytes)>)
    ensures r.Some? ==> |r.value.1| < |input|
  {
    match Varint64Slurp(input)
    case None => None
    case Some((number, rest)) =>
      match Varint64Slurp(rest)
      case None => None
      case Some((size, rest)) =>
        match SliceSlurp(rest)
        case None => None
        case Some((smallest, rest)) =>
          match SliceSlurp(rest)
          case None => None
          case Some((largest, rest)) =>
            if |smallest| < 8 || |largest| < 8 then None
            else Some((AddedFile(NewFile(level, number, size, smallest, largest)), rest))
  }

  lemma LevelReads(level: nat, rest: Bytes)
    requires level < NUM_LEVELS
    ensures LevelSlurp(Varint(level) + rest) == Some((level, rest))
  {
    hide Varint, Varint32Slurp;
    Varint32RoundTrip(level, rest);
  }

  lemma AddedReads(a: NewFile, rest: Bytes)
    requires FieldFits(AddedFile(a))
    ensures ReadAdded(a.level, Varint(a.number) + (Varint(a.size) + (Slice(a.smallest) + (Slice(a.largest) + rest))))
         == Some((AddedFile(a), rest))
  {
    hide Varint, Slice, Varint64Slurp, SliceSlurp;
    Varint64RoundTrip(a.number, Varint(a.size) + (Slice(a.smallest) + (Slice(a.largest) + rest)));
    Varint64RoundTrip(a.size, Slice(a.smallest) + (Slice(a.largest) + rest));
    SliceRoundTrip(a.smallest, Slice(a.largest) + rest);
    SliceRoundTrip(a.largest, rest);
  }

  lemma BodyReads(f: Field, rest: Bytes)
    requires FieldFits(f)
    ensures ReadBody(Tag(f), Body(f) + rest) == Some((f, rest))
  {
    hide Varint, Slice, Varint64Slurp, SliceSlurp, LevelSlurp, ReadAdded;
    match f {
      case Comparator(name) => SliceRoundTrip(name, rest);
      case LogNumber(n) => Varint64RoundTrip(n, rest);
      case PrevLogNumber(n) => Varint64RoundTrip(n, rest);
      case NextFileNumber(n) => Varint64RoundTrip(n, rest);
      case LastSequence(n) => Varint64RoundTrip(n, rest);
      case CompactPointer(p) =>
        assert Body(f) + rest == Varint(p.level) + (Slice(p.key) + rest);
        LevelReads(p.level, Slice(p.key) + rest);
        SliceRoundTrip(p.key, rest);
      case DeletedFile(d) =>
        assert Body(f) + rest == Varint(d.level) + (Varint(d.number) + rest);
        LevelReads(d.level, Varint(d.number) + rest);
        Varint64RoundTrip(d.number, rest);
      case AddedFile(a) =>
        var tail := Varint(a.number) + (Varint(a.size) + (Slice(a.smallest) + (Slice(a.largest) + rest)));
        assert Body(f) + rest == Varint(a.level) + tail;
        LevelReads(a.level, tail);
        AddedReads(a, rest);
    }
  }

  lemma FieldReads(f: Field, rest: Bytes)
    requires FieldFits(f)
    ensures ReadField(FieldBytes(f) + rest) == Some((f, rest))
  {
    hide Varint, Body, ReadBody, Varint32Slurp;
    assert FieldBytes(f) + rest == Varint(Tag(f)) + (Body(f) + rest);
    Varint32RoundTrip(Tag(f), Body(f) + rest);
    BodyReads(f, rest);
  }

  /** Whatever is read fits. */
  lemma ReadFits(input: Bytes)
    requires ReadField(input).Some?
    ensures FieldFits(ReadField(input).value.0)
  {
    hide Varint32Slurp, Varint64Slurp, SliceSlurp;
  }

  // ---- whole edits ----

  function Apply(e: Edit, f: Field): Edit {
    match f
    case Comparator(name) => e.(comparator := Some(name))
    case LogNumber(n) => e.(logNumber := Some(n))
    case PrevLogNumber(n) => e.(prevLogNumber := Some(n))
    case NextFileNumber(n) => e.(nextFile := Some(n))
    case LastSequence(n) => e.(lastSequence := Some(n))
    case CompactPointer(p) => e.(pointers := e.pointers + [p])
    case DeletedFile(d) => e.(deleted := Put(e.deleted, d))
    case AddedFile(a) => e.(files := e.files + [a])
  }

  function ApplyAll(e: Edit, fields: seq<Field>): Edit
    decreases |fields|
  {
    if fields == [] then e else ApplyAll(Apply(e, fields[0]), fields[1..])
  }

  /** What ldb_edit_import makes of some bytes, starting from what it has read so far. */
  function ImportFrom(e: Edit, input: Bytes): Option<Edit>
    decreases |input|
  {
    if input == [] then Some(e)
    else match ReadField(input)
      case None => None
      case Some((f, rest)) => ImportFrom(Apply(e, f), rest)
  }

  function Import(input: Bytes): Option<Edit> {
    ImportFrom(EMPTY, input)
  }

  function Known<T>(x: Option<T>, f: T -> Field): seq<Field> {
    if x.Some? then [f(x.value)] else []
  }

  function Headers(e: Edit): seq<Field> {
    Known(e.comparator, x => Comparator(x)) + Known(e.logNumber, x => LogNumber(x))
    + Known(e.prevLogNumber, x => PrevLogNumber(x)) + Known(e.nextFile, x => NextFileNumber(x))
    + Known(e.lastSequence, x => LastSequence(x))
  }

  function Pointers(ps: seq<Pointer>): seq<Field> {
    seq(|ps|, i requires 0 <= i < |ps| => CompactPointer(ps[i]))
  }

  function Deletions(ds: seq<File>): seq<Field> {
    seq(|ds|, i requires 0 <= i < |ds| => DeletedFile(ds[i]))
  }

  function Additions(fs: seq<NewFile>): seq<Field> {
    seq(|fs|, i requires 0 <= i < |fs| => AddedFile(fs[i]))
  }

  /** The order in which ldb_edit_export writes the fields. */
  function Fields(e: Edit): seq<Field> {
    Headers(e) + Pointers(e.pointers) + Deletions(e.deleted) + Additions(e.files)
  }

  function Export(e: Edit): Bytes {
    AllBytes(Fields(e))
  }

  /** An edit whose fields fit and whose deleted files are a set in order. */
  ghost predicate WellFormed(e: Edit) {
    Ordered(e.deleted) && forall f :: f in Fields(e) ==> FieldFits(f)
  }

  lemma {:induction false} ImportsFields(e: Edit, fields: seq<Field>)
    requires forall f :: f in fields ==> FieldFits(f)
    ensures ImportFrom(e, AllBytes(fields)) == Some(ApplyAll(e, fields))
    decreases |fields|
  {
    hide ReadField, FieldBytes, FieldFits, Apply;
    if fields != [] {
      assert fields[0] in fields;
      FieldReads(fields[0], AllBytes(fields[1..]));
      ImportsFields(Apply(e, fields[0]), fields[1..]);
    }
  }

  lemma {:induction false} ApplyJoin(e: Edit, a: seq<Field>, b: seq<Field>)
    ensures ApplyAll(e, a + b) == ApplyAll(ApplyAll(e, a), b)
    decreases |a|
  {
    hide Apply;
    if a == [] {
      assert a + b == b;
    } else {
      assert (a + b)[1..] == a[1..] + b;
      ApplyJoin(Apply(e, a[0]), a[1..], b);
    }
  }

  lemma {:induction false} ApplyPointers(e: Edit, ps: seq<Pointer>)
    ensures ApplyAll(e, Pointers(ps)) == e.(pointers := e.pointers + ps)
    decreases |ps|
  {
    if ps != [] {
      assert Pointers(ps)[1..] == Pointers(ps[1..]);
      ApplyPointers(e.(pointers := e.pointers + [ps[0]]), ps[1..]);
      assert e.pointers + [ps[0]] + ps[1..] == e.pointers + ps;
    } else {
      assert e.pointers + ps == e.pointers;
    }
  }

  lemma {:induction false} ApplyAdditions(e: Edit, fs: seq<NewFile>)
    ensures ApplyAll(e, Additions(fs)) == e.(files := e.files + fs)
    decreases |fs|
  {
    if fs != [] {
      assert Additions(fs)[1..] == Additions(fs[1..]);
      ApplyAdditions(e.(files := e.files + [fs[0]]), fs[1..]);
      assert e.files + [fs[0]] + fs[1..] == e.files + fs;
    } else {
      assert e.files + fs == e.files;
    }
  }

  lemma {:induction false} ApplyDeletions(e: Edit, ds: seq<File>)
    requires Ordered(e.deleted + ds)
    ensures ApplyAll(e, Deletions(ds)) == e.(deleted := e.deleted + ds)
    decreases |ds|
  {
    if ds != [] {
      var all := e.deleted + ds;
      assert Deletions(ds)[1..] == Deletions(ds[1..]);
      forall g | g in e.deleted ensures Before(g, ds[0]) {
        var i :| 0 <= i < |e.deleted| && e.deleted[i] == g;
        assert all[i] == g && all[|e.deleted|] == ds[0];
      }
      PutLast(e.deleted, ds[0]);
      assert e.deleted + [ds[0]] + ds[1..] == all;
      ApplyDeletions(e.(deleted := e.deleted + [ds[0]]), ds[1..]);
    } else {
      assert e.deleted + ds == e.deleted;
    }
  }

  lemma ApplyHeaders(e: Edit)
    ensures ApplyAll(EMPTY, Headers(e)) == e.(pointers := [], deleted := [], files := [])
  {
    ApplyKnown(EMPTY, e.comparator, x => Comparator(x));
    var a := Known(e.comparator, x => Comparator(x));
    var b := Known(e.logNumber, x => LogNumber(x));
    var c := Known(e.prevLogNumber, x => PrevLogNumber(x));
    var d := Known(e.nextFile, x => NextFileNumber(x));
    var f := Known(e.lastSequence, x => LastSequence(x));
    ApplyJoin(EMPTY, a + b + c + d, f);
    ApplyJoin(EMPTY, a + b + c, d);
    ApplyJoin(EMPTY, a + b, c);
    ApplyJoin(EMPTY, a, b);
    var e1 := EMPTY.(comparator := e.comparator);
    assert ApplyAll(EMPTY, a) == e1;
    var e2 := e1.(logNumber := e.logNumber);
    ApplyKnown(e1, e.logNumber, x => LogNumber(x));
    var e3 := e2.(prevLogNumber := e.prevLogNumber);
    ApplyKnown(e2, e.prevLogNumber, x => PrevLogNumber(x));
    var e4 := e3.(nextFile := e.nextFile);
    ApplyKnown(e3, e.nextFile, x => NextFileNumber(x));
    ApplyKnown(e4, e.lastSequence, x => LastSequence(x));
  }

  lemma ApplyKnown<T>(e: Edit, x: Option<T>, f: T -> Field)
    ensures ApplyAll(e, Known(x, f)) == if x.Some? then Apply(e, f(x.value)) else e
  {
    hide Apply;
    if x.Some? {
      assert Known(x, f)[1..] == [];
    }
  }

  lemma RebuildsEdit(e: Edit)
    requires Ordered(e.deleted)
    ensures ApplyAll(EMPTY, Fields(e)) == e
  {
    hide Headers, Pointers, Deletions, Additions, Apply, ApplyAll, Ordered;
    var h := Headers(e);
    ApplyJoin(EMPTY, h + Pointers(e.pointers) + Deletions(e.deleted), Additions(e.files));
    ApplyJoin(EMPTY, h + Pointers(e.pointers), Deletions(e.deleted));
    ApplyJoin(EMPTY, h, Pointers(e.pointers));
    ApplyHeaders(e);
    var e1 := e.(pointers := [], deleted := [], files := []);
    ApplyPointers(e1, e.pointers);
    assert [] + e.pointers == e.pointers && [] + e.deleted == e.deleted && [] + e.files == e.files;
    ApplyDeletions(e1.(pointers := e.pointers), e.deleted);
    ApplyAdditions(e1.(pointers := e.pointers, deleted := e.deleted), e.files);
  }

  /** An edit that is written reads back as itself. */
  lemma EditRoundTrip(e: Edit)
    requires WellFormed(e)
    ensures Import(Export(e)) == Some(e)
  {
    hide Fields, AllBytes, ApplyAll, FieldFits, Ordered;
    ImportsFields(EMPTY, Fields(e));
    RebuildsEdit(e);
  }

  // ---- what import accepts ----

  ghost predicate PartsFit(e: Edit) {
    && Ordered(e.deleted)
    && (e.comparator.Some? ==> FieldFits(Comparator(e.comparator.value)))
    && (e.logNumber.Some? ==> FieldFits(LogNumber(e.logNumber.value)))
    && (e.prevLogNumber.Some? ==> FieldFits(PrevLogNumber(e.prevLogNumber.value)))
    && (e.nextFile.Some? ==> FieldFits(NextFileNumber(e.nextFile.value)))
    && (e.lastSequence.Some? ==> FieldFits(LastSequence(e.lastSequence.value)))
    && (forall p :: p in e.pointers ==> FieldFits(CompactPointer(p)))
    && (forall d :: d in e.deleted ==> FieldFits(DeletedFile(d)))
    && (forall a :: a in e.files ==> FieldFits(AddedFile(a)))
  }

  lemma PartsAreFields(e: Edit)
    requires PartsFit(e)
    ensures WellFormed(e)
  {
    hide FieldFits, Ordered;
    forall f | f in Fields(e) ensures FieldFits(f) {
      assert f in Headers(e) || f in Pointers(e.pointers) || f in Deletions(e.deleted) || f in Additions(e.files);
    }
  }

  lemma ApplyFits(e: Edit, f: Field)
    requires PartsFit(e) && FieldFits(f)
    ensures PartsFit(Apply(e, f))
  {
    hide FieldFits, Ordered;
    if f.DeletedFile? {
      PutIsSetInsert(e.deleted, f.file);
    }
  }

  lemma {:induction false} ImportFits(e: Edit, input: Bytes)
    requires PartsFit(e) && ImportFrom(e, input).Some?
    ensures PartsFit(ImportFrom(e, input).value)
    decreases |input|
  {
    hide PartsFit, ReadField, Apply, FieldFits;
    if input != [] {
      ReadFits(input);
      var (f, rest) := ReadField(input).value;
      ApplyFits(e, f);
      ImportFits(Apply(e, f), rest);
    }
  }

  /** Whatever bytes import accepts re-export to bytes that import to the same edit. */
  lemma AcceptedReexports(input: Bytes)
    requires Import(input).Some?
    ensures WellFormed(Import(input).value)
    ensures Import(Export(Import(input).value)) == Import(input)
  {
    hide ImportFrom, Export, FieldFits;
    ImportFits(EMPTY, input);
    PartsAreFields(Import(input).value);
    EditRoundTrip(Import(input).value);
  }

  // ---- the edit object ----

  /** ldb_edit_t: the has_ flags are the Some of each field. */
  class EditObject {
    var comparator: Option<Bytes>
    var logNumber: Option<nat>
    var prevLogNumber: Option<nat>
    var nextFile: Option<nat>
    var lastSequence: Option<nat>
    var pointers: seq<Pointer>
    var deleted: seq<File>
    var files: seq<NewFile>

    function Value(): Edit
      reads this
    {
      Edit(comparator, logNumber, prevLogNumber, nextFile, lastSequence, pointers, deleted, files)
    }

    /** ldb_edit_init. */
    constructor ()
      ensures Value() == EMPTY
    {
      comparator, logNumber, prevLogNumber, nextFile, lastSequence := None, None, None, None, None;
      pointers, deleted, files := [], [], [];
    }

    method Reset()
      modifies this
      ensures Value() == EMPTY
    {
      comparator, logNumber, prevLogNumber, nextFile, lastSequence := None, None, None, None, None;
      pointers, deleted, files := [], [], [];
    }

    /** ldb_edit_remove_file. */
    method RemoveFile(level: nat, number: nat)
      requires Ordered(deleted)
      modifies this`deleted
      ensures Ordered(deleted) && deleted == Put(old(deleted), File(level, number))
    {
      hide Ordered, Put;
      var f := File(level, number);
      PutIsSetInsert(deleted, f);
      var i := 0;
      while i < |deleted| && deleted[i] != f && !Before(f, deleted[i])
        invariant i <= |deleted| && forall j :: 0 <= j < i ==> deleted[j] != f && !Before(f, deleted[j])
      {
        i := i + 1;
      }
      PutFrom(deleted, f, i);
      if i < |deleted| && deleted[i] == f {
        return;
      }
      deleted := deleted[..i] + [f] + deleted[i..];
    }

    /** The fields with a has_ flag. */
    method ExportScalars() returns (dst: Bytes)
      ensures dst == AllBytes(Headers(Value()))
    {
      hide Varint, Slice, Headers, AllBytes;
      dst := [];
      ghost var done: seq<Field> := [];
      NoBytes();
      if comparator.Some? {
        NextField(done, Comparator(comparator.value), dst);
        dst := dst + Varint(TAG_COMPARATOR);
        dst := dst + Slice(comparator.value);
      }
      assert done + [] == done;
      done := done + (if comparator.Some? then [Comparator(comparator.value)] else []);
      if logNumber.Some? {
        NextField(done, LogNumber(logNumber.value), dst);
        dst := dst + Varint(TAG_LOG_NUMBER);
        dst := dst + Varint(logNumber.value);
      }
      assert done + [] == done;
      done := done + (if logNumber.Some? then [LogNumber(logNumber.value)] else []);
      if prevLogNumber.Some? {
        NextField(done, PrevLogNumber(prevLogNumber.value), dst);
        dst := dst + Varint(TAG_PREV_LOG_NUMBER);
        dst := dst + Varint(prevLogNumber.value);
      }
      assert done + [] == done;
      done := done + (if prevLogNumber.Some? then [PrevLogNumber(prevLogNumber.value)] else []);
      if nextFile.Some? {
        NextField(done, NextFileNumber(nextFile.value), dst);
        dst := dst + Varint(TAG_NEXT_FILE_NUMBER);
        dst := dst + Varint(nextFile.value);
      }
      assert done + [] == done;
      done := done + (if nextFile.Some? then [NextFileNumber(nextFile.value)] else []);
      if lastSequence.Some? {
        NextField(done, LastSequence(lastSequence.value), dst);
        dst := dst + Varint(TAG_LAST_SEQUENCE);
        dst := dst + Varint(lastSequence.value);
      }
      assert done + [] == done;
      done := done + (if lastSequence.Some? then [LastSequence(lastSequence.value)] else []);
      HeadersAre(Value());
      assert [] + (if comparator.Some? then [Comparator(comparator.value)] else [])
          == (if comparator.Some? then [Comparator(comparator.value)] else []);
    }

    /** ldb_edit_export: what is set of the scalar fields, then the three lists. */
    method ExportTo() returns (dst: Bytes)
      ensures dst == Export(Value())
      ensures WellFormed(Value()) ==> Import(dst) == Some(Value())
    {
      hide Varint, Slice, Headers, Pointers, Deletions, Additions, AllBytes, FieldBytes, WellFormed, Import;
      dst := [];
      dst := ExportScalars();
      ghost var headers := Headers(Value());
      assert headers + [] == headers;
      ListsStart(pointers, deleted, files);
      for i := 0 to |pointers|
        invariant dst == AllBytes(headers + Pointers(pointers[..i]))
      {
        var entry := pointers[i];
        NextField(headers + Pointers(pointers[..i]), CompactPointer(entry), dst);
        ListsGrow(pointers, deleted, files, i);
        assert headers + Pointers(pointers[..i + 1]) == headers + Pointers(pointers[..i]) + [CompactPointer(entry)];
        dst := dst + Varint(TAG_COMPACT_POINTER);
        dst := dst + Varint(entry.level);
        dst := dst + Slice(entry.key);
      }
      ghost var upTo := headers + Pointers(pointers);
      assert pointers[..|pointers|] == pointers && upTo + [] == upTo;
      for i := 0 to |deleted|
        invariant dst == AllBytes(upTo + Deletions(deleted[..i]))
      {
        var entry := deleted[i];
        NextField(upTo + Deletions(deleted[..i]), DeletedFile(entry), dst);
        ListsGrow(pointers, deleted, files, i);
        assert upTo + Deletions(deleted[..i + 1]) == upTo + Deletions(deleted[..i]) + [DeletedFile(entry)];
        dst := dst + Varint(TAG_DELETED_FILE);
        dst := dst + Varint(entry.level);
        dst := dst + Varint(entry.number);
      }
      upTo := upTo + Deletions(deleted);
      assert deleted[..|deleted|] == deleted && upTo + [] == upTo;
      for i := 0 to |files|
        invariant dst == AllBytes(upTo + Additions(files[..i]))
      {
        var entry := files[i];
        NextField(upTo + Additions(files[..i]), AddedFile(entry), dst);
        ListsGrow(pointers, deleted, files, i);
        assert upTo + Additions(files[..i + 1]) == upTo + Additions(files[..i]) + [AddedFile(entry)];
        dst := dst + Varint(TAG_NEW_FILE);
        dst := dst + Varint(entry.level);
        dst := dst + Varint(entry.number);
        dst := dst + Varint(entry.size);
        dst := dst + Slice(entry.smallest);
        dst := dst + Slice(entry.largest);
      }
      assert files[..|files|] == files;
      ExportIs(Value());
      if WellFormed(Value()) {
        EditRoundTrip(Value());
      }
    }

    /** ldb_edit_import. */
    method ImportFromBytes(src: Bytes) returns (ok: bool)
      modifies this
      ensures ok <==> Import(src).Some?
      ensures ok ==> Import(src) == Some(Value())
    {
      hide ReadField, Ordered;
      Reset();
      EmptyIsOrdered();
      var input := src;
      while |input| > 0
        invariant Import(src) == ImportFrom(Value(), input) && Ordered(deleted)
        decreases |input|
      {
        var field := ReadField(input);
        if field.None? {
          return false;
        }
        var (f, rest) := field.value;
        input := rest;
        match f {
          case Comparator(name) => comparator := Some(name);
          case LogNumber(n) => logNumber := Some(n);
          case PrevLogNumber(n) => prevLogNumber := Some(n);
          case NextFileNumber(n) => nextFile := Some(n);
          case LastSequence(n) => lastSequence := Some(n);
          case CompactPointer(p) => pointers := pointers + [p];
          case DeletedFile(d) => RemoveFile(d.level, d.number);
          case AddedFile(a) => files := files + [a];
        }
      }
      return true;
    }
  }

  /** The bytes of one more field, as ldb_edit_export appends them. */
  lemma NextField(done: seq<Field>, f: Field, dst: Bytes)
    requires dst == AllBytes(done)
    ensures var all := AllBytes(done + [f]);
            match f
            case Comparator(name) => dst + Varint(TAG_COMPARATOR) + Slice(name) == all
            case LogNumber(n) => dst + Varint(TAG_LOG_NUMBER) + Varint(n) == all
            case PrevLogNumber(n) => dst + Varint(TAG_PREV_LOG_NUMBER) + Varint(n) == all
            case NextFileNumber(n) => dst + Varint(TAG_NEXT_FILE_NUMBER) + Varint(n) == all
            case LastSequence(n) => dst + Varint(TAG_LAST_SEQUENCE) + Varint(n) == all
            case CompactPointer(p) => dst + Varint(TAG_COMPACT_POINTER) + Varint(p.level) + Slice(p.key) == all
            case DeletedFile(d) => dst + Varint(TAG_DELETED_FILE) + Varint(d.level) + Varint(d.number) == all
            case AddedFile(a) =>
              dst + Varint(TAG_NEW_FILE) + Varint(a.level) + Varint(a.number) + Varint(a.size) + Slice(a.smallest)
              + Slice(a.largest) == all
  {
    hide Varint, Slice, FieldBytes, AllBytes;
    LastField(done, f);
    FieldParts(f, dst);
  }

  lemma LastField(done: seq<Field>, f: Field)
    ensures AllBytes(done + [f]) == AllBytes(done) + FieldBytes(f)
  {
    hide FieldBytes;
    BytesAppend(done, [f]);
    assert [f][1..] == [] && AllBytes([f]) == FieldBytes(f) + [];
  }

  lemma FieldParts(f: Field, dst: Bytes)
    ensures var all := dst + FieldBytes(f);
            match f
            case Comparator(name) => dst + Varint(TAG_COMPARATOR) + Slice(name) == all
            case LogNumber(n) => dst + Varint(TAG_LOG_NUMBER) + Varint(n) == all
            case PrevLogNumber(n) => dst + Varint(TAG_PREV_LOG_NUMBER) + Varint(n) == all
            case NextFileNumber(n) => dst + Varint(TAG_NEXT_FILE_NUMBER) + Varint(n) == all
            case LastSequence(n) => dst + Varint(TAG_LAST_SEQUENCE) + Varint(n) == all
            case CompactPointer(p) => dst + Varint(TAG_COMPACT_POINTER) + Varint(p.level) + Slice(p.key) == all
            case DeletedFile(d) => dst + Varint(TAG_DELETED_FILE) + Varint(d.level) + Varint(d.number) == all
            case AddedFile(a) =>
              dst + Varint(TAG_NEW_FILE) + Varint(a.level) + Varint(a.number) + Varint(a.size) + Slice(a.smallest)
              + Slice(a.largest) == all
  {
    hide Varint, Slice;
    match f {
      case AddedFile(a) =>
        Chain(dst, Varint(TAG_NEW_FILE), Varint(a.level), Varint(a.number), Varint(a.size), Slice(a.smallest) + Slice(a.largest));
      case _ =>
    }
  }

  lemma Chain(d: Bytes, t: Bytes, a: Bytes, b: Bytes, c: Bytes, e: Bytes)
    ensures d + (t + (a + (b + (c + e)))) == d + t + a + b + c + e
  {
    assert d + (t + (a + (b + (c + e)))) == d + t + (a + (b + (c + e)));
    assert d + t + (a + (b + (c + e))) == d + t + a + (b + (c + e));
    assert d + t + a + (b + (c + e)) == d + t + a + b + (c + e);
  }

  lemma {:induction false} BytesAppend(a: seq<Field>, b: seq<Field>)
    ensures AllBytes(a + b) == AllBytes(a) + AllBytes(b)
  {
    hide FieldBytes;
    if a == [] {
      assert a + b == b;
    } else {
      assert (a + b)[1..] == a[1..] + b;
      BytesAppend(a[1..], b);
    }
  }

  lemma NoBytes()
    ensures AllBytes([]) == []
  {
  }

  lemma HeadersAre(e: Edit)
    ensures Headers(e)
         == (if e.comparator.Some? then [Comparator(e.comparator.value)] else [])
            + (if e.logNumber.Some? then [LogNumber(e.logNumber.value)] else [])
            + (if e.prevLogNumber.Some? then [PrevLogNumber(e.prevLogNumber.value)] else [])
            + (if e.nextFile.Some? then [NextFileNumber(e.nextFile.value)] else [])
            + (if e.lastSequence.Some? then [LastSequence(e.lastSequence.value)] else [])
  {
  }

  lemma ListsStart(ps: seq<Pointer>, ds: seq<File>, fs: seq<NewFile>)
    ensures Pointers(ps[..0]) == [] && Deletions(ds[..0]) == [] && Additions(fs[..0]) == []
  {
  }

  lemma ListsGrow(ps: seq<Pointer>, ds: seq<File>, fs: seq<NewFile>, i: nat)
    ensures i < |ps| ==> Pointers(ps[..i + 1]) == Pointers(ps[..i]) + [CompactPointer(ps[i])]
    ensures i < |ds| ==> Deletions(ds[..i + 1]) == Deletions(ds[..i]) + [DeletedFile(ds[i])]
    ensures i < |fs| ==> Additions(fs[..i + 1]) == Additions(fs[..i]) + [AddedFile(fs[i])]
  {
  }

  lemma ExportIs(e: Edit)
    ensures Export(e) == AllBytes(Headers(e) + Pointers(e.pointers) + Deletions(e.deleted) + Additions(e.files))
  {
  }

  lemma EmptyIsOrdered()
    ensures Ordered([])
  {
  }
}
