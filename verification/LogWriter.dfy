/** The log writer: fragments a record over 32 KiB blocks (log_writer.c). */
module LogWriter {
  import opened Bytes
  import opened Coding
  import opened LogFormat
  import Crc32c

  const MAX_RECTYPE := 4

  /** The checksum of each type byte alone. */
  ghost predicate TypeSums(sums: seq<Crc32c.Word>) {
    |sums| == MAX_RECTYPE + 1 && forall t: Byte :: t <= MAX_RECTYPE ==> sums[t] == Crc32c.Crc(0, [t])
  }

  /** init_type_crc. */
  method InitTypeCrc() returns (typeCrc: array<Crc32c.Word>)
    ensures fresh(typeCrc) && TypeSums(typeCrc[..])
  {
    hide Crc32c.Crc;
    typeCrc := new Crc32c.Word[MAX_RECTYPE + 1](_ => 0);
    for i := 0 to MAX_RECTYPE + 1
      invariant forall t: Byte :: t < i ==> typeCrc[t] == Crc32c.Crc(0, [t])
    {
      var c: Byte := i;
      typeCrc[i] := Crc32c.Crc(0, [c]);
    }
  }

  /** ldb_fixed32_write. */
  method Fixed32Write(buf: array<Byte>, x: Crc32c.Word)
    requires buf.Length >= 4
    modifies buf
    ensures buf[..4] == Fixed(x, 4) && buf[4..] == old(buf[4..])
  {
    buf[0] := x % 0x100;
    buf[1] := x / 0x100 % 0x100;
    buf[2] := x / 0x1_0000 % 0x100;
    buf[3] := x / 0x100_0000 % 0x100;
    FixedBytes(x);
  }

  lemma FixedBytes(x: Crc32c.Word)
    ensures Fixed(x, 4) == [x % 0x100, x / 0x100 % 0x100, x / 0x1_0000 % 0x100, x / 0x100_0000 % 0x100]
  {
    var y, z := x / 0x100, x / 0x1_0000;
    assert y / 0x100 == z && z / 0x100 == x / 0x100_0000;
    assert Fixed(x, 4) == [x % 0x100] + Fixed(y, 3) && Fixed(y, 3) == [y % 0x100] + Fixed(z, 2);
    assert Fixed(z, 2) == [z % 0x100] + Fixed(z / 0x100, 1) && Fixed(z / 0x100, 1) == [z / 0x100 % 0x100] + [];
  }

  /** A header of these bytes, then the payload, is one physical record. */
  lemma IsPhysical(t: Byte, payload: Bytes, crc: Crc32c.Word, header: Bytes)
    requires |payload| < 0x1_0000 && |header| == HEADER
    requires header[..4] == Fixed(Crc32c.Mask(Crc32c.Crc(crc, payload)), 4) && crc == Crc32c.Crc(0, [t])
    requires header[4] == |payload| % 0x100 && header[5] == |payload| / 0x100 && header[6] == t
    ensures header + payload == Physical(t, payload)
  {
    hide Crc32c.Crc, Crc32c.Mask, Fixed;
    assert header == header[..4] + LengthBytes(|payload|) + [t];
  }

  class LogWriter {
    const typeCrc: array<Crc32c.Word>
    var dst: Bytes          // the file so far, or the part written by this writer
    var blockOffset: nat
    ghost const origin: nat // length of the file when it was opened
    ghost var blocks: nat   // whole blocks before the current one

    ghost predicate Valid()
      reads this, typeCrc
    {
      TypeSums(typeCrc[..]) && blockOffset <= BLOCK && origin + |dst| == blocks * BLOCK + blockOffset
    }

    /** ldb_writer_init: length is 0 for a new file, its size for one that is reopened. */
    constructor (length: nat)
      ensures Valid() && dst == [] && origin == length
    {
      hide TypeSums;
      var sums := InitTypeCrc();
      typeCrc := sums;
      dst := [];
      blockOffset := length % BLOCK;
      origin := length;
      blocks := length / BLOCK;
    }

    /** emit_physical_record. */
    method EmitPhysicalRecord(t: Byte, payload: Bytes)
      requires Valid() && t <= MAX_RECTYPE && blockOffset + HEADER + |payload| <= BLOCK
      modifies this
      ensures Valid()
      ensures dst == old(dst) + Physical(t, payload)
      ensures blockOffset == old(blockOffset) + HEADER + |payload|
    {
      hide Physical, Crc32c.Crc, Crc32c.Mask, Fixed;
      var buf := new Byte[HEADER](_ => 0);
      buf[4] := |payload| % 0x100;
      buf[5] := |payload| / 0x100;
      buf[6] := t;
      ghost var rest := buf[4..];
      var crc := Crc32c.Crc(typeCrc[t], payload);
      crc := Crc32c.Mask(crc);
      Fixed32Write(buf, crc);
      assert buf[4] == rest[0] && buf[5] == rest[1] && buf[6] == rest[2];
      IsPhysical(t, payload, typeCrc[t], buf[..]);
      ghost var before := dst;
      dst := dst + buf[..];
      dst := dst + payload;
      assert dst == before + (buf[..] + payload);
      blockOffset := blockOffset + HEADER + |payload|;
    }

    method SwitchBlock()
      requires Valid()
      modifies this
      ensures Valid()
      ensures dst == old(dst) + Zeroes(Padding(old(blockOffset)))
      ensures blockOffset == Start(old(blockOffset))
    {
      var leftover := BLOCK - blockOffset;
      if leftover < HEADER {
        if leftover > 0 {
          dst := dst + Zeroes(leftover);
        }
        blockOffset := 0;
        blocks := blocks + 1;
      }
    }

    /** ldb_writer_add_record: an empty record still takes one physical record. */
    method AddRecord(slice: Bytes)
      requires Valid()
      modifies this
      ensures Valid()
      ensures dst == old(dst) + Write(origin + |old(dst)|, slice)
    {
      hide Encode, Physical, Zeroes, Write, TypeSums;
      var ptr, left, begin := 0, |slice|, true;
      ghost var goal := dst + Encode(blockOffset, slice, true);
      SameOffset(origin + |dst|, blocks, blockOffset, slice);
      assert slice[0..] == slice;
      while true
        invariant Valid() && ptr + left == |slice| && 0 <= left
        invariant dst + Encode(blockOffset, slice[ptr..], begin) == goal
        decreases left, BLOCK - blockOffset
      {
        ghost var before, offset, rest := dst, blockOffset, slice[ptr..];
        SwitchBlock();
        var avail := BLOCK - blockOffset - HEADER;
        var fragment := if left < avail then left else avail;
        var end := left == fragment;
        var t := if begin && end then FULL else if begin then FIRST else if end then LAST else MIDDLE;
        Slices(slice, ptr, fragment);
        EmitPhysicalRecord(t, slice[ptr..ptr + fragment]);
        assert fragment == Take(offset, rest) && t == FragmentType(begin, fragment == |rest|);
        OneFragment(goal, before, offset, rest, begin, dst);
        ptr := ptr + fragment;
        left := left - fragment;
        begin := false;
        if left == 0 {
          break;
        }
      }
    }
  }

  lemma Slices(s: Bytes, ptr: nat, n: nat)
    requires ptr + n <= |s|
    ensures s[ptr..][..n] == s[ptr..ptr + n] && s[ptr..][n..] == s[ptr + n..]
  {
  }

  /** What is still to be written after one more fragment. */
  lemma OneFragment(goal: Bytes, before: Bytes, offset: nat, rest: Bytes, begin: bool, after: Bytes)
    requires offset <= BLOCK && before + Encode(offset, rest, begin) == goal
    requires var n := Take(offset, rest);
             after == before + Zeroes(Padding(offset)) + Physical(FragmentType(begin, n == |rest|), rest[..n])
    ensures var n := Take(offset, rest);
            && (n == |rest| ==> after == goal)
            && (n < |rest| ==> after + Encode(Start(offset) + HEADER + n, rest[n..], false) == goal)
  {
    hide Encode, Physical, Zeroes, Take, Padding, Start, FragmentType;
    EncodeUnfolds(offset, rest, begin);
  }

  lemma SameOffset(p: nat, blocks: nat, offset: nat, data: Bytes)
    requires offset <= BLOCK && p == blocks * BLOCK + offset
    ensures Encode(offset, data, true) == Write(p, data)
  {
    hide Encode;
    EncodeWraps(data, true);
    assert p % BLOCK == if offset == BLOCK then 0 else offset;
  }

  lemma EncodeUnfolds(offset: nat, data: Bytes, begin: bool)
    requires offset <= BLOCK
    ensures var n := Take(offset, data);
            var here := Zeroes(Padding(offset)) + Physical(FragmentType(begin, n == |data|), data[..n]);
            Encode(offset, data, begin)
              == if n == |data| then here else here + Encode(Start(offset) + HEADER + n, data[n..], false)
  {
    hide Physical, Zeroes;
  }

  /** Writing a list of records lays down exactly the bytes of the format. */
  method WriteAll(w: LogWriter, records: seq<Bytes>)
    requires w.Valid()
    modifies w
    ensures w.Valid()
    ensures w.dst == old(w.dst) + WriteFrom(w.origin + |old(w.dst)|, records)
  {
    hide WriteFrom, Write, TypeSums;
    ghost var p, before := w.origin + |w.dst|, w.dst;
    Empty(p);
    for n := 0 to |records|
      invariant w.Valid() && w.dst == before + WriteFrom(p, records[..n])
    {
      ReopenContinues(p, records[..n], [records[n]]);
      assert records[..n] + [records[n]] == records[..n + 1];
      One(p + |WriteFrom(p, records[..n])|, records[n]);
      w.AddRecord(records[n]);
    }
    assert records[..|records|] == records;
  }

  lemma Empty(p: nat)
    ensures WriteFrom(p, []) == []
  {
  }

  lemma One(p: nat, data: Bytes)
    ensures WriteFrom(p, [data]) == Write(p, data)
  {
    hide Write;
  }
}
