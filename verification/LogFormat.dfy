/** The write-ahead log: records cut into fragments that never cross a 32 KB block, and the
  * reader that puts them together again. */
module LogFormat {
  import opened ByteNumbers
  import opened Crc32c
  import opened Coding

  const BLOCK_SIZE: nat := 32768
  const HEADER_SIZE: nat := 7

  function BlockEnd(blocks: nat): nat {
    blocks * BLOCK_SIZE
  }

  lemma NextBlockEnd(blocks: nat)
    ensures BlockEnd(0) == 0 && BlockEnd(blocks + 1) == BlockEnd(blocks) + BLOCK_SIZE
  {
  }

  const ZERO: Byte := 0
  const FULL: Byte := 1
  const FIRST: Byte := 2
  const MIDDLE: Byte := 3
  const LAST: Byte := 4

  // ---------------------------------------------------------------- what the writer produces

  function TypeOf(begin: bool, end: bool): Byte {
    if begin && end then FULL else if begin then FIRST else if end then LAST else MIDDLE
  }

  /** Checksum of type and payload, length, type, payload. */
  function Physical(t: Byte, payload: Bytes): (b: Bytes)
    requires |payload| < 65536
    ensures |b| == HEADER_SIZE + |payload|
  {
    EncodeFixed32(Mask(Checksum([t] + payload))) + EncodeFixed16(|payload|) + [t] + payload
  }

  /** How many zero bytes fill the block before a header that would not fit. */
  function Padding(at: nat): nat {
    var leftover := BLOCK_SIZE - at % BLOCK_SIZE;
    if leftover < HEADER_SIZE then leftover else 0
  }

  /** The room for payload in the block, at a place where a header fits. */
  function Available(at: nat): int {
    BLOCK_SIZE - at % BLOCK_SIZE - HEADER_SIZE
  }

  function Least(a: nat, b: nat): nat {
    if a < b then a else b
  }

  lemma PaddingFits(at: nat)
    ensures 0 <= Available(at + Padding(at)) < BLOCK_SIZE
    ensures Available(at + Padding(at)) == 0 ==> Padding(at + Padding(at) + HEADER_SIZE) == 0
    ensures Available(at + Padding(at)) == 0 ==> Available(at + Padding(at) + HEADER_SIZE) == BLOCK_SIZE - HEADER_SIZE
  {
  }

  /** The size of the next fragment of `left` written at `at`. */
  function FragmentSize(at: nat, left: Bytes): (n: nat)
    ensures n <= |left| && n < 65536
    ensures n == 0 && left != [] ==> Available(at + Padding(at)) == 0
  {
    PaddingFits(at);
    Least(|left|, Available(at + Padding(at)))
  }

  /** The bytes that log what is left of a record, from position `at` of the file on. */
  function Frames(at: nat, left: Bytes, begin: bool): (b: Bytes)
    ensures |b| >= HEADER_SIZE
    decreases |left|, Available(at + Padding(at)) == 0
  {
    PaddingFits(at);
    var n := FragmentSize(at, left);
    var fragment := Zeroes(Padding(at)) + Physical(TypeOf(begin, n == |left|), left[..n]);
    if n == |left| then fragment else fragment + Frames(at + Padding(at) + HEADER_SIZE + n, left[n..], false)
  }

  /** The bytes that log `records`, from position `at` of the file on. */
  function Written(at: nat, records: seq<Bytes>): Bytes
    decreases records
  {
    if records == [] then [] else
      var frames := Frames(at, records[0], true);
      frames + Written(at + |frames|, records[1..])
  }

  lemma {:induction false} WrittenAppend(at: nat, a: seq<Bytes>, b: seq<Bytes>)
    ensures Written(at, a + b) == Written(at, a) + Written(at + |Written(at, a)|, b)
    decreases a
  {
    hide Frames;
    if a == [] {
      assert a + b == b;
    } else {
      var frames := Frames(at, a[0], true);
      assert (a + b)[1..] == a[1..] + b;
      WrittenAppend(at + |frames|, a[1..], b);
      WrittenFirst(at, a + b);
      WrittenFirst(at, a);
      hide Written;
      assert at + |frames| + |Written(at + |frames|, a[1..])| == at + |Written(at, a)|;
    }
  }

  lemma WrittenFirst(at: nat, records: seq<Bytes>)
    requires records != []
    ensures Written(at, records) == Frames(at, records[0], true) + Written(at + |Frames(at, records[0], true)|, records[1..])
  {
    hide Frames;
  }

  /** One fragment, and what follows it. */
  lemma FramesStep(at: nat, left: Bytes, begin: bool)
    ensures var n := FragmentSize(at, left);
      Frames(at, left, begin) == Zeroes(Padding(at)) + Physical(TypeOf(begin, n == |left|), left[..n])
        + if n == |left| then [] else Frames(at + Padding(at) + HEADER_SIZE + n, left[n..], false)
  {
    hide Physical;
  }

  /** The writer's offset in the block tells where the next header goes. */
  lemma WhereToWrite(offset: nat, at: nat)
    requires offset <= BLOCK_SIZE && offset % BLOCK_SIZE == at % BLOCK_SIZE
    ensures var leftover := BLOCK_SIZE - offset;
      && Padding(at) == (if leftover < HEADER_SIZE then leftover else 0)
      && Available(at + Padding(at)) == BLOCK_SIZE - HEADER_SIZE - (if leftover < HEADER_SIZE then 0 else offset)
      && (leftover < HEADER_SIZE ==> (at + leftover) % BLOCK_SIZE == 0)
  {
  }

  lemma FragmentSizeIs(at: nat, left: Bytes)
    ensures 0 <= Available(at + Padding(at)) < BLOCK_SIZE
    ensures FragmentSize(at, left) == Least(|left|, Available(at + Padding(at)))
  {
    PaddingFits(at);
  }

  // ---------------------------------------------------------------- the writer

  class Writer {
    var dest: Bytes
    var blockOffset: nat

    ghost predicate Ok()
      reads this
    {
      blockOffset <= BLOCK_SIZE && blockOffset % BLOCK_SIZE == |dest| % BLOCK_SIZE
    }

    /** Goes on at the end of a file, which may hold records already. */
    constructor (dest: Bytes)
      ensures Ok() && this.dest == dest
    {
      this.dest := dest;
      blockOffset := |dest| % BLOCK_SIZE;
    }

    /** Where no header fits any more, fills the block with zeroes and starts the next. */
    method FillTrailer()
      requires Ok()
      modifies this
      ensures Ok() && dest == old(dest) + Zeroes(Padding(|old(dest)|))
      ensures BLOCK_SIZE - blockOffset - HEADER_SIZE == Available(|old(dest)| + Padding(|old(dest)|)) >= 0
    {
      hide Padding, Available, Zeroes;
      WhereToWrite(blockOffset, |dest|);
      PaddingFits(|dest|);
      var leftover := BLOCK_SIZE - blockOffset;
      if leftover < HEADER_SIZE {
        dest := dest + Zeroes(leftover);
        blockOffset := 0;
      } else {
        assert Zeroes(0) == [];
      }
    }

    method AddRecord(record: Bytes)
      requires Ok()
      modifies this
      ensures Ok() && dest == old(dest) + Frames(|old(dest)|, record, true)
    {
      hide Physical, Frames, Padding, Available, FragmentSize, Zeroes, TypeOf, Ok;
      var left, begin, end := record, true, false;
      ghost var whole := dest + Frames(|dest|, record, true);
      while !end
        invariant Ok()
        invariant whole == dest + (if end then [] else Frames(|dest|, left, begin))
        decreases if end then 0 else 1, |left|, Available(|dest| + Padding(|dest|)) == 0
      {
        ghost var at, before := |dest|, dest;
        PaddingFits(at);
        FragmentSizeIs(at, left);
        FramesStep(at, left, begin);
        FillTrailer();
        var avail := BLOCK_SIZE - blockOffset - HEADER_SIZE;
        var length := if |left| < avail then |left| else avail;
        end := |left| == length;
        EmitPhysicalRecord(TypeOf(begin, end), left[..length]);
        Regrouped(before, Zeroes(Padding(at)), Physical(TypeOf(begin, end), left[..length]),
          if end then [] else Frames(at + Padding(at) + HEADER_SIZE + length, left[length..], false));
        left, begin := left[length..], false;
      }
    }

    method EmitPhysicalRecord(t: Byte, payload: Bytes)
      requires Ok() && blockOffset + HEADER_SIZE + |payload| <= BLOCK_SIZE
      modifies this
      ensures Ok() && dest == old(dest) + Physical(t, payload)
    {
      hide Extended, Mask, EncodeFixed32, EncodeFixed16;
      // the checksum of the type is extended by the payload
      ExtendComposes(Word(0), [t], payload);
      var crc := Extended(Checksum([t]), payload);
      var header := EncodeFixed32(Mask(crc)) + EncodeFixed16(|payload|) + [t];
      assert Physical(t, payload) == header + payload;
      Regrouped(dest, header, payload, []);
      dest := dest + header;
      dest := dest + payload;
      blockOffset := blockOffset + HEADER_SIZE + |payload|;
    }
  }

  /** Logs records one after another, at the end of what the file holds already. */
  method AddRecords(w: Writer, records: seq<Bytes>)
    requires w.Ok()
    modifies w
    ensures w.Ok() && w.dest == old(w.dest) + Written(|old(w.dest)|, records)
  {
    hide Frames, Writer.Ok;
    ghost var before := w.dest;
    assert records[..0] == [];
    for i := 0 to |records|
      invariant w.Ok() && w.dest == before + Written(|before|, records[..i])
    {
      w.AddRecord(records[i]);
      assert records[..i + 1] == records[..i] + [records[i]];
      WrittenAppend(|before|, records[..i], [records[i]]);
      WrittenOne(|before| + |Written(|before|, records[..i])|, records[i]);
    }
    assert records[..|records|] == records;
  }

  lemma WrittenOne(at: nat, record: Bytes)
    ensures Written(at, [record]) == Frames(at, record, true)
  {
    hide Frames;
    assert [record][1..] == [];
  }

  lemma Regrouped(a: Bytes, b: Bytes, c: Bytes, d: Bytes)
    ensures a + (b + c + d) == (a + b + c) + d
    ensures a + (b + c) == a + b + c
  {
  }
}
