/** Reading a log back: exactly the records wholly inside the file, however it was cut off. */
module LogReader {
  import opened ByteNumbers
  import opened Crc32c
  import opened Coding
  import opened LogFormat
  import opened Keys

  /** What is left of the file from `at` on may have been cut off, but is otherwise `stream`. */
  ghost predicate Follows(file: Bytes, at: nat, stream: Bytes) {
    at <= |file| && file[at..] <= stream
  }

  lemma FollowsAfter(file: Bytes, at: nat, head: Bytes, rest: Bytes)
    requires Follows(file, at, head + rest) && at + |head| <= |file|
    ensures Follows(file, at + |head|, rest) && file[at..at + |head|] == head
  {
    var n := |file| - at;
    assert file[at..] == (head + rest)[..n];
    assert (head + rest)[..n] == head + rest[..n - |head|];
    assert file[at..][|head|..] == file[at + |head|..];
    assert file[at..][..|head|] == file[at..at + |head|];
  }

  /** What the header of a fragment says, once it is all there. */
  lemma HeaderIs(buffer: Bytes, t: Byte, payload: Bytes, rest: Bytes)
    requires |payload| < 65536 && HEADER_SIZE <= |buffer| && buffer <= Physical(t, payload) + rest
    ensures buffer[6] == t && DecodeFixed16(buffer[4..6]) == |payload|
    ensures HEADER_SIZE + |payload| <= |buffer| ==> buffer[HEADER_SIZE..HEADER_SIZE + |payload|] == payload
    ensures HEADER_SIZE + |payload| <= |buffer|
      ==> Unmask(DecodeFixed32(buffer[..4])) == Checksum(buffer[6..HEADER_SIZE + |payload|])
  {
    hide DecodeFixed32, EncodeFixed32, DecodeFixed16, EncodeFixed16, Mask, Unmask, Checksum;
    var crc := Checksum([t] + payload);
    var whole := EncodeFixed32(Mask(crc)) + EncodeFixed16(|payload|) + [t] + payload + rest;
    assert buffer == whole[..|buffer|];
    assert buffer[..4] == EncodeFixed32(Mask(crc));
    assert buffer[4..6] == EncodeFixed16(|payload|);
    Fixed16RoundTrip(|payload|);
    Fixed32RoundTrip(Mask(crc));
    UnmaskMask(crc);
    if HEADER_SIZE + |payload| <= |buffer| {
      assert buffer[6..HEADER_SIZE + |payload|] == [t] + payload;
    }
  }

  /** The buffer starts with a fragment, as far as it is there. */
  ghost predicate Starts(buffer: Bytes, t: Byte, payload: Bytes) {
    && HEADER_SIZE <= |buffer| && buffer[6] == t != ZERO && DecodeFixed16(buffer[4..6]) == |payload|
    && (HEADER_SIZE + |payload| <= |buffer| ==> buffer[HEADER_SIZE..HEADER_SIZE + |payload|] == payload)
    && (HEADER_SIZE + |payload| <= |buffer| ==> Unmask(DecodeFixed32(buffer[..4])) == Checksum(buffer[6..HEADER_SIZE + |payload|]))
  }

  /** The buffer starts with the fragment that comes next, as far as it is there. */
  lemma FragmentAhead(file: Bytes, at: nat, left: Bytes, begin: bool, tail: Bytes, buffer: Bytes, pos: nat)
    requires Follows(file, at, Frames(at, left, begin) + tail)
    requires at + Padding(at) <= pos <= |file| && buffer == file[at + Padding(at)..pos] && HEADER_SIZE <= |buffer|
    ensures var n := FragmentSize(at, left); Starts(buffer, TypeOf(begin, n == |left|), left[..n])
  {
    hide Padding, Available, FragmentSize, Frames, Physical, Checksum, Unmask, DecodeFixed32, DecodeFixed16, Zeroes;
    var n := FragmentSize(at, left);
    var rest := if n == |left| then [] else Frames(at + Padding(at) + HEADER_SIZE + n, left[n..], false);
    var physical := Physical(TypeOf(begin, n == |left|), left[..n]);
    FramesStep(at, left, begin);
    assert Frames(at, left, begin) + tail == Zeroes(Padding(at)) + (physical + (rest + tail));
    FollowsAfter(file, at, Zeroes(Padding(at)), physical + (rest + tail));
    assert buffer == file[at + Padding(at)..][..|buffer|];
    HeaderIs(buffer, TypeOf(begin, n == |left|), left[..n], rest + tail);
  }

  /** A fragment that is all there has been consumed. */
  lemma FragmentTaken(file: Bytes, at: nat, left: Bytes, begin: bool, tail: Bytes)
    requires Follows(file, at, Frames(at, left, begin) + tail)
    ensures var n, next := FragmentSize(at, left), FragmentEnd(at, left);
      && next <= at + |Frames(at, left, begin)|
      && (n == |left| ==> next == at + |Frames(at, left, begin)|)
      && (n < |left| ==> at + |Frames(at, left, begin)| == next + |Frames(next, left[n..], false)|)
      && (n < |left| && next <= |file| ==> Follows(file, next, Frames(next, left[n..], false) + tail))
  {
    hide Padding, FragmentSize, Frames, Physical, Zeroes;
    var n, next := FragmentSize(at, left), FragmentEnd(at, left);
    FramesStep(at, left, begin);
    var head := Zeroes(Padding(at)) + Physical(TypeOf(begin, n == |left|), left[..n]);
    if n < |left| && next <= |file| {
      assert Frames(at, left, begin) + tail == head + (Frames(next, left[n..], false) + tail);
      FollowsAfter(file, at, head, Frames(next, left[n..], false) + tail);
    }
  }

  lemma TypesDiffer(begin: bool, end: bool)
    ensures TypeOf(begin, end) == FULL <==> begin && end
    ensures TypeOf(begin, end) == FIRST <==> begin && !end
    ensures TypeOf(begin, end) == MIDDLE <==> !begin && !end
    ensures TypeOf(begin, end) == LAST <==> !begin && end
  {
  }

  /** What the reader is about to meet: the first record, or nothing. */
  ghost function Ahead(at: nat, records: seq<Bytes>): (Bytes, bool, Bytes) {
    if records == [] then ([], true, []) else (records[0], true, Written(at + |Frames(at, records[0], true)|, records[1..]))
  }

  lemma StartsAhead(file: Bytes, at: nat, records: seq<Bytes>)
    requires Follows(file, at, Written(at, records))
    ensures var (left, begin, tail) := Ahead(at, records); Follows(file, at, Frames(at, left, begin) + tail)
    ensures records == [] ==> at == |file|
  {
    hide Frames;
  }

  datatype Found = Eof | Bad | Fragment(kind: Byte, payload: Bytes)

  /** Where the fragment the reader is about to meet ends. */
  function FragmentEnd(at: nat, left: Bytes): nat {
    at + Padding(at) + HEADER_SIZE + FragmentSize(at, left)
  }

  class Reader {
    const file: Bytes
    const checksum: bool
    var pos: nat
    var buffer: Bytes
    var eof: bool
    var drops: nat
    ghost var blocks: nat

    ghost predicate Ok()
      reads this
    {
      && |buffer| <= pos <= |file| && buffer == file[pos - |buffer|..pos]
      && BlockEnd(blocks) <= pos - |buffer| + BLOCK_SIZE
      && (if eof then pos == |file| < BlockEnd(blocks) else pos == BlockEnd(blocks))
    }

    /** The position of the first byte not yet consumed. */
    ghost function At(): nat
      requires |buffer| <= pos
      reads this
    {
      pos - |buffer|
    }

    constructor (file: Bytes, checksum: bool)
      ensures Ok() && At() == 0 && drops == 0 && this.file == file && this.checksum == checksum
    {
      hide BlockEnd;
      NextBlockEnd(0);
      this.file, this.checksum := file, checksum;
      pos, buffer, eof, drops, blocks := 0, [], false, 0, 0;
    }

    method ReportCorruption()
      requires Ok()
      modifies this`drops
      ensures Ok() && drops == old(drops) + 1
    {
      drops := drops + 1;
    }

    /** Loads the next block when no header is left in the buffer; false at the end of the file. */
    method Refill() returns (more: bool)
      requires Ok()
      modifies this
      ensures Ok() && drops == old(drops)
      ensures more ==> HEADER_SIZE <= |buffer| && At() == old(At()) + Padding(old(At()))
      ensures more ==> Padding(At()) == 0 && (!eof ==> Available(At()) == |buffer| - HEADER_SIZE)
      ensures !more ==> eof && buffer == [] && |file| < old(At()) + Padding(old(At())) + HEADER_SIZE
    {
      hide Padding, Available, BlockEnd;
      more := true;
      while |buffer| < HEADER_SIZE
        invariant Ok() && drops == old(drops)
        invariant At() == old(At()) || (At() == old(At()) + Padding(old(At())) && Padding(At()) == 0)
        decreases !eof, |buffer| < HEADER_SIZE
      {
        if !eof {
          // too little for a header, with more of the file behind it: padding
          InBlock(blocks, At());
          NextBlockEnd(blocks);
          InBlock(blocks + 1, pos);
          buffer := file[pos..Least(pos + BLOCK_SIZE, |file|)];
          blocks := blocks + 1;
          pos := pos + |buffer|;
          if |buffer| < BLOCK_SIZE {
            eof := true;
          }
        } else {
          // a header cut off by a crash of the writer
          buffer := [];
          return false;
        }
      }
      InBlock(blocks, At());
    }

    method ReadPhysicalRecord(ghost left: Bytes, ghost begin: bool, ghost tail: Bytes) returns (r: Found)
      requires Ok()
      modifies this
      ensures Ok() && (r.Eof? || At() > old(At()))
      ensures Follows(file, old(At()), Frames(old(At()), left, begin) + tail)
        ==> drops == old(drops) && Meets(old(At()), left, begin, r)
    {
      hide Padding, Available, FragmentSize, Frames, Follows, TypeOf, BlockEnd, Starts;
      ghost var at, synced := At(), Follows(file, At(), Frames(At(), left, begin) + tail);
      FragmentSizeIs(at, left);
      var more := Refill();
      if !more {
        return Eof;
      }
      ghost var n := FragmentSize(at, left);
      if synced {
        FragmentAhead(file, at, left, begin, tail, buffer, pos);
      }
      r := ParseFragment(TypeOf(begin, n == |left|), left[..n]);
    }

    /** Takes the fragment at the start of the buffer apart. */
    method ParseFragment(ghost t: Byte, ghost payload: Bytes) returns (r: Found)
      requires Ok() && HEADER_SIZE <= |buffer|
      modifies this`buffer, this`drops
      ensures Ok() && (r.Eof? || At() > old(At())) && (r.Eof? ==> eof && buffer == [])
      ensures old(Starts(buffer, t, payload)) && HEADER_SIZE + |payload| <= old(|buffer|)
        ==> drops == old(drops) && r == Fragment(t, payload) && At() == old(At()) + HEADER_SIZE + |payload|
      ensures old(Starts(buffer, t, payload)) && HEADER_SIZE + |payload| > old(|buffer|) && eof ==> drops == old(drops) && r == Eof
    {
      hide Checksum, Unmask, DecodeFixed32, DecodeFixed16, BlockEnd;
      var length := DecodeFixed16(buffer[4..6]);
      var kind := buffer[6];
      if HEADER_SIZE + length > |buffer| {
        buffer := [];
        if !eof {
          ReportCorruption();
          return Bad;
        }
        // the file ends inside a fragment
        return Eof;
      }
      if kind == ZERO && length == 0 {
        buffer := [];
        return Bad;
      }
      if checksum && Checksum(buffer[6..HEADER_SIZE + length]) != Unmask(DecodeFixed32(buffer[..4])) {
        buffer := [];
        ReportCorruption();
        return Bad;
      }
      r := Fragment(kind, buffer[HEADER_SIZE..HEADER_SIZE + length]);
      buffer := buffer[HEADER_SIZE + length..];
    }

    /** Puts the next record together from its fragments. */
    method ReadRecord(ghost records: seq<Bytes>) returns (record: Option<Bytes>)
      requires Ok()
      modifies this
      ensures Ok() && (record.None? || At() > old(At()))
      ensures Follows(file, old(At()), Written(old(At()), records))
        ==> drops == old(drops) && Returns(old(At()), records, record)
    {
      hide Frames, FragmentSize, Padding, Follows, TypeOf, FragmentEnd, BlockEnd;
      ghost var synced := Follows(file, At(), Written(At(), records));
      ghost var (left, begin, tail) := Ahead(At(), records);
      ghost var finish := At() + |Frames(At(), left, true)|;
      if synced {
        StartsAhead(file, At(), records);
      }
      var scratch, inFragmentedRecord: bool := [], false;
      while true
        invariant Ok() && At() >= old(At())
        invariant inFragmentedRecord ==> At() > old(At())
        invariant synced ==> drops == old(drops) && inFragmentedRecord == !begin && (begin ==> scratch == [])
        invariant synced ==> finish == At() + |Frames(At(), left, begin)| && Follows(file, At(), Frames(At(), left, begin) + tail)
        invariant synced && records != [] ==> records[0] == if begin then left else scratch + left
        decreases |file| - At()
      {
        ghost var at := At();
        var found := ReadPhysicalRecord(left, begin, tail);
        if synced {
          FragmentTaken(file, at, left, begin, tail);
          TypesDiffer(begin, FragmentSize(at, left) == |left|);
          assert left[..|left|] == left;
        }
        match found {
          case Eof =>
            return None;
          case Bad =>
            if inFragmentedRecord {
              ReportCorruption();
              inFragmentedRecord, scratch := false, [];
            }
          case Fragment(kind, payload) =>
            if kind == FULL {
              if inFragmentedRecord && scratch != [] {
                ReportCorruption();
              }
              return Some(payload);
            } else if kind == FIRST {
              if inFragmentedRecord && scratch != [] {
                ReportCorruption();
              }
              scratch, inFragmentedRecord := payload, true;
            } else if kind == MIDDLE {
              if !inFragmentedRecord {
                ReportCorruption();
              } else {
                scratch := scratch + payload;
              }
            } else if kind == LAST {
              if !inFragmentedRecord {
                ReportCorruption();
              } else {
                return Some(scratch + payload);
              }
            } else {
              ReportCorruption();
              inFragmentedRecord, scratch := false, [];
            }
            if synced {
              left, begin := left[FragmentSize(at, left)..], false;
            }
        }
      }
    }

    /** Having been at `at` with `records` to come, the reader has returned `record`. */
    ghost predicate Returns(at: nat, records: seq<Bytes>, record: Option<Bytes>)
      requires |buffer| <= pos
      reads this
    {
      if records != [] && at + |Frames(at, records[0], true)| <= |file|
      then record == Some(records[0]) && At() == at + |Frames(at, records[0], true)|
      else record == None && At() == |file|
    }

    /** Having been at `at` with `left` to come, the reader has found `r`. */
    ghost predicate Meets(at: nat, left: Bytes, begin: bool, r: Found)
      requires |buffer| <= pos
      reads this
    {
      var n := FragmentSize(at, left);
      if FragmentEnd(at, left) <= |file|
      then r == Fragment(TypeOf(begin, n == |left|), left[..n]) && At() == FragmentEnd(at, left)
      else r == Eof && At() == |file|
    }
  }

  /** How many of `records`, logged from position `at` on, end within `size` bytes. */
  function WhollyInside(at: nat, records: seq<Bytes>, size: nat): (k: nat)
    ensures k <= |records|
    decreases records
  {
    if records == [] || at + |Frames(at, records[0], true)| > size then 0
    else 1 + WhollyInside(at + |Frames(at, records[0], true)|, records[1..], size)
  }

  /** It is the largest number of leading records whose bytes all fit. */
  lemma {:induction false} WhollyInsideIs(at: nat, records: seq<Bytes>, size: nat, k: nat)
    requires k <= |records| && at <= size
    ensures at + |Written(at, records[..k])| <= size <==> k <= WhollyInside(at, records, size)
    decreases records
  {
    hide Frames;
    if k > 0 {
      var next := at + |Frames(at, records[0], true)|;
      assert records[..k][1..] == records[1..][..k - 1];
      assert records[..k][0] == records[0];
      if next <= size {
        WhollyInsideIs(next, records[1..], size, k - 1);
      }
    }
  }

  lemma {:induction false} FollowsNext(file: Bytes, at: nat, records: seq<Bytes>)
    requires Follows(file, at, Written(at, records)) && records != [] && at + |Frames(at, records[0], true)| <= |file|
    ensures var next := at + |Frames(at, records[0], true)|; Follows(file, next, Written(next, records[1..]))
  {
    hide Frames;
    var frames := Frames(at, records[0], true);
    FollowsAfter(file, at, frames, Written(at + |frames|, records[1..]));
  }

  /** What is read and what is still to come make up what was logged. */
  ghost predicate InStep(file: Bytes, at: nat, read: seq<Bytes>, rest: seq<Bytes>, records: seq<Bytes>) {
    && Follows(file, at, Written(at, rest)) && read + rest == records
    && WhollyInside(0, records, |file|) == |read| + WhollyInside(at, rest, |file|)
  }

  lemma StartsInStep(file: Bytes, records: seq<Bytes>)
    ensures Follows(file, 0, Written(0, records)) ==> InStep(file, 0, [], records, records)
  {
    assert [] + records == records;
  }

  /** One more record read. */
  lemma StepsOn(file: Bytes, at: nat, read: seq<Bytes>, rest: seq<Bytes>, records: seq<Bytes>)
    requires InStep(file, at, read, rest, records) && rest != [] && at + |Frames(at, rest[0], true)| <= |file|
    ensures InStep(file, at + |Frames(at, rest[0], true)|, read + [rest[0]], rest[1..], records)
  {
    hide Frames, Written, Follows;
    FollowsNext(file, at, rest);
    assert read + [rest[0]] + rest[1..] == read + rest;
  }

  /** Nothing more is wholly inside. */
  lemma StepsEnd(file: Bytes, at: nat, read: seq<Bytes>, rest: seq<Bytes>, records: seq<Bytes>)
    requires InStep(file, at, read, rest, records) && (rest == [] || at + |Frames(at, rest[0], true)| > |file|)
    ensures read == records[..WhollyInside(0, records, |file|)]
  {
    hide Frames, Written, Follows;
  }

  /** Reads a log to its end. From a log cut off anywhere it returns exactly the records wholly
    * inside, and reports nothing lost. */
  method ReadLog(file: Bytes, checksum: bool, ghost records: seq<Bytes>) returns (read: seq<Bytes>, drops: nat)
    ensures file <= Written(0, records) ==> read == records[..WhollyInside(0, records, |file|)] && drops == 0
  {
    hide Frames, Written, Follows, BlockEnd, InStep, WhollyInside;
    read := [];
    var reader := new Reader(file, checksum);
    ghost var rest, synced := records, Follows(file, 0, Written(0, records));
    WholeFile(file, Written(0, records));
    StartsInStep(file, records);
    while true
      invariant reader.Ok() && reader.file == file
      invariant synced ==> reader.drops == 0 && InStep(file, reader.At(), read, rest, records)
      decreases |file| - reader.At()
    {
      ghost var at := reader.At();
      if synced {
        IsFollowed(file, at, read, rest, records);
      }
      var record := reader.ReadRecord(rest);
      if record.None? {
        if synced {
          StepsEnd(file, at, read, rest, records);
        }
        break;
      }
      if synced {
        StepsOn(file, at, read, rest, records);
        rest := rest[1..];
      }
      read := read + [record.value];
    }
    drops := reader.drops;
  }

  lemma IsFollowed(file: Bytes, at: nat, read: seq<Bytes>, rest: seq<Bytes>, records: seq<Bytes>)
    requires InStep(file, at, read, rest, records)
    ensures Follows(file, at, Written(at, rest))
  {
  }

  lemma WholeFile(file: Bytes, stream: Bytes)
    ensures Follows(file, 0, stream) <==> file <= stream
  {
    assert file[0..] == file;
  }

  /** Positions inside the last of `blocks` blocks. */
  lemma InBlock(blocks: nat, at: nat)
    requires BlockEnd(blocks) <= at + BLOCK_SIZE && at <= BlockEnd(blocks)
    ensures var leftover := BlockEnd(blocks) - at;
      && Padding(at) == (if leftover < HEADER_SIZE then leftover else 0)
      && (leftover >= HEADER_SIZE ==> Available(at) == leftover - HEADER_SIZE)
  {
  }
}
