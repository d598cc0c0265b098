/** The formats on small examples, byte by byte. Round trips leave open which bytes stand for
  * what; other programs read these files and messages, so the bytes themselves matter. */
module KnownBytes {
  import opened ByteNumbers
  import opened Keys
  import opened Coding
  import opened Crc32c
  import ErrorDetection
  import LogFormat
  import WriteBatches
  import EditCodec
  import TableFormat
  import TableLayout
  import FilterBlock
  import opened BlockFormat

  // ---------------------------------------------------------------- integers

  lemma LastGroup(n: nat)
    requires n < 128
    ensures EncodeVarint(n) == [n as Byte]
  {
  }

  lemma FirstGroup(lo: nat, n: nat)
    requires lo < 128 && n > 0
    ensures EncodeVarint(lo + 128 * n) == [(lo + 128) as Byte] + EncodeVarint(n)
  {
    assert (lo + 128 * n) % 128 == lo && (lo + 128 * n) / 128 == n;
  }

  /** Seven bits a byte, the lowest first. */
  lemma Varints()
    ensures EncodeVarint(1) == [0x01] && EncodeVarint(127) == [0x7f]
    ensures EncodeVarint(128) == [0x80, 0x01] && EncodeVarint(300) == [0xac, 0x02]
    ensures EncodeVarint(16384) == [0x80, 0x80, 0x01]
  {
    hide EncodeVarint;
    LastGroup(1);
    LastGroup(2);
    LastGroup(127);
    FirstGroup(0, 1);
    FirstGroup(44, 2);
    FirstGroup(0, 128);
  }

  lemma TwoBytes(lo: nat, hi: nat)
    requires lo < 256 && hi < 256
    ensures EncodeFixed16(lo + 256 * hi) == [lo as Byte, hi as Byte]
  {
    assert (lo + 256 * hi) % 256 == lo && (lo + 256 * hi) / 256 == hi;
  }

  lemma FourBytes(a: nat, b: nat, c: nat, d: nat)
    requires a < 256 && b < 256 && c < 256 && d < 256
    ensures EncodeLength(a + 256 * b + 65536 * (c + 256 * d)) == [a as Byte, b as Byte, c as Byte, d as Byte]
  {
    hide EncodeFixed16;
    var lo, hi := a + 256 * b, c + 256 * d;
    assert (lo + 65536 * hi) % 65536 == lo && (lo + 65536 * hi) / 65536 == hi;
    TwoBytes(a, b);
    TwoBytes(c, d);
  }

  lemma EightBytes(lo: nat, hi: nat)
    requires lo < LIMIT32 && hi < LIMIT32
    ensures EncodeFixed64(lo + LIMIT32 * hi) == EncodeLength(lo) + EncodeLength(hi)
  {
    hide EncodeLength;
    assert (lo + LIMIT32 * hi) % LIMIT32 == lo && (lo + LIMIT32 * hi) / LIMIT32 == hi;
  }

  /** The least significant byte comes first. */
  lemma FixedWidths()
    ensures EncodeFixed16(0x0102) == [0x02, 0x01]
    ensures EncodeLength(0x0102_0304) == [0x04, 0x03, 0x02, 0x01]
    ensures EncodeFixed64(0x0102_0304_0506_0708) == [0x08, 0x07, 0x06, 0x05, 0x04, 0x03, 0x02, 0x01]
  {
    hide EncodeFixed16, EncodeLength, EncodeFixed64;
    TwoBytes(2, 1);
    FourBytes(4, 3, 2, 1);
    FourBytes(8, 7, 6, 5);
    EightBytes(0x0506_0708, 0x0102_0304);
  }

  /** Also where the number is a machine word; a string comes behind its length. */
  lemma WordsAndStrings()
    ensures EncodeFixed32(Word(0x0102_0304)) == [0x04, 0x03, 0x02, 0x01]
    ensures Prefixed([0x61, 0x62]) == [0x02, 0x61, 0x62]
  {
    assert EncodeVarint(2) == [0x02];
  }

  /** The checksum of the digits, masked. */
  lemma Masked()
    ensures Mask(Word(0xe306_9283)) == Word(0xc78a_b0e5)
    ensures EncodeFixed32(Mask(Checksum(ErrorDetection.DIGITS))) == [0xe5, 0xb0, 0x8a, 0xc7]
  {
    ErrorDetection.ChecksumOfDigits();
    hide Checksum;
  }

  // ---------------------------------------------------------------- the log

  lemma ChecksumOfOne(data: Bytes, a: Word)
    requires |data| == 1 && ZeroByte(ONES.Xor(Place(data[0], 0))) == a
    ensures Checksum(data) == a.Xor(ONES)
  {
    hide ZeroByte, Place;
    assert data[1..] == [] && Remainder(a, []) == a;
    assert Remainder(ONES, data) == Remainder(a, data[1..]);
    assert Word(0).Xor(ONES) == ONES;
  }

  lemma ChecksumOfTwo(data: Bytes, a: Word, b: Word)
    requires |data| == 2 && ZeroByte(ONES.Xor(Place(data[0], 0))) == a && ZeroByte(a.Xor(Place(data[1], 0))) == b
    ensures Checksum(data) == b.Xor(ONES)
  {
    hide ZeroByte, Place;
    assert data[1..] == [data[1]] && [data[1]][1..] == [];
    assert Word(0).Xor(ONES) == ONES;
    assert Remainder(a, [data[1]]) == b;
  }

  /** The record "a": masked checksum of type and payload, length, type, payload. */
  lemma LogRecord()
    ensures LogFormat.Physical(LogFormat.FULL, [0x61]) == [0xb5, 0xcd, 0x0b, 0xa2, 0x01, 0x00, 0x01, 0x61]
  {
    ChecksumOfTwo([0x01, 0x61], Word(0x5fe9_2fad), Word(0x8e91_003b));
    hide Checksum, EncodeFixed16;
    assert [0x01] + [0x61] == [0x01, 0x61];
    assert Mask(Word(0x716e_ffc4)) == Word(0xa20b_cdb5);
    TwoBytes(1, 0);
  }

  lemma OneFragment(at: nat, padding: nat, payload: Bytes, begin: bool)
    requires LogFormat.Padding(at) == padding && |payload| <= LogFormat.Available(at + padding)
    ensures LogFormat.Frames(at, payload, begin) == Zeroes(padding) + LogFormat.Physical(if begin then 1 else 4, payload)
  {
    hide LogFormat.Physical, LogFormat.Frames, LogFormat.FragmentSize, LogFormat.Padding, LogFormat.Available;
    LogFormat.FramesStep(at, payload, begin);
    LogFormat.FragmentSizeIs(at, payload);
    assert payload[..|payload|] == payload;
  }

  lemma NearBlockEnd(n: nat)
    requires n <= 32761
    ensures LogFormat.Padding(32763) == 5 && LogFormat.Available(32768) == 32761
    ensures LogFormat.Padding(32761 - n) == 0 && LogFormat.Available(32761 - n) == n
  {
  }

  /** Fewer than seven bytes before the end of a 32 KB block are zeros. */
  lemma LogPadding(payload: Bytes)
    requires |payload| <= 32761
    ensures LogFormat.Frames(32763, payload, true) == [0, 0, 0, 0, 0] + LogFormat.Physical(1, payload)
  {
    hide LogFormat.Physical, LogFormat.Frames, LogFormat.Padding, LogFormat.Available;
    NearBlockEnd(0);
    OneFragment(32763, 5, payload, true);
    assert Zeroes(5) == [0, 0, 0, 0, 0];
  }

  /** A record that just fits is not cut. */
  lemma LogFullBlock(payload: Bytes)
    requires |payload| <= 32761
    ensures LogFormat.Frames(32761 - |payload|, payload, true) == LogFormat.Physical(1, payload)
  {
    hide LogFormat.Physical, LogFormat.Frames, LogFormat.Padding, LogFormat.Available;
    NearBlockEnd(|payload|);
    OneFragment(32761 - |payload|, 0, payload, true);
    assert Zeroes(0) == [];
  }

  lemma BlockStart(blocks: nat)
    ensures LogFormat.Padding(32768 * blocks) == 0 && LogFormat.Available(32768 * blocks) == 32761
  {
  }

  /** From the start of a block on, what does not fit is cut after 32761 bytes. */
  lemma WholeBlock(at: nat, left: Bytes, begin: bool)
    requires LogFormat.Padding(at) == 0 && LogFormat.Available(at) == 32761 && |left| > 32761
    ensures LogFormat.Frames(at, left, begin)
      == LogFormat.Physical(if begin then 2 else 3, left[..32761]) + LogFormat.Frames(at + 32768, left[32761..], false)
  {
    hide LogFormat.Physical, LogFormat.Frames, LogFormat.FragmentSize, LogFormat.Padding, LogFormat.Available;
    LogFormat.FramesStep(at, left, begin);
    LogFormat.FragmentSizeIs(at, left);
    assert Zeroes(0) == [];
  }

  /** A record longer than two blocks has a first, a middle and a last fragment. */
  lemma LogFragments(record: Bytes)
    requires |record| == 65523
    ensures LogFormat.Frames(0, record, true)
      == LogFormat.Physical(2, record[..32761]) + (LogFormat.Physical(3, record[32761..65522]) + LogFormat.Physical(4, record[65522..]))
  {
    hide LogFormat.Physical, LogFormat.Frames, LogFormat.Padding, LogFormat.Available;
    BlockStart(0);
    BlockStart(1);
    BlockStart(2);
    WholeBlock(0, record, true);
    WholeBlock(32768, record[32761..], false);
    InTwoParts(record, 32761, 32761);
    OneFragment(65536, 0, record[65522..], false);
    assert Zeroes(0) == [];
  }

  lemma InTwoParts(b: Bytes, i: nat, n: nat)
    requires i + n <= |b|
    ensures b[i..][..n] == b[i..i + n] && b[i..][n..] == b[i + n..]
  {
  }

  // ---------------------------------------------------------------- keys and batches

  /** User key, kind in the lowest byte, sequence number above it. */
  lemma InternalKeys()
    ensures TableFormat.KeyBytes(TableFormat.ByteKey([0x61], 0x0203, Put)) == [0x61, 0x01, 0x03, 0x02, 0, 0, 0, 0, 0]
    ensures TableFormat.KeyBytes(TableFormat.ByteKey([0x61], 0x0203, Deletion)) == [0x61, 0x00, 0x03, 0x02, 0, 0, 0, 0, 0]
  {
    hide EncodeLength, EncodeFixed64;
    EightBytes(0x0002_0301, 0);
    EightBytes(0x0002_0300, 0);
    FourBytes(1, 3, 2, 0);
    FourBytes(0, 3, 2, 0);
    FourBytes(0, 0, 0, 0);
  }

  lemma ShortStrings()
    ensures Prefixed([0x6b]) == [0x01, 0x6b] && Prefixed([0x76, 0x77]) == [0x02, 0x76, 0x77]
  {
    hide EncodeVarint;
    LastGroup(1);
    LastGroup(2);
  }

  /** Operations: a tag, then the key and for a value the value, each behind its length. */
  lemma BatchOperations()
    ensures WriteBatches.EncodeOps([WriteBatches.Put([0x6b], [0x76, 0x77]), WriteBatches.Delete([0x6b])])
      == [0x01, 0x01, 0x6b, 0x02, 0x76, 0x77, 0x00, 0x01, 0x6b]
  {
    hide EncodeVarint;
    ShortStrings();
    hide Prefixed;
    var put, del := WriteBatches.Put([0x6b], [0x76, 0x77]), WriteBatches.Delete([0x6b]);
    WriteBatches.EncodeOpsConcat([put], [del]);
    WriteBatches.EncodeOne(put);
    WriteBatches.EncodeOne(del);
    assert [put] + [del] == [put, del];
  }

  /** A whole batch: sequence number, count, operations. */
  method BatchBytes() returns (rep: Bytes)
    ensures rep == [0x07, 0, 0, 0, 0, 0, 0, 0] + [0x02, 0, 0, 0] + [0x01, 0x01, 0x6b, 0x02, 0x76, 0x77, 0x00, 0x01, 0x6b]
  {
    hide EncodeLength, EncodeFixed64, DecodeLength, DecodeFixed64, WriteBatches.EncodeOps;
    var b := new WriteBatches.WriteBatch();
    b.Put([0x6b], [0x76, 0x77]);
    b.Delete([0x6b]);
    assert b.ops == [WriteBatches.Put([0x6b], [0x76, 0x77]), WriteBatches.Delete([0x6b])];
    ghost var before := b.rep;
    b.SetSequence(7);
    rep := b.rep;
    BatchOperations();
    HeaderBytes();
    InThree(before);
  }

  lemma HeaderBytes()
    ensures EncodeFixed64(7) == [0x07, 0, 0, 0, 0, 0, 0, 0] && EncodeLength(2) == [0x02, 0, 0, 0]
  {
    hide EncodeLength, EncodeFixed64;
    EightBytes(7, 0);
    FourBytes(7, 0, 0, 0);
    FourBytes(0, 0, 0, 0);
    FourBytes(2, 0, 0, 0);
  }

  lemma InThree(rep: Bytes)
    requires |rep| >= 12
    ensures rep[8..] == rep[8..12] + rep[12..]
  {
  }

  // ---------------------------------------------------------------- the descriptor

  /** Every field of an edit under its tag. */
  lemma EditNumbers()
    ensures EditCodec.EncodeField(EditCodec.LogNumber(5)) == [0x02, 0x05]
    ensures EditCodec.EncodeField(EditCodec.NextFileNumber(6)) == [0x03, 0x06]
    ensures EditCodec.EncodeField(EditCodec.LastSequence(7)) == [0x04, 0x07]
    ensures EditCodec.EncodeField(EditCodec.DeletedFile(3, 8)) == [0x06, 0x03, 0x08]
    ensures EditCodec.EncodeField(EditCodec.PrevLogNumber(4)) == [0x09, 0x04]
  {
    SmallNumbers();
    hide EncodeVarint;
  }

  lemma EditStrings()
    ensures EditCodec.EncodeField(EditCodec.Comparator([0x61])) == [0x01, 0x01, 0x61]
    ensures EditCodec.EncodeField(EditCodec.CompactPointer(2, [0x61])) == [0x05, 0x02, 0x01, 0x61]
  {
    SmallNumbers();
    SmallStrings();
    hide EncodeVarint, Prefixed;
  }

  lemma EditNewFile()
    ensures EditCodec.EncodeField(EditCodec.NewFile(1, EditCodec.FileMetaData(9, 10, [0x61], [0x62, 0x63])))
      == [0x07, 0x01, 0x09, 0x0a] + [0x01, 0x61] + [0x02, 0x62, 0x63]
  {
    SmallNumbers();
    SmallStrings();
    hide EncodeVarint, Prefixed;
    assert [0x07] + [0x01] + [0x09] + [0x0a] == [0x07, 0x01, 0x09, 0x0a];
  }

  lemma SmallStrings()
    ensures Prefixed([0x61]) == [0x01, 0x61] && Prefixed([0x62, 0x63]) == [0x02, 0x62, 0x63]
  {
    LastGroup(1);
    LastGroup(2);
    hide EncodeVarint;
  }

  /** The order in which an edit writes its fields. */
  lemma EditOrder()
    ensures var f := EditCodec.FileMetaData(9, 10, [0x61], [0x62]);
      EditCodec.FieldsOf(EditCodec.Contents(Some([0x63]), Some(5), Some(4), Some(6), Some(7), [(2, [0x61])], {(3, 8)}, [(1, f)]), [(3, 8)])
        == [EditCodec.Comparator([0x63]), EditCodec.LogNumber(5), EditCodec.PrevLogNumber(4), EditCodec.NextFileNumber(6), EditCodec.LastSequence(7),
            EditCodec.CompactPointer(2, [0x61]), EditCodec.DeletedFile(3, 8), EditCodec.NewFile(1, f)]
  {
  }

  lemma SmallNumbers()
    ensures EncodeVarint(1) == [0x01] && EncodeVarint(2) == [0x02] && EncodeVarint(3) == [0x03] && EncodeVarint(4) == [0x04]
    ensures EncodeVarint(5) == [0x05] && EncodeVarint(6) == [0x06] && EncodeVarint(7) == [0x07] && EncodeVarint(8) == [0x08]
    ensures EncodeVarint(9) == [0x09] && EncodeVarint(10) == [0x0a]
  {
    hide EncodeVarint;
    LastGroup(1);
    LastGroup(2);
    LastGroup(3);
    LastGroup(4);
    LastGroup(5);
    LastGroup(6);
    LastGroup(7);
    LastGroup(8);
    LastGroup(9);
    LastGroup(10);
  }

  // ---------------------------------------------------------------- tables

  /** The index block's handle comes second, the magic number last, its low half first. */
  lemma FooterBytes()
    ensures TableLayout.EncodeFooter(TableLayout.Handle(1, 2), TableLayout.Handle(3, 4))
      == [0x01, 0x02, 0x03, 0x04] + Zeroes(36) + [0x57, 0xfb, 0x80, 0x8b, 0x24, 0x75, 0x47, 0xdb]
  {
    hide EncodeLength, TableLayout.EncodeHandle;
    SmallHandle(1, 2);
    SmallHandle(3, 4);
    HandlesTogether(TableLayout.Handle(1, 2), TableLayout.Handle(3, 4));
    MagicHalves();
  }

  lemma MagicHalves()
    ensures EncodeLength(TableLayout.MAGIC % LIMIT32) == [0x57, 0xfb, 0x80, 0x8b] && EncodeLength(TableLayout.MAGIC / LIMIT32) == [0x24, 0x75, 0x47, 0xdb]
  {
    hide EncodeLength;
    FourBytes(0x57, 0xfb, 0x80, 0x8b);
    FourBytes(0x24, 0x75, 0x47, 0xdb);
    assert TableLayout.MAGIC % LIMIT32 == 0x8b80_fb57 && TableLayout.MAGIC / LIMIT32 == 0xdb47_7524;
  }

  lemma HandlesTogether(a: TableLayout.Handle, b: TableLayout.Handle)
    requires TableLayout.EncodeHandle(a) == [0x01, 0x02] && TableLayout.EncodeHandle(b) == [0x03, 0x04]
    ensures TableLayout.EncodeHandle(a) + TableLayout.EncodeHandle(b) == [0x01, 0x02, 0x03, 0x04]
  {
    hide TableLayout.EncodeHandle;
  }

  lemma SmallHandle(offset: nat, size: nat)
    requires offset < 128 && size < 128
    ensures TableLayout.EncodeHandle(TableLayout.Handle(offset, size)) == [offset as Byte, size as Byte]
  {
    hide EncodeVarint;
    LastGroup(offset);
    LastGroup(size);
  }

  /** Behind a block its type, no compression, and the masked checksum of both. */
  lemma TrailerBytes()
    ensures TableLayout.Trailer([]) == [0x00, 0xd2, 0x8f, 0x25, 0x49]
  {
    ChecksumOfOne([0x00], Word(0xad82_acae));
    ExtendComposes(Word(0), [], [TableLayout.NO_COMPRESSION]);
    hide Checksum, Extended;
    assert [] + [TableLayout.NO_COMPRESSION] == [0x00];
    assert Mask(Word(0x527d_5351)) == Word(0x4925_8fd2);
  }

  /** Filters, where each begins, where those numbers begin, and the base-2 logarithm of 2 KB. */
  lemma FilterBlockBytes()
    ensures FilterBlock.Finished(FilterBlock.Filters([], [])) == [0, 0, 0, 0, 0x0b]
    ensures FilterBlock.Finished(FilterBlock.Filters([0xa1, 0xa2, 0xa3], [0, 2])) == [0xa1, 0xa2, 0xa3, 0, 0, 0, 0, 2, 0, 0, 0, 3, 0, 0, 0, 0x0b]
  {
    hide EncodeLength;
    FourBytes(0, 0, 0, 0);
    FourBytes(2, 0, 0, 0);
    FourBytes(3, 0, 0, 0);
    assert [0, 2][..1] == [0] && [0][..0] == [];
    assert EncodeLengths([0]) == EncodeLengths([]) + EncodeLength(0);
    assert EncodeLengths([0, 2]) == EncodeLengths([0]) + EncodeLength(2);
  }

  const FIRST_PAIR := KeyValue([0x61], [0x31])
  const SECOND_PAIR := KeyValue([0x61, 0x62], [0x32])

  /** Lengths of what is shared, of the rest of the key and of the value, then the bytes. */
  lemma EntriesOfTwo()
    ensures EntryBytes(0, FIRST_PAIR) == [0x00, 0x01, 0x01, 0x61, 0x31]
    ensures EntryBytes(1, SECOND_PAIR) == [0x01, 0x01, 0x01, 0x62, 0x32]
  {
    LastGroup(0);
    LastGroup(1);
    hide EncodeVarint;
  }

  lemma LayoutOfTwo(buffer: Bytes, l: Layout)
    requires Built(buffer, l, 16, 2) && l.pairs == [FIRST_PAIR, SECOND_PAIR]
    ensures |l.shared| == 2 && |l.pos| == 3 && Pointed(l)
    ensures l.points == [0] && l.shared == [0, 1]
  {
    hide Packed, Pointed;
    PackedIs(buffer, l);
    PointsBelow(l);
    assert |l.points| == 1;
    CommonPrefixIs(FIRST_PAIR.key, SECOND_PAIR.key, 1);
    assert l.shared[0] == LeftOut(l, 0) && l.shared[1] == LeftOut(l, 1);
  }

  lemma BufferOfTwo(buffer: Bytes, l: Layout)
    requires Built(buffer, l, 16, 2) && l.pairs == [FIRST_PAIR, SECOND_PAIR]
    ensures |l.shared| == 2 && |l.pos| == 3 && Pointed(l)
    ensures buffer == [0x00, 0x01, 0x01, 0x61, 0x31] + [0x01, 0x01, 0x01, 0x62, 0x32] && Restarts(l) == [0]
  {
    LayoutOfTwo(buffer, l);
    EntriesOfTwo();
    hide EntryBytes, Spaced;
    assert EntryAt(buffer, l, 0) && EntryAt(buffer, l, 1);
    assert buffer == buffer[..l.pos[1]] + buffer[l.pos[1]..l.pos[2]];
  }

  /** A block of two pairs: entries, where they are restarted, how often. */
  method BlockBytes() returns (contents: Bytes)
    ensures contents == [0x00, 0x01, 0x01, 0x61, 0x31] + [0x01, 0x01, 0x01, 0x62, 0x32] + [0, 0, 0, 0] + [1, 0, 0, 0]
  {
    hide Built, EncodeLength, Restarts;
    var b := new BlockBuilder(16);
    b.Add(FIRST_PAIR.key, FIRST_PAIR.value);
    b.Add(SECOND_PAIR.key, SECOND_PAIR.value);
    assert b.layout.pairs == [FIRST_PAIR, SECOND_PAIR];
    TwoSinceRestart(b.buffer, b.layout, b.counter);
    BufferOfTwo(b.buffer, b.layout);
    contents := b.Finish();
    FourBytes(0, 0, 0, 0);
    FourBytes(1, 0, 0, 0);
    assert [0][..0] == [] && EncodeLengths([0]) == EncodeLengths([]) + EncodeLength(0);
  }

  lemma TwoSinceRestart(buffer: Bytes, l: Layout, counter: nat)
    requires Built(buffer, l, 16, counter) && |l.pairs| == 2
    ensures counter == 2
  {
    hide Packed;
    PackedIs(buffer, l);
    SecondRestart(l, counter);
    PointsBelow(l);
    assert |l.points| == 1;
  }

  lemma SecondRestart(l: Layout, counter: nat)
    requires Spaced(l, 16, counter)
    ensures |l.points| > 1 ==> l.points[1] == 16
  {
  }
}
