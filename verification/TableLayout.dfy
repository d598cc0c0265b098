/** How a table file is laid out: blocks with checksums, handles that point at them, a footer. */
module TableLayout {
  import opened ByteNumbers
  import opened Keys
  import opened Crc32c
  import opened Coding
  import opened BlockFormat
  import opened BlockIterator
  import ErrorDetection

  /** Type byte and checksum behind every block. */
  const TRAILER_SIZE: nat := 5
  const NO_COMPRESSION: Byte := 0
  const MAX_HANDLE: nat := 20
  const FOOTER_SIZE: nat := 48
  const MAGIC: nat := 0xdb47_7524_8b80_fb57

  // ---------------------------------------------------------------- handles

  /** Where a block is. */
  datatype Handle = Handle(offset: nat, size: nat) {
    predicate Fits() {
      offset < LIMIT64 && size < LIMIT64
    }
  }

  /** Both numbers are 64 bits wide. */
  function EncodeHandle(h: Handle): Bytes {
    EncodeVarint(h.offset % LIMIT64) + EncodeVarint(h.size % LIMIT64)
  }

  function DecodeHandle(input: Bytes): Read<Handle> {
    var offset := GetVarint64(input);
    if offset.None? then None else
      var size := GetVarint64(offset.value.1);
      if size.None? then None else Some((Handle(offset.value.0, size.value.0), size.value.1))
  }

  lemma HandleLength(h: Handle)
    ensures |EncodeHandle(h)| <= MAX_HANDLE
  {
    TenGroups();
    VarintLength(h.offset % LIMIT64, 10);
    VarintLength(h.size % LIMIT64, 10);
  }

  lemma HandleRoundTrip(h: Handle, rest: Bytes)
    requires h.Fits()
    ensures DecodeHandle(EncodeHandle(h) + rest) == Some((h, rest))
  {
    hide EncodeVarint, GetVarint64;
    assert EncodeHandle(h) + rest == EncodeVarint(h.offset) + (EncodeVarint(h.size) + rest);
    Varint64RoundTrip(h.offset, EncodeVarint(h.size) + rest);
    Varint64RoundTrip(h.size, rest);
  }

  // ---------------------------------------------------------------- the footer

  /** Two handles, padding to a fixed length, and the magic number. */
  function EncodeFooter(metaindex: Handle, index: Handle): (b: Bytes)
    ensures |b| == FOOTER_SIZE
  {
    HandleLength(metaindex);
    HandleLength(index);
    var handles := EncodeHandle(metaindex) + EncodeHandle(index);
    handles + Zeroes(2 * MAX_HANDLE - |handles|) + EncodeLength(MAGIC % LIMIT32) + EncodeLength(MAGIC / LIMIT32)
  }

  function DecodeFooter(b: Bytes): (r: Option<(Handle, Handle)>)
    requires |b| == FOOTER_SIZE
  {
    var n := FOOTER_SIZE - 8;
    if DecodeLength(b[n + 4..]) * LIMIT32 + DecodeLength(b[n..n + 4]) != MAGIC then None else
      var metaindex := DecodeHandle(b);
      if metaindex.None? then None else
        var index := DecodeHandle(metaindex.value.1);
        if index.None? then None else Some((metaindex.value.0, index.value.0))
  }

  lemma FooterRoundTrip(metaindex: Handle, index: Handle)
    requires metaindex.Fits() && index.Fits()
    ensures DecodeFooter(EncodeFooter(metaindex, index)) == Some((metaindex, index))
  {
    hide EncodeHandle, DecodeHandle, EncodeLength, DecodeLength;
    HandleLength(metaindex);
    HandleLength(index);
    var a, b := EncodeHandle(metaindex), EncodeHandle(index);
    var lo, hi := EncodeLength(MAGIC % LIMIT32), EncodeLength(MAGIC / LIMIT32);
    var padding := Zeroes(2 * MAX_HANDLE - |a + b|);
    var footer := EncodeFooter(metaindex, index);
    assert footer == a + b + padding + lo + hi;
    assert footer[40..44] == lo && footer[44..] == hi;
    LengthRoundTrip(MAGIC % LIMIT32);
    LengthRoundTrip(MAGIC / LIMIT32);
    assert footer == a + (b + (padding + lo + hi));
    HandleRoundTrip(metaindex, b + (padding + lo + hi));
    HandleRoundTrip(index, padding + lo + hi);
  }

  // ---------------------------------------------------------------- blocks in a file

  function Trailer(contents: Bytes): (b: Bytes)
    ensures |b| == TRAILER_SIZE
  {
    [NO_COMPRESSION] + EncodeFixed32(Mask(Extended(Checksum(contents), [NO_COMPRESSION])))
  }

  /** These contents, with their trailer, are in the file where the handle points. */
  ghost predicate StoredAt(file: Bytes, h: Handle, contents: Bytes) {
    && h.size == |contents| && h.offset + h.size + TRAILER_SIZE <= |file|
    && file[h.offset..h.offset + h.size + TRAILER_SIZE] == contents + Trailer(contents)
  }

  /** The contents of a block, or nothing when it is cut off, fails its checksum or has a type
    * this reader does not know. */
  function ReadBlock(file: Bytes, h: Handle, verify: bool): Option<Bytes> {
    var n := h.size;
    if h.offset + n + TRAILER_SIZE > |file| then None else
      var data := file[h.offset..h.offset + n + TRAILER_SIZE];
      if verify && Unmask(DecodeFixed32(data[n + 1..])) != Checksum(data[..n + 1]) then None
      else if data[n] == NO_COMPRESSION then Some(data[..n])
      else None
  }

  lemma ReadsWhatIsStored(file: Bytes, h: Handle, contents: Bytes, verify: bool)
    requires StoredAt(file, h, contents)
    ensures ReadBlock(file, h, verify) == Some(contents)
  {
    hide Extended, Mask, Unmask, EncodeFixed32, DecodeFixed32;
    var n, data := h.size, contents + Trailer(contents);
    var crc := Extended(Checksum(contents), [NO_COMPRESSION]);
    ExtendComposes(Word(0), contents, [NO_COMPRESSION]);
    assert data[..n + 1] == contents + [NO_COMPRESSION];
    assert data[n + 1..] == EncodeFixed32(Mask(crc));
    Fixed32RoundTrip(Mask(crc));
    UnmaskMask(crc);
    assert data[..n] == contents && data[n] == NO_COMPRESSION;
  }

  /** A block damaged by a burst of at most 32 bits in its contents or its type is refused. */
  lemma DamageIsSeen(file: Bytes, damaged: Bytes, h: Handle, contents: Bytes, p: nat)
    requires StoredAt(file, h, contents) && |damaged| == |file|
    requires var end := h.offset + h.size + 1;
      && damaged[h.offset..end] != file[h.offset..end] && damaged[end..end + 4] == file[end..end + 4]
      && ErrorDetection.Burst(ErrorDetection.Difference(ErrorDetection.BitString(damaged[h.offset..end]), ErrorDetection.BitString(file[h.offset..end])), p)
    ensures ReadBlock(damaged, h, true) == None
  {
    hide Extended, Mask, Unmask, EncodeFixed32, DecodeFixed32, ErrorDetection.BitString, ErrorDetection.Difference, ErrorDetection.Burst;
    var n, data, was := h.size, damaged[h.offset..h.offset + h.size + TRAILER_SIZE], contents + Trailer(contents);
    var crc := Extended(Checksum(contents), [NO_COMPRESSION]);
    var end := h.offset + n + 1;
    ExtendComposes(Word(0), contents, [NO_COMPRESSION]);
    InTwo(file, h.offset, n + 1, n + TRAILER_SIZE);
    InTwo(damaged, h.offset, n + 1, n + TRAILER_SIZE);
    assert was[..n + 1] == contents + [NO_COMPRESSION] && was[n + 1..] == EncodeFixed32(Mask(crc));
    Fixed32RoundTrip(Mask(crc));
    UnmaskMask(crc);
    ErrorDetection.BurstIsDetected(Word(0), data[..n + 1], was[..n + 1], p);
  }

  lemma InTwo(file: Bytes, a: nat, k: nat, n: nat)
    requires k <= n && a + n <= |file|
    ensures file[a..a + n][..k] == file[a..a + k] && file[a..a + n][k..] == file[a + k..a + n]
  {
  }

  lemma StaysStored(file: Bytes, more: Bytes, h: Handle, contents: Bytes)
    requires StoredAt(file, h, contents)
    ensures StoredAt(file + more, h, contents)
  {
    var a, b := h.offset, h.offset + h.size + TRAILER_SIZE;
    assert (file + more)[a..b] == file[a..b];
  }

  // ---------------------------------------------------------------- searching a block

  /** The contents are a finished block of these pairs. */
  ghost predicate IsBlock(contents: Bytes, pairs: seq<KeyValue>) {
    exists buffer, l :: FinishedAs(contents, pairs, buffer, l)
  }

  ghost predicate FinishedAs(contents: Bytes, pairs: seq<KeyValue>, buffer: Bytes, l: Layout) {
    Packed(buffer, l) && l.pairs == pairs && IsFinished(contents, buffer, Restarts(l))
  }

  /** A block of these pairs is there; blocks past 32 bits are not read back. */
  ghost predicate BlockStored(file: Bytes, h: Handle, pairs: seq<KeyValue>) {
    exists contents :: StoredAt(file, h, contents) && (|contents| < LIMIT32 ==> IsBlock(contents, pairs))
  }

  lemma BlockStaysStored(file: Bytes, more: Bytes, h: Handle, pairs: seq<KeyValue>)
    requires BlockStored(file, h, pairs)
    ensures BlockStored(file + more, h, pairs)
  {
    hide StoredAt, IsBlock;
    var contents :| StoredAt(file, h, contents) && (|contents| < LIMIT32 ==> IsBlock(contents, pairs));
    StaysStored(file, more, h, contents);
  }

  lemma BlockIsRead(file: Bytes, h: Handle, pairs: seq<KeyValue>, verify: bool)
    requires BlockStored(file, h, pairs) && h.size < LIMIT32
    ensures ReadBlock(file, h, verify).Some? && IsBlock(ReadBlock(file, h, verify).value, pairs)
  {
    hide ReadBlock, IsBlock;
    var contents :| StoredAt(file, h, contents) && (|contents| < LIMIT32 ==> IsBlock(contents, pairs));
    ReadsWhatIsStored(file, h, contents, verify);
  }

  /** `k` is the first pair not before the target, and `found` is that pair. */
  ghost predicate FirstFrom(pairs: seq<KeyValue>, less: Comparator, target: Bytes, k: nat, found: Option<KeyValue>) {
    && k <= |pairs| && (forall i :: 0 <= i < k ==> less(pairs[i].key, target))
    && (if k < |pairs| then !less(pairs[k].key, target) && found == Some(pairs[k]) else found == None)
  }

  /** The first pair of a block not before the target. */
  method SeekInBlock(contents: Bytes, less: Comparator, target: Bytes, ghost pairs: seq<KeyValue>) returns (found: Option<KeyValue>, ghost k: nat)
    ensures IsBlock(contents, pairs) && Transitive(less) && Increasing(less, pairs) ==> FirstFrom(pairs, less, target, k, found)
  {
    hide IsFinished, Transitive, Increasing, Restarts, MatchesLayout, Positioned, Pointed, EntryAt;
    ghost var buffer, l := [], Layout([], [], [], []);
    if IsBlock(contents, pairs) {
      buffer, l :| FinishedAs(contents, pairs, buffer, l);
    }
    found, k := None, 0;
    var iter := NewIterator(contents, less, buffer, l);
    if iter != null {
      k := iter.Seek(target);
      if iter.Faithful() && k < |l.pairs| && iter.AtEntry(k) {
        iter.CurrentIs(k);
      }
      if iter.Valid() {
        found := Some(iter.Current());
      }
    }
  }
}
