/** Reading a table file: from the footer to the index, the filter and the one block that
  * answers a lookup. */
module TableReading {
  import opened ByteNumbers
  import opened Keys
  import opened Bytewise
  import opened Coding
  import Bloom
  import opened BlockFormat
  import opened BlockIterator
  import opened FilterBlock
  import opened TableLayout
  import opened TableFormat
  import opened TableBuilding

  lemma LessIsComparator()
    ensures Transitive(Less)
  {
    forall a, b, c | Less(a, b) && Less(b, c) ensures Less(a, c) {
      LessIsTransitive(a, b, c);
    }
  }

  /** The filter's entry of the block that names filters. */
  lemma MetaEntry(name: Bytes, h: Option<Handle>, k: nat, found: Option<KeyValue>)
    requires FirstFrom(MetaPairs(name, h), Less, name, k, found)
    ensures h.Some? <==> found.Some? && found.value.key == name
    ensures h.Some? ==> found.value.value == EncodeHandle(h.value)
  {
    hide EncodeHandle;
    LessIsTotal(name, name);
    if h.Some? {
      assert MetaPairs(name, h)[0].key == name;
    }
  }

  lemma MetaIncreases(name: Bytes, h: Option<Handle>)
    ensures Increasing(Less, MetaPairs(name, h))
  {
  }

  /** What lookups rely on. */
  ghost predicate Readable(file: Bytes, im: Image) {
    && Holds(im.index, im.blocks) && IndexNumbered(im.index) && (forall i :: 0 <= i < |im.blocks| ==> Numbered(im.blocks[i]))
    && (forall i :: 0 <= i < |im.blocks| ==> BlockStored(file, im.index[i].handle, Pairs(im.blocks[i])) && HandleFits(im.index[i].handle))
  }

  ghost predicate FilterFits(filter: FilterBlockReader?, im: Image) {
    filter != null ==> filter.Ok() && filter.Represents(im.filters) && Filtered(im.filters, im.index, im.blocks)
  }

  /** Nothing when the footer or the index cannot be read. A filter that cannot be read is done
    * without. */
  method Open(file: Bytes, policy: Bloom.BloomFilterPolicy?, name: Bytes, verify: bool, ghost im: Image) returns (t: Table?)
    ensures t != null ==> t.Ok()
    ensures IsTable(file, im, name) && ImageFits(im) ==> t != null && t.Opened(im)
    ensures IsTable(file, im, name) && ImageFits(im) ==> (t.filter != null <==> policy != null && im.filterHandle.Some?)
  {
    hide DecodeFooter, EncodeFooter, BlockStored, IsBlock, Ascending, Flat, IndexKeyFits, Filtered, FilterStored, Pairs, IndexPairs, MetaPairs, ReadBlock, Numbered, IndexNumbered, FilterFits;
    ghost var good := IsTable(file, im, name) && ImageFits(im);
    if |file| < FOOTER_SIZE {
      return null;
    }
    var footer := DecodeFooter(file[|file| - FOOTER_SIZE..]);
    if good {
      FooterRoundTrip(im.metaHandle, im.indexHandle);
      BlockIsRead(file, im.indexHandle, IndexPairs(im.index), verify);
    }
    if footer.None? {
      return null;
    }
    var indexContents := ReadBlock(file, footer.value.1, verify);
    if indexContents.None? {
      return null;
    }
    var filter: FilterBlockReader? := null;
    NoFilterFits(im);
    if policy != null {
      filter := ReadMeta(file, footer.value.0, policy, name, verify, im);
    }
    t := new Table(file, indexContents.value, filter, verify);
  }

  lemma NoFilterFits(im: Image)
    ensures FilterFits(null, im)
  {
  }

  method ReadMeta(file: Bytes, metaHandle: Handle, policy: Bloom.BloomFilterPolicy, name: Bytes, verify: bool, ghost im: Image)
    returns (filter: FilterBlockReader?)
    ensures filter != null ==> filter.Ok()
    ensures IsTable(file, im, name) && ImageFits(im) && metaHandle == im.metaHandle
      ==> FilterFits(filter, im) && (filter != null <==> im.filterHandle.Some?)
  {
    hide EncodeFooter, BlockStored, IsBlock, Holds, Filtered, Pairs, IndexPairs, MetaPairs, ReadBlock, Numbered, IndexNumbered, StoredAt;
    hide Transitive, Increasing, FirstFrom, FilterStored, FilterFits, EncodeHandle, DecodeHandle;
    ghost var good := IsTable(file, im, name) && ImageFits(im) && metaHandle == im.metaHandle;
    NoFilterFits(im);
    if good {
      BlockIsRead(file, metaHandle, MetaPairs(name, im.filterHandle), verify);
    }
    var contents := ReadBlock(file, metaHandle, verify);
    if contents.None? {
      return null;
    }
    LessIsComparator();
    MetaIncreases(name, im.filterHandle);
    var found, k := SeekInBlock(contents.value, Less, name, MetaPairs(name, im.filterHandle));
    if good {
      MetaEntry(name, im.filterHandle, k, found);
    }
    filter := null;
    if found.Some? && found.value.key == name {
      filter := ReadFilter(file, found.value.value, policy, verify, im, good);
    }
  }

  method ReadFilter(file: Bytes, value: Bytes, policy: Bloom.BloomFilterPolicy, verify: bool, ghost im: Image, ghost good: bool)
    returns (filter: FilterBlockReader?)
    requires good ==> im.filterHandle.Some? && HandleFits(im.filterHandle.value) && |im.filters.result| < LIMIT32
    requires good ==> value == EncodeHandle(im.filterHandle.value) && FilterStored(file, im.filterHandle.value, im.filters)
    requires good ==> Filtered(im.filters, im.index, im.blocks)
    ensures filter != null ==> filter.Ok()
    ensures good ==> filter != null && FilterFits(filter, im)
  {
    hide EncodeHandle, DecodeHandle, Filtered, ReadBlock, StoredAt, Finished;
    filter := null;
    var handle := DecodeHandle(value);
    if good {
      HandleRoundTrip(im.filterHandle.value, []);
      assert EncodeHandle(im.filterHandle.value) + [] == EncodeHandle(im.filterHandle.value);
      FilterIsRead(file, im.filterHandle.value, im.filters, verify);
    }
    if handle.Some? {
      var block := ReadBlock(file, handle.value.0, verify);
      if block.Some? {
        filter := new FilterBlockReader(policy, block.value);
        if good {
          assert im.filters.Ordered() by { FilteredIsOrdered(im); }
        }
      }
    }
  }

  lemma FilteredIsOrdered(im: Image)
    requires Filtered(im.filters, im.index, im.blocks)
    ensures im.filters.Ordered()
  {
  }

  lemma FilterIsRead(file: Bytes, h: Handle, f: Filters, verify: bool)
    requires FilterStored(file, h, f) && |f.result| < LIMIT32
    ensures f.Ordered() && ReadBlock(file, h, verify) == Some(Finished(f))
  {
    hide StoredAt, Finished, ReadBlock;
    var contents :| StoredAt(file, h, contents) && f.Ordered() && (|f.result| < LIMIT32 ==> contents == Finished(f));
    ReadsWhatIsStored(file, h, contents, verify);
  }

  class Table {
    const file: Bytes
    const indexContents: Bytes
    const filter: FilterBlockReader?
    const verify: bool

    constructor (file: Bytes, indexContents: Bytes, filter: FilterBlockReader?, verify: bool)
      ensures this.file == file && this.indexContents == indexContents && this.filter == filter && this.verify == verify
    {
      this.file, this.indexContents, this.filter, this.verify := file, indexContents, filter, verify;
    }

    ghost predicate Ok() {
      filter != null ==> filter.Ok()
    }

    ghost predicate Opened(im: Image) {
      Readable(file, im) && IsBlock(indexContents, IndexPairs(im.index)) && FilterFits(filter, im)
    }

    /** The first pair at or after `k` in the block a handle names; nothing when the handle or
      * the block cannot be read. */
    method SeekInDataBlock(handle: Bytes, k: ByteKey, ghost im: Image, ghost i: nat) returns (found: Option<Pair>)
      ensures Opened(im) && i < |im.blocks| && handle == EncodeHandle(im.index[i].handle) && k.seqno <= MAX_SEQUENCE
        ==> found == PairFrom(im.blocks[i], k)
    {
      hide EncodeHandle, DecodeHandle, IsBlock, BlockStored, ReadBlock, Pairs, IndexPairs, FilterFits, Transitive, Increasing, FirstFrom, InternalLess, KeyBytes, KeyOf;
      ghost var good := Opened(im) && i < |im.blocks| && handle == EncodeHandle(im.index[i].handle) && k.seqno <= MAX_SEQUENCE;
      ghost var pairs: seq<KeyValue> := [];
      if good {
        var h := im.index[i].handle;
        pairs := Pairs(im.blocks[i]);
        HandleRoundTrip(h, []);
        assert EncodeHandle(h) + [] == EncodeHandle(h);
        BlockIsRead(file, h, pairs, verify);
        InternalIsTransitive();
        BlockAscends(im.blocks, i);
        PairsIncrease(im.blocks[i]);
      }
      found := None;
      var at := DecodeHandle(handle);
      if at.Some? {
        var contents := ReadBlock(file, at.value.0, verify);
        if contents.Some? {
          var pair, j := SeekInBlock(contents.value, InternalLess, KeyBytes(k), pairs);
          if good {
            SeekPairs(im.blocks[i], k, j, pair);
          }
          if pair.Some? {
            found := Some(Pair(KeyOf(pair.value.key), pair.value.value));
          }
        }
      }
    }

    /** What the table answers when asked for the newest version of `u` numbered at most `s`. */
    method InternalGet(u: Bytes, s: nat, ghost im: Image) returns (found: Option<Pair>, ghost blockRead: bool)
      requires Ok() && s <= MAX_SEQUENCE
      ensures Opened(im) ==> Lookup(Run(Flat(im.blocks)), Rank(u), s) == Answer(found, u)
      ensures Opened(im) ==> blockRead == ReadsBlock(im, u, s)
    {
      hide FilterBlockReader.Represents, Bloom.Matches, Flat, Ascending, Rank, Lookup, IndexKeyFits, IsBlock, BlockStored, IndexPairs, Pairs;
      hide Transitive, Increasing, FirstFrom, InternalLess, KeyBytes, KeyOf, EncodeHandle, DecodeHandle, Numbered, IndexNumbered, ByteKey.Before;
      found, blockRead := None, false;
      var k := ByteKey(u, s, Put);
      if Opened(im) {
        OneBlockIsEnough(im.index, im.blocks, u, s);
        InternalIsTransitive();
        IndexIncreases(im.index, im.blocks);
      }
      var entry, i := SeekInBlock(indexContents, InternalLess, KeyBytes(k), IndexPairs(im.index));
      if Opened(im) {
        SeekIndexPairs(im.index, k, i, entry);
      }
      if entry.Some? {
        var mayMatch := MayMatch(entry.value.value, u, im, i);
        if mayMatch {
          found := SeekInDataBlock(entry.value.value, k, im, i);
          blockRead := true;
        } else if Opened(im) {
          NotFiltered(im.filters, im.index, im.blocks, i, u);
        }
      }
    }

    /** A block is read if the index names one and the filter does not rule it out. */
    ghost predicate ReadsBlock(im: Image, u: Bytes, s: nat)
      requires Opened(im)
    {
      var i := SeekIndexBlock(im.index, ByteKey(u, s, Put));
      i < |im.index| && (filter == null || PassesFilter(im.filters, im.index[i].handle.offset, u))
    }

    /** What the filter says about the block a handle names; without one, anything may match. */
    method MayMatch(handle: Bytes, u: Bytes, ghost im: Image, ghost i: nat) returns (r: bool)
      requires Ok()
      ensures Opened(im) && i < |im.blocks| && handle == EncodeHandle(im.index[i].handle) && !r
        ==> filter != null && Filtered(im.filters, im.index, im.blocks) && !PassesFilter(im.filters, im.index[i].handle.offset, u)
      ensures Opened(im) && i < |im.blocks| && handle == EncodeHandle(im.index[i].handle) && r
        ==> filter == null || PassesFilter(im.filters, im.index[i].handle.offset, u)
    {
      hide EncodeHandle, DecodeHandle, IsBlock, BlockStored, Pairs, IndexPairs, FilterBlockReader.Represents, Bloom.Matches, Ascending, Flat, IndexKeyFits;
      if Opened(im) && i < |im.blocks| {
        HandleRoundTrip(im.index[i].handle, []);
        assert EncodeHandle(im.index[i].handle) + [] == EncodeHandle(im.index[i].handle);
      }
      r := true;
      if filter != null {
        var at := DecodeHandle(handle);
        if at.Some? {
          r := filter.KeyMayMatch(at.value.0.offset, u, im.filters);
        }
      }
    }
  }

  function PairFrom(block: Block, k: ByteKey): Option<Pair> {
    var j := SeekBlock(block, k);
    if j < |block| then Some(block[j]) else None
  }

  lemma BlockAscends(blocks: seq<Block>, i: nat)
    requires Ascending(Flat(blocks)) && i < |blocks|
    ensures Ascending(blocks[i])
  {
    hide ByteKey.Before, Flat;
    FlatSplits(blocks, i);
    var p := |Flat(blocks[..i])|;
    forall a, b | 0 <= a < b < |blocks[i]| ensures blocks[i][a].key.Before(blocks[i][b].key) {
      assert Flat(blocks)[p + a] == blocks[i][a] && Flat(blocks)[p + b] == blocks[i][b];
    }
  }

  /** Finishing a table, opening its bytes and asking for the newest version of `u` up to `s`:
    * shared key prefixes, shortened index keys, handles, checksums, the single block read and
    * the filter never change the answer. */
  method FinishAndGet(b: TableBuilder, name: Bytes, verify: bool, u: Bytes, s: nat) returns (t: Table?, found: Option<Pair>, ghost im: Image)
    requires b.Ok() && |name| < LIMIT32 && s <= MAX_SEQUENCE
    modifies b, b.filterBlock, b.dataBlock, b.indexBlock
    ensures IsTable(b.dest, im, name) && Flat(im.blocks) == old(b.Entries())
    ensures ImageFits(im) ==> t != null && (t.filter != null <==> b.filterBlock != null)
    ensures ImageFits(im) ==> Lookup(Run(old(b.Entries())), Rank(u), s) == Answer(found, u)
  {
    hide IsTable, Rank, Lookup, TableBuilder.Ok, Flat, Table.Opened, ImageFits;
    im := b.Finish(name);
    var policy: Bloom.BloomFilterPolicy? := if b.filterBlock == null then null else b.filterBlock.policy;
    t := Open(b.dest, policy, name, verify, im);
    found := None;
    if t != null {
      ghost var blockRead;
      found, blockRead := t.InternalGet(u, s, im);
    }
  }
}
