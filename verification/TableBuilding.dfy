/** Building a table: data blocks flushed when full, index entries deferred until the next key
  * is known, filters kept in step; then the filter, the two index blocks and the footer. */
module TableBuilding {
  import opened ByteNumbers
  import opened Keys
  import opened Bytewise
  import opened Coding
  import Bloom
  import opened BlockFormat
  import opened FilterBlock
  import opened TableLayout
  import opened TableFormat

  lemma FlatAppend(blocks: seq<Block>, b: Block)
    ensures Flat(blocks + [b]) == Flat(blocks) + b
  {
    assert (blocks + [b])[..|blocks|] == blocks;
  }

  ghost predicate NonEmpty(blocks: seq<Block>) {
    forall i :: 0 <= i < |blocks| ==> blocks[i] != []
  }

  /** Finished index entries; the last block's may be pending. */
  ghost predicate Indexed(index: seq<IndexEntry>, blocks: seq<Block>, open: Block)
    requires NonEmpty(blocks)
  {
    |index| <= |blocks| && forall i :: 0 <= i < |index| ==> FitsSoFar(index[i].key, blocks, open, i)
  }

  /** The key separates block `i` from what follows it so far. */
  ghost predicate FitsSoFar(key: ByteKey, blocks: seq<Block>, open: Block, i: nat)
    requires i < |blocks| && NonEmpty(blocks)
  {
    if i + 1 < |blocks| then Shortens(LastKey(blocks[i]), key, blocks[i + 1][0].key)
    else if open != [] then Shortens(LastKey(blocks[i]), key, open[0].key)
    else ShortensLast(LastKey(blocks[i]), key)
  }

  /** Blocks written, the open block, and the index entry that may be pending for the last one. */
  ghost predicate Shaped(index: seq<IndexEntry>, blocks: seq<Block>, handles: seq<Handle>, open: Block,
                         lastKey: ByteKey, pending: bool, pendingHandle: Handle) {
    && NonEmpty(blocks) && |handles| == |blocks| && Ascending(Flat(blocks) + open)
    && (Flat(blocks) + open != [] ==> lastKey == LastKey(Flat(blocks) + open))
    && Indexed(index, blocks, open)
    && (forall i :: 0 <= i < |index| ==> i < |handles| && index[i].handle == handles[i])
    && |blocks| == |index| + (if pending then 1 else 0)
    && (pending <==> open == [] && blocks != [])
    && (pending ==> pendingHandle == handles[|blocks| - 1])
  }

  /** The keys of a block are among those of its filter, or wait for it. */
  ghost predicate Registered(groups: seq<seq<Bytes>>, pending: seq<Bytes>, offset: nat, block: Block) {
    forall e :: e in block ==> if offset / BASE < |groups| then e.key.user in groups[offset / BASE]
                               else offset / BASE == |groups| && e.key.user in pending
  }

  /** Every block is in the file where its handle points. */
  ghost predicate Stored(file: Bytes, handles: seq<Handle>, blocks: seq<Block>) {
    |handles| == |blocks| && forall i :: 0 <= i < |blocks| ==> BlockStored(file, handles[i], Pairs(blocks[i]))
  }

  /** Keys short enough for a block, with numbers that leave room for the kind. */
  predicate KeyFits(k: ByteKey) {
    |k.user| + 8 < LIMIT32 && k.seqno <= MAX_SEQUENCE
  }

  // ---------------------------------------------------------------- a finished table

  /** What a table file is made of. */
  datatype Image = Image(index: seq<IndexEntry>, blocks: seq<Block>, indexHandle: Handle, metaHandle: Handle,
                         filterHandle: Option<Handle>, filters: Filters)

  function MetaPairs(name: Bytes, filterHandle: Option<Handle>): seq<KeyValue> {
    if filterHandle.Some? then [KeyValue(name, EncodeHandle(filterHandle.value))] else []
  }

  ghost predicate FilterStored(file: Bytes, h: Handle, f: Filters) {
    exists contents :: StoredAt(file, h, contents) && f.Ordered() && (|f.result| < LIMIT32 ==> contents == Finished(f))
  }

  /** The file is this table, with its filter under this name. */
  ghost predicate IsTable(file: Bytes, im: Image, name: Bytes) {
    && |file| >= FOOTER_SIZE && file[|file| - FOOTER_SIZE..] == EncodeFooter(im.metaHandle, im.indexHandle)
    && Holds(im.index, im.blocks) && IndexNumbered(im.index) && (forall i :: 0 <= i < |im.blocks| ==> Numbered(im.blocks[i]))
    && (forall i :: 0 <= i < |im.blocks| ==> BlockStored(file, im.index[i].handle, Pairs(im.blocks[i])))
    && BlockStored(file, im.indexHandle, IndexPairs(im.index))
    && BlockStored(file, im.metaHandle, MetaPairs(name, im.filterHandle))
    && (im.filterHandle.Some? ==> FilterStored(file, im.filterHandle.value, im.filters) && Filtered(im.filters, im.index, im.blocks))
  }

  /** Offsets fit 64 bits, blocks 32. */
  predicate HandleFits(h: Handle) {
    h.offset < LIMIT64 && h.size < LIMIT32
  }

  ghost predicate ImageFits(im: Image) {
    && HandleFits(im.indexHandle) && HandleFits(im.metaHandle)
    && (forall i :: 0 <= i < |im.index| ==> HandleFits(im.index[i].handle))
    && (im.filterHandle.Some? ==> HandleFits(im.filterHandle.value) && |im.filters.result| < LIMIT32)
  }

  // ---------------------------------------------------------------- the builder

  class TableBuilder {
    const filterBlock: FilterBlockBuilder?
    const blockSize: nat
    const dataBlock: BlockBuilder
    const indexBlock: BlockBuilder
    var dest: Bytes
    var lastKey: ByteKey
    var numEntries: nat
    var pendingIndexEntry: bool
    var pendingHandle: Handle
    ghost var blocks: seq<Block>
    ghost var handles: seq<Handle>
    ghost var open: Block
    ghost var index: seq<IndexEntry>

    /** Everything added so far. */
    ghost function Entries(): Block
      reads this
    {
      Flat(blocks) + open
    }

    ghost predicate FilterInStep()
      reads this, filterBlock
    {
      filterBlock != null ==>
        && filterBlock.Ok() && |filterBlock.groups| == |dest| / BASE
        && |handles| == |blocks|
        && (forall i :: 0 <= i < |blocks| ==> Registered(filterBlock.groups, filterBlock.Pending(), handles[i].offset, blocks[i]))
        && Registered(filterBlock.groups, filterBlock.Pending(), |dest|, open)
    }

    ghost predicate Shape()
      reads this
    {
      && numEntries == |Entries()|
      && Shaped(index, blocks, handles, open, lastKey, pendingIndexEntry, pendingHandle)
    }

    ghost predicate BytesInStep()
      reads this, dataBlock, indexBlock
    {
      && dataBlock != indexBlock && dataBlock.Ok() && indexBlock.Ok()
      && dataBlock.layout.pairs == Pairs(open) && indexBlock.layout.pairs == IndexPairs(index)
      && Stored(dest, handles, blocks)
    }

    ghost predicate KeysInStep()
      reads this
    {
      && (numEntries > 0 ==> KeyFits(lastKey)) && Numbered(open) && IndexNumbered(index)
      && forall i :: 0 <= i < |blocks| ==> Numbered(blocks[i])
    }

    ghost predicate Ok()
      reads this, filterBlock, dataBlock, indexBlock
    {
      Shape() && FilterInStep() && BytesInStep() && KeysInStep()
    }

    constructor (filterBlock: FilterBlockBuilder?, blockSize: nat, restartInterval: nat)
      requires filterBlock != null ==> filterBlock.Ok() && filterBlock.groups == [] && filterBlock.Pending() == []
      requires 1 <= restartInterval
      ensures Ok() && Entries() == [] && this.filterBlock == filterBlock
      ensures fresh(dataBlock) && fresh(indexBlock)
    {
      this.filterBlock, this.blockSize := filterBlock, blockSize;
      dataBlock := new BlockBuilder(restartInterval);
      indexBlock := new BlockBuilder(1);
      dest, numEntries := [], 0;
      lastKey := ByteKey([], 0, Deletion);
      pendingIndexEntry, pendingHandle := false, Handle(0, 0);
      blocks, handles, open, index := [], [], [], [];
    }

    /** Adds a pair whose key follows all others; a full block is written. */
    method Add(key: ByteKey, value: Value)
      requires Ok() && (numEntries > 0 ==> lastKey.Before(key)) && KeyFits(key) && |value| < LIMIT32
      modifies this, filterBlock, dataBlock, indexBlock
      ensures Ok() && Entries() == old(Entries()) + [Pair(key, value)]
      ensures open == [] || (dataBlock.CurrentSizeEstimate() < blockSize && blocks == old(blocks) && open == old(open) + [Pair(key, value)])
      ensures open == [] ==> blocks == old(blocks) + [old(open) + [Pair(key, value)]] && |handles| == |blocks| && handles[|blocks| - 1].size >= blockSize
    {
      hide Ok, Entries, ByteKey.Before;
      AddPair(key, value);
      if dataBlock.CurrentSizeEstimate() >= blockSize {
        Flush();
      }
    }

    /** Puts a pair into the open block; only now is the index key of the last block known. */
    method AddPair(key: ByteKey, value: Value)
      requires Ok() && (numEntries > 0 ==> lastKey.Before(key)) && KeyFits(key) && |value| < LIMIT32
      modifies this, filterBlock, dataBlock, indexBlock
      ensures Ok() && Entries() == old(Entries()) + [Pair(key, value)]
      ensures blocks == old(blocks) && handles == old(handles) && open == old(open) + [Pair(key, value)]
    {
      hide Shaped, Shortens, Flat, FilterBlockBuilder.Ok, ByteKey.Before, BlockBuilder.Ok, Stored, KeyBytes, EncodeHandle;
      var pair := Pair(key, value);
      ghost var before := Entries();
      LastFits();
      KeyLength(key);
      AddKeepsShape(index, blocks, handles, open, lastKey, pendingIndexEntry, pendingHandle, pair);
      if pendingIndexEntry {
        var separator := TableFormat.FindShortestSeparator(lastKey, key);
        AddIndexEntry(separator);
      }
      AddFilterKey(key.user);
      lastKey := key;
      numEntries := numEntries + 1;
      dataBlock.Add(KeyBytes(key), value);
      PairsAppend(open, pair);
      open := open + [pair];
      assert Entries() == before + [pair];
    }

    /** The key goes into the filter of the open block. */
    method AddFilterKey(user: Bytes)
      requires FilterInStep()
      modifies filterBlock
      ensures filterBlock != null ==> filterBlock.Ok() && filterBlock.groups == old(filterBlock.groups)
      ensures filterBlock != null ==> filterBlock.Pending() == old(filterBlock.Pending()) + [user]
    {
      if filterBlock != null {
        filterBlock.AddKey(user);
      }
    }

    /** The index entry of the last block, once it is known what follows. */
    method AddIndexEntry(separator: ByteKey)
      requires pendingIndexEntry && indexBlock.Ok() && indexBlock.layout.pairs == IndexPairs(index)
      requires KeyFits(separator) && IndexNumbered(index)
      modifies this`lastKey, this`pendingIndexEntry, this`index, indexBlock
      ensures !pendingIndexEntry && lastKey == separator && index == old(index) + [IndexEntry(separator, pendingHandle)]
      ensures indexBlock.Ok() && indexBlock.layout.pairs == IndexPairs(index) && IndexNumbered(index)
    {
      hide BlockBuilder.Ok, KeyBytes, EncodeHandle;
      lastKey := separator;
      KeyLength(separator);
      HandleLength(pendingHandle);
      indexBlock.Add(KeyBytes(separator), EncodeHandle(pendingHandle));
      IndexPairsAppend(index, IndexEntry(separator, pendingHandle));
      index := index + [IndexEntry(separator, pendingHandle)];
      pendingIndexEntry := false;
    }

    /** Appends contents and their trailer, and says where they are. */
    method WriteRawBlock(contents: Bytes) returns (h: Handle)
      modifies this`dest
      ensures dest == old(dest) + contents + Trailer(contents) && h == Handle(|old(dest)|, |contents|)
      ensures StoredAt(dest, h, contents)
    {
      hide Trailer;
      h := Handle(|dest|, |contents|);
      ghost var before := dest;
      dest := dest + contents;
      dest := dest + Trailer(contents);
      JustStored(before, contents);
    }

    /** Finishes a block and writes it. */
    method WriteBlock(block: BlockBuilder) returns (h: Handle)
      requires block.Ok()
      modifies this`dest
      ensures old(dest) <= dest && h.offset == |old(dest)| && BlockStored(dest, h, block.layout.pairs)
      ensures h.size == block.CurrentSizeEstimate()
    {
      hide BlockBuilder.Ok, IsFinished, Trailer, StoredAt;
      var contents := block.Finish();
      if |contents| < LIMIT32 {
        FinishedIsBlock(block, contents);
      }
      h := WriteRawBlock(contents);
    }

    /** Writes the open block, if there is anything in it; its index entry has to wait. */
    method Flush()
      requires Ok()
      modifies this, filterBlock, dataBlock
      ensures Ok() && open == [] && Entries() == old(Entries()) && index == old(index) && lastKey == old(lastKey)
      ensures old(dest) <= dest
      ensures if old(open) == [] then blocks == old(blocks)
              else blocks == old(blocks) + [old(open)] && |handles| == |blocks| && handles[|blocks| - 1].size == old(dataBlock.CurrentSizeEstimate())
    {
      hide Shaped, Flat, FilterBlockBuilder.Ok, BlockBuilder.Ok, BlockStored, KeyBytes, EncodeHandle, Registered;
      dataBlock.EmptyIs();
      if dataBlock.Empty() {
        return;
      }
      ghost var before := dest;
      pendingHandle := WriteBlock(dataBlock);
      StoredGrows(before, dest, handles, blocks, pendingHandle, open);
      FlushKeepsShape(index, blocks, handles, open, lastKey, pendingIndexEntry, old(pendingHandle), pendingHandle);
      dataBlock.Reset();
      blocks, handles := blocks + [open], handles + [pendingHandle];
      open := [];
      pendingIndexEntry := true;
      if filterBlock != null {
        StartFilter();
      }
    }

    /** Tells the filter block where the next data block starts. */
    method StartFilter()
      requires filterBlock != null && filterBlock.Ok() && |filterBlock.groups| <= |dest| / BASE && |handles| == |blocks|
      requires forall i :: 0 <= i < |blocks| ==> Registered(filterBlock.groups, filterBlock.Pending(), handles[i].offset, blocks[i])
      requires open == []
      modifies filterBlock
      ensures FilterInStep()
    {
      hide Bloom.Matches;
      ghost var groups, pending := filterBlock.groups, filterBlock.Pending();
      filterBlock.StartBlock(|dest|);
      forall i | 0 <= i < |blocks| ensures Registered(filterBlock.groups, filterBlock.Pending(), handles[i].offset, blocks[i]) {
        StaysRegistered(groups, pending, filterBlock.groups, filterBlock.Pending(), handles[i].offset, blocks[i]);
      }
    }

    /** Writes what is left and everything a reader needs to find its way. */
    method Finish(name: Bytes) returns (ghost im: Image)
      requires Ok() && |name| < LIMIT32
      modifies this, filterBlock, dataBlock, indexBlock
      ensures IsTable(dest, im, name) && Flat(im.blocks) == old(Entries())
      ensures im.filterHandle.Some? <==> filterBlock != null
      ensures filterBlock != null ==> im.filters.Ordered() && im.filters.Covers(filterBlock.groups, filterBlock.policy.bitsPerKey, filterBlock.policy.k)
    {
      hide Shaped, Flat, Holds, BlockBuilder.Ok, Stored, BlockStored, FilterStored, Filters.Ordered, Registered, Numbered, IndexNumbered;
      hide FilterBlockBuilder.Ok, PassesFilter, EncodeFooter, MetaPairs, IndexPairs, Pairs, IsTable;
      Flush();
      assert Entries() == Flat(blocks) + [] == Flat(blocks);
      ghost var data := dest;
      var filterHandle: Option<Handle> := None;
      ghost var f := Filters([], []);
      if filterBlock != null {
        var h;
        h, f := WriteFilter();
        filterHandle := Some(h);
      }
      ghost var upToFilter := dest;
      var metaHandle := WriteMeta(name, filterHandle);
      ghost var upToMeta := dest;
      var indexHandle := WriteIndex();
      ghost var upToIndex := dest;
      dest := dest + EncodeFooter(metaHandle, indexHandle);
      im := Image(index, blocks, indexHandle, metaHandle, filterHandle, f);
      TableIsComplete(data, upToFilter, upToMeta, upToIndex, dest, im, handles, name);
    }

    /** Adds the last index entry, if it is pending, and writes the index. */
    method WriteIndex() returns (h: Handle)
      requires Shape() && KeysInStep() && open == [] && indexBlock.Ok() && indexBlock.layout.pairs == IndexPairs(index)
      modifies this`dest, this`lastKey, this`pendingIndexEntry, this`index, indexBlock
      ensures old(dest) <= dest && BlockStored(dest, h, IndexPairs(index))
      ensures Holds(index, blocks) && IndexNumbered(index) && |index| == |handles| == |blocks|
      ensures forall i :: 0 <= i < |index| ==> index[i].handle == handles[i]
    {
      hide Shaped, Flat, Holds, BlockBuilder.Ok, BlockStored, Numbered, IndexNumbered, Succeeds, IndexPairs;
      FinishHolds(index, blocks, handles, lastKey, pendingIndexEntry, pendingHandle);
      LastFits();
      if pendingIndexEntry {
        var successor := TableFormat.FindShortSuccessor(lastKey);
        AddIndexEntry(successor);
      }
      h := WriteBlock(indexBlock);
    }

    /** Writes the filter block: every key added passes the filter of its block. */
    method WriteFilter() returns (h: Handle, ghost f: Filters)
      requires filterBlock != null && FilterInStep()
      modifies this`dest, filterBlock
      ensures old(dest) <= dest && FilterStored(dest, h, f) && f.Ordered() && |handles| == |blocks|
      ensures f.Covers(filterBlock.groups, filterBlock.policy.bitsPerKey, filterBlock.policy.k)
      ensures forall i, e :: 0 <= i < |blocks| && e in blocks[i] ==> PassesFilter(f, handles[i].offset, e.key.user)
    {
      hide PassesFilter, Finished, Trailer, StoredAt, Filters.Ordered, Filters.Covers, Registered;
      ghost var groups, pending := filterBlock.groups, filterBlock.Pending();
      var contents;
      contents, f := filterBlock.Finish();
      assert f.Ordered() && f.Covers(filterBlock.groups, filterBlock.policy.bitsPerKey, filterBlock.policy.k) by { filterBlock.FiltersAreOrdered(); }
      forall i, e | 0 <= i < |blocks| && e in blocks[i] ensures PassesFilter(f, handles[i].offset, e.key.user) {
        RegisteredPasses(f, filterBlock.policy, groups, pending, filterBlock.groups, handles[i].offset, blocks[i], e);
      }
      h := WriteRawBlock(contents);
    }

    /** Writes the block that maps the filter's name to where the filter is. */
    method WriteMeta(name: Bytes, filterHandle: Option<Handle>) returns (h: Handle)
      requires |name| < LIMIT32
      modifies this`dest
      ensures old(dest) <= dest && BlockStored(dest, h, MetaPairs(name, filterHandle))
    {
      hide BlockBuilder.Ok, BlockStored, EncodeHandle;
      var meta := new BlockBuilder(16);
      if filterHandle.Some? {
        HandleLength(filterHandle.value);
        meta.Add(name, EncodeHandle(filterHandle.value));
      }
      assert meta.layout.pairs == MetaPairs(name, filterHandle);
      h := WriteBlock(meta);
    }

    /** The key a pending index entry will shorten. */
    lemma LastFits()
      requires Shape() && KeysInStep()
      ensures pendingIndexEntry ==> KeyFits(lastKey)
    {
      LastIs(blocks, open);
    }
  }

  // ---------------------------------------------------------------- bytes

  lemma KeyLength(k: ByteKey)
    ensures |KeyBytes(k)| == |k.user| + 8
  {
  }

  lemma PairsAppend(block: Block, pair: Pair)
    ensures Pairs(block + [pair]) == Pairs(block) + [KeyValue(KeyBytes(pair.key), pair.value)]
    ensures |KeyBytes(pair.key)| == |pair.key.user| + 8
    ensures Numbered(block) && pair.key.seqno <= MAX_SEQUENCE ==> Numbered(block + [pair])
  {
  }

  lemma IndexPairsAppend(index: seq<IndexEntry>, e: IndexEntry)
    ensures IndexPairs(index + [e]) == IndexPairs(index) + [KeyValue(KeyBytes(e.key), EncodeHandle(e.handle))]
    ensures IndexNumbered(index) && e.key.seqno <= MAX_SEQUENCE ==> IndexNumbered(index + [e])
  {
  }

  lemma JustStored(before: Bytes, contents: Bytes)
    ensures StoredAt(before + contents + Trailer(contents), Handle(|before|, |contents|), contents)
  {
    hide Trailer;
    var file := before + contents + Trailer(contents);
    assert file[|before|..|before| + |contents| + TRAILER_SIZE] == contents + Trailer(contents);
  }

  lemma FinishedIsBlock(block: BlockBuilder, contents: Bytes)
    requires block.Ok() && IsFinished(contents, block.buffer, block.restarts)
    ensures IsBlock(contents, block.layout.pairs)
  {
    assert FinishedAs(contents, block.layout.pairs, block.buffer, block.layout);
  }

  lemma GrownBlock(file: Bytes, file': Bytes, h: Handle, pairs: seq<KeyValue>)
    requires file <= file' && BlockStored(file, h, pairs)
    ensures BlockStored(file', h, pairs)
  {
    hide BlockStored;
    assert file' == file + file'[|file|..];
    BlockStaysStored(file, file'[|file|..], h, pairs);
  }

  lemma StoredGrows(file: Bytes, file': Bytes, handles: seq<Handle>, blocks: seq<Block>, h: Handle, block: Block)
    requires Stored(file, handles, blocks) && file <= file' && BlockStored(file', h, Pairs(block))
    ensures Stored(file', handles + [h], blocks + [block])
  {
    hide BlockStored, Pairs;
    forall i | 0 <= i < |blocks| ensures BlockStored(file', handles[i], Pairs(blocks[i])) {
      GrownBlock(file, file', handles[i], Pairs(blocks[i]));
    }
  }

  lemma GrownFilter(file: Bytes, file': Bytes, h: Handle, f: Filters)
    requires file <= file' && FilterStored(file, h, f)
    ensures FilterStored(file', h, f)
  {
    hide StoredAt, Finished;
    var contents :| StoredAt(file, h, contents) && f.Ordered() && (|f.result| < LIMIT32 ==> contents == Finished(f));
    assert file' == file + file'[|file|..];
    StaysStored(file, file'[|file|..], h, contents);
  }

  lemma TableIsComplete(data: Bytes, upToFilter: Bytes, upToMeta: Bytes, upToIndex: Bytes, file: Bytes, im: Image, handles: seq<Handle>, name: Bytes)
    requires data <= upToFilter <= upToMeta <= upToIndex && file == upToIndex + EncodeFooter(im.metaHandle, im.indexHandle)
    requires Stored(data, handles, im.blocks) && Holds(im.index, im.blocks) && IndexNumbered(im.index)
    requires forall i :: 0 <= i < |im.blocks| ==> Numbered(im.blocks[i])
    requires forall i :: 0 <= i < |im.index| ==> i < |handles| && im.index[i].handle == handles[i]
    requires BlockStored(upToMeta, im.metaHandle, MetaPairs(name, im.filterHandle))
    requires BlockStored(upToIndex, im.indexHandle, IndexPairs(im.index))
    requires im.filterHandle.Some? ==> FilterStored(upToFilter, im.filterHandle.value, im.filters) && im.filters.Ordered()
    requires im.filterHandle.Some? ==>
      forall i, e :: 0 <= i < |im.blocks| && e in im.blocks[i] ==> PassesFilter(im.filters, handles[i].offset, e.key.user)
    ensures IsTable(file, im, name)
  {
    hide BlockStored, FilterStored, EncodeFooter, Pairs, IndexPairs, MetaPairs, PassesFilter, Filters.Ordered, Numbered, IndexNumbered, Ascending, IndexKeyFits;
    forall i | 0 <= i < |im.blocks| ensures BlockStored(file, im.index[i].handle, Pairs(im.blocks[i])) {
      GrownBlock(data, file, handles[i], Pairs(im.blocks[i]));
    }
    GrownBlock(upToMeta, file, im.metaHandle, MetaPairs(name, im.filterHandle));
    GrownBlock(upToIndex, file, im.indexHandle, IndexPairs(im.index));
    if im.filterHandle.Some? {
      GrownFilter(upToFilter, file, im.filterHandle.value, im.filters);
    }
  }

  // ---------------------------------------------------------------- the index follows the blocks

  lemma LastIs(blocks: seq<Block>, open: Block)
    requires NonEmpty(blocks)
    ensures Flat(blocks) + open == [] <==> blocks == [] && open == []
    ensures blocks != [] && open == [] ==> LastKey(Flat(blocks) + open) == LastKey(blocks[|blocks| - 1])
  {
  }

  lemma AddKeepsShape(index: seq<IndexEntry>, blocks: seq<Block>, handles: seq<Handle>, open: Block,
                      lastKey: ByteKey, pending: bool, pendingHandle: Handle, pair: Pair)
    requires Shaped(index, blocks, handles, open, lastKey, pending, pendingHandle)
    requires Flat(blocks) + open != [] ==> lastKey.Before(pair.key)
    ensures Flat(blocks) + (open + [pair]) == Flat(blocks) + open + [pair]
    ensures !pending ==> Shaped(index, blocks, handles, open + [pair], pair.key, false, pendingHandle)
    ensures pending ==> forall sep | Shortens(lastKey, sep, pair.key) ::
      Shaped(index + [IndexEntry(sep, pendingHandle)], blocks, handles, open + [pair], pair.key, false, pendingHandle)
  {
    hide Separates, Flat, ByteKey.Before, Ascending, Indexed;
    LastIs(blocks, open);
    AddAscending(Flat(blocks) + open, pair);
    assert Flat(blocks) + (open + [pair]) == Flat(blocks) + open + [pair];
    if pending {
      AddClosing(index, blocks, lastKey, pendingHandle, pair.key, pair.value);
      assert open + [pair] == [pair];
    } else {
      AddOpen(index, blocks, open, pair);
    }
  }

  lemma FlushKeepsShape(index: seq<IndexEntry>, blocks: seq<Block>, handles: seq<Handle>, open: Block,
                        lastKey: ByteKey, pending: bool, pendingHandle: Handle, h: Handle)
    requires Shaped(index, blocks, handles, open, lastKey, pending, pendingHandle) && open != []
    ensures Shaped(index, blocks + [open], handles + [h], [], lastKey, true, h)
    ensures Flat(blocks + [open]) + [] == Flat(blocks) + open && !pending
  {
    hide Separates, Flat, Ascending, Indexed;
    FlatAppend(blocks, open);
    FlushIndexed(index, blocks, open);
    assert Flat(blocks + [open]) + [] == Flat(blocks) + open;
  }

  lemma FinishHolds(index: seq<IndexEntry>, blocks: seq<Block>, handles: seq<Handle>, lastKey: ByteKey, pending: bool, pendingHandle: Handle)
    requires Shaped(index, blocks, handles, [], lastKey, pending, pendingHandle)
    ensures Flat(blocks) + [] == Flat(blocks) && |handles| == |blocks| == |index| + (if pending then 1 else 0)
    ensures !pending ==> Holds(index, blocks)
    ensures pending ==> forall sep :: ShortensLast(lastKey, sep) ==> Holds(index + [IndexEntry(sep, pendingHandle)], blocks)
    ensures forall i :: 0 <= i < |index| ==> index[i].handle == handles[i]
    ensures pending ==> pendingHandle == handles[|index|]
  {
    hide Separates, Flat, Ascending, Succeeds;
    LastIs(blocks, []);
    assert Flat(blocks) + [] == Flat(blocks);
    forall i | 0 <= i < |index| ensures IndexKeyFits(index[i].key, blocks, i) {
      assert FitsSoFar(index[i].key, blocks, [], i);
    }
  }

  lemma AddAscending(entries: Block, pair: Pair)
    requires Ascending(entries) && (entries != [] ==> LastKey(entries).Before(pair.key))
    ensures Ascending(entries + [pair]) && LastKey(entries + [pair]) == pair.key
  {
    AllBefore(entries, |entries|, pair.key);
  }

  lemma AddClosing(index: seq<IndexEntry>, blocks: seq<Block>, last: ByteKey, handle: Handle, key: ByteKey, value: Value)
    requires NonEmpty(blocks) && Indexed(index, blocks, []) && |index| + 1 == |blocks|
    requires last == LastKey(blocks[|blocks| - 1])
    ensures forall sep :: Shortens(last, sep, key) ==> Indexed(index + [IndexEntry(sep, handle)], blocks, [Pair(key, value)])
  {
    hide Separates;
    forall sep | Shortens(last, sep, key)
      ensures Indexed(index + [IndexEntry(sep, handle)], blocks, [Pair(key, value)])
    {
      var index' := index + [IndexEntry(sep, handle)];
      forall i | 0 <= i < |index'| ensures FitsSoFar(index'[i].key, blocks, [Pair(key, value)], i) {
        assert i < |index| ==> FitsSoFar(index[i].key, blocks, [], i);
      }
    }
  }

  lemma AddOpen(index: seq<IndexEntry>, blocks: seq<Block>, open: Block, pair: Pair)
    requires NonEmpty(blocks) && Indexed(index, blocks, open) && (open != [] || blocks == [])
    ensures Indexed(index, blocks, open + [pair])
  {
    forall i | 0 <= i < |index| ensures FitsSoFar(index[i].key, blocks, open + [pair], i) {
      assert FitsSoFar(index[i].key, blocks, open, i);
    }
  }

  lemma FlushIndexed(index: seq<IndexEntry>, blocks: seq<Block>, open: Block)
    requires NonEmpty(blocks) && Indexed(index, blocks, open) && |index| == |blocks| && open != []
    ensures NonEmpty(blocks + [open]) && Indexed(index, blocks + [open], [])
  {
    forall i | 0 <= i < |index| ensures FitsSoFar(index[i].key, blocks + [open], [], i) {
      assert FitsSoFar(index[i].key, blocks, open, i);
    }
  }

  lemma StaysRegistered(groups: seq<seq<Bytes>>, pending: seq<Bytes>, groups': seq<seq<Bytes>>, pending': seq<Bytes>, offset: nat, block: Block)
    requires Registered(groups, pending, offset, block)
    requires groups + [pending] <= groups' || (groups' == groups && pending' == pending)
    ensures Registered(groups', pending', offset, block)
  {
    if groups + [pending] <= groups' {
      assert groups'[|groups|] == (groups + [pending])[|groups|];
      forall g | 0 <= g < |groups| ensures groups'[g] == groups[g] {
        assert groups'[g] == (groups + [pending])[g];
      }
    }
  }

  lemma RegisteredPasses(f: Filters, policy: Bloom.BloomFilterPolicy, groups: seq<seq<Bytes>>, pending: seq<Bytes>, groups': seq<seq<Bytes>>, offset: nat, block: Block, e: Pair)
    requires f.Ordered() && f.Covers(groups', policy.bitsPerKey, policy.k) && Registered(groups, pending, offset, block) && e in block
    requires if pending == [] then groups' == groups else groups' == groups + [pending]
    ensures PassesFilter(f, offset, e.key.user)
  {
    hide Bloom.Matches, Filters.Covers;
    CoveredMatches(f, groups', policy.bitsPerKey, policy.k, offset / BASE, e.key.user);
  }
}
