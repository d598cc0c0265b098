/** Table files: data blocks, an index of shortened keys, and filters. Building a table and
  * looking a key up in it reports exactly the newest version the table holds. */
module TableFormat {
  import opened ByteNumbers
  import opened Keys
  import opened Bytewise
  import Bloom
  import opened FilterBlock
  import opened Coding
  import opened BlockFormat
  import opened BlockIterator
  import opened TableLayout

  /** An internal key over byte strings. */
  datatype ByteKey = ByteKey(user: Bytes, seqno: nat, kind: Kind) {
    function Tag(): nat {
      seqno * 256 + (if kind.Put? then 1 else 0)
    }

    predicate Before(that: ByteKey) {
      Less(user, that.user) || (user == that.user && Tag() > that.Tag())
    }

    function Ranked(): InternalKey {
      InternalKey(Rank(user), seqno, kind)
    }
  }

  lemma RankedKeepsOrder(k: ByteKey, l: ByteKey)
    ensures k.Before(l) <==> k.Ranked().Before(l.Ranked())
    ensures k.user == l.user <==> k.Ranked().user == l.Ranked().user
  {
    RankPreservesOrder(k.user, l.user);
  }

  lemma KeysAreTransitive(a: ByteKey, b: ByteKey, c: ByteKey)
    requires a.Before(b) && b.Before(c)
    ensures a.Before(c)
  {
    if Less(a.user, b.user) && Less(b.user, c.user) {
      LessIsTransitive(a.user, b.user, c.user);
    }
  }

  lemma KeysAreTotal(a: ByteKey, b: ByteKey)
    ensures a.Before(b) || b.Before(a) || a == b
    ensures !(a.Before(b) && b.Before(a)) && !a.Before(a)
  {
    LessIsTotal(a.user, b.user);
  }

  // ---------------------------------------------------------------- internal keys as bytes

  /** The user key, then the tag in eight bytes. */
  function KeyBytes(k: ByteKey): Bytes {
    k.user + EncodeFixed64(k.Tag() % LIMIT64)
  }

  function KeyOf(b: Bytes): ByteKey {
    if |b| < 8 then ByteKey(b, 0, Deletion) else
      var n, tag := |b| - 8, DecodeFixed64(b[|b| - 8..]);
      ByteKey(b[..n], tag / 256, if tag % 256 == 1 then Put else Deletion)
  }

  lemma KeyRoundTrip(k: ByteKey)
    requires k.seqno <= MAX_SEQUENCE
    ensures KeyOf(KeyBytes(k)) == k
  {
    hide EncodeFixed64, DecodeFixed64;
    var tag := k.Tag();
    assert tag < LIMIT64;
    Fixed64RoundTrip(tag);
    var b := KeyBytes(k);
    assert b[|b| - 8..] == EncodeFixed64(tag) && b[..|b| - 8] == k.user;
  }

  /** The internal comparator on encoded keys. */
  function InternalLess(a: Bytes, b: Bytes): bool {
    KeyOf(a).Before(KeyOf(b))
  }

  lemma InternalIsTransitive()
    ensures Transitive(InternalLess)
  {
    hide KeyOf;
    forall a, b, c | InternalLess(a, b) && InternalLess(b, c) ensures InternalLess(a, c) {
      KeysAreTransitive(KeyOf(a), KeyOf(b), KeyOf(c));
    }
  }

  datatype Pair = Pair(key: ByteKey, value: Value)

  type Block = seq<Pair>

  /** What the block stands for in the engine. */
  function Run(block: Block): seq<Entry> {
    seq(|block|, i requires 0 <= i < |block| => Entry(block[i].key.Ranked(), block[i].value))
  }

  ghost predicate Ascending(block: Block) {
    forall i, j :: 0 <= i < j < |block| ==> block[i].key.Before(block[j].key)
  }

  /** Sequence numbers leave room for the kind. */
  ghost predicate Numbered(block: Block) {
    forall e :: e in block ==> e.key.seqno <= MAX_SEQUENCE
  }

  /** The pairs of a data block as they are stored. */
  function Pairs(block: Block): seq<KeyValue> {
    seq(|block|, i requires 0 <= i < |block| => KeyValue(KeyBytes(block[i].key), block[i].value))
  }

  lemma PairsIncrease(block: Block)
    requires Ascending(block) && Numbered(block)
    ensures Increasing(InternalLess, Pairs(block))
  {
    hide KeyBytes, KeyOf, ByteKey.Before;
    forall i, j | 0 <= i < j < |block| ensures InternalLess(Pairs(block)[i].key, Pairs(block)[j].key) {
      assert block[i] in block && block[j] in block;
      KeyRoundTrip(block[i].key);
      KeyRoundTrip(block[j].key);
    }
  }

  // ---------------------------------------------------------------- index keys

  /** A key that stands between the last key of a block and the first of the next: it is the
    * last key itself, or its user key lies strictly between. */
  predicate Separates(last: ByteKey, r: ByteKey, next: ByteKey) {
    r == last || (Less(last.user, r.user) && Less(r.user, next.user))
  }

  predicate Succeeds(last: ByteKey, r: ByteKey) {
    r == last || Less(last.user, r.user)
  }

  /** The user key of `last` cut short behind position `i`, with the tag that comes first. */
  function Cut(last: ByteKey, i: nat): ByteKey
    requires i < |last.user|
  {
    ByteKey(CutAfter(last.user, i), MAX_SEQUENCE, Put)
  }

  /** The separator the builder chooses: cut where there is room, if that saves a byte. */
  ghost predicate Shortens(last: ByteKey, r: ByteKey, next: ByteKey) {
    && Separates(last, r, next)
    && (forall i: nat :: RoomAt(last.user, next.user, i) && i + 1 < |last.user| ==> r == Cut(last, i))
    && (r == last || exists i: nat :: RoomAt(last.user, next.user, i) && i + 1 < |last.user|)
  }

  ghost predicate ShortensLast(last: ByteKey, r: ByteKey) {
    && Succeeds(last, r)
    && (forall i: nat :: CountsUpAt(last.user, i) && i + 1 < |last.user| ==> r == Cut(last, i))
    && (r == last || exists i: nat :: CountsUpAt(last.user, i) && i + 1 < |last.user|)
  }

  method FindShortestSeparator(start: ByteKey, limit: ByteKey) returns (r: ByteKey)
    ensures Shortens(start, r, limit) && |r.user| <= |start.user| && (r == start || r.seqno == MAX_SEQUENCE)
  {
    hide RoomAt, CutAfter, Less;
    r := start;
    var tmp := Bytewise.FindShortestSeparator(start.user, limit.user);
    LessIsTotal(start.user, start.user);
    CutLengths(start.user);
    RoomIsInside(start.user, limit.user);
    if |tmp| < |start.user| && Less(start.user, tmp) {
      // fewer bytes, yet later in the order
      r := ByteKey(tmp, MAX_SEQUENCE, Put);
    }
  }

  lemma CutLengths(key: Bytes)
    ensures forall i: nat :: i < |key| ==> |CutAfter(key, i)| == i + 1
  {
  }

  lemma RoomIsInside(start: Bytes, limit: Bytes)
    ensures forall i: nat :: RoomAt(start, limit, i) ==> i < |start| && Less(start, CutAfter(start, i))
  {
    hide Less;
    forall i: nat | RoomAt(start, limit, i) ensures i < |start| && Less(start, CutAfter(start, i)) {
      CutIsBetween(start, limit, i);
    }
  }

  lemma CountsInside(key: Bytes)
    ensures forall i: nat :: CountsUpAt(key, i) ==> i < |key|
  {
  }

  method FindShortSuccessor(key: ByteKey) returns (r: ByteKey)
    ensures ShortensLast(key, r) && |r.user| <= |key.user| && (r == key || r.seqno == MAX_SEQUENCE)
  {
    hide Less, CutAfter, CountsUpAt;
    r := key;
    var tmp := Bytewise.FindShortSuccessor(key.user);
    LessIsTotal(key.user, key.user);
    CutLengths(key.user);
    CountsInside(key.user);
    if |tmp| < |key.user| && Less(key.user, tmp) {
      r := ByteKey(tmp, MAX_SEQUENCE, Put);
    }
  }

  // ---------------------------------------------------------------- what a table file is

  datatype IndexEntry = IndexEntry(key: ByteKey, handle: Handle)

  function Flat(blocks: seq<Block>): Block {
    if blocks == [] then [] else Flat(blocks[..|blocks| - 1]) + blocks[|blocks| - 1]
  }

  function LastKey(block: Block): ByteKey
    requires block != []
  {
    block[|block| - 1].key
  }

  ghost predicate IndexKeyFits(key: ByteKey, blocks: seq<Block>, i: nat)
    requires i < |blocks| && forall k :: 0 <= k < |blocks| ==> blocks[k] != []
  {
    if i + 1 < |blocks| then Shortens(LastKey(blocks[i]), key, blocks[i + 1][0].key) else ShortensLast(LastKey(blocks[i]), key)
  }

  /** The index lists `blocks` in order, each under a key that separates it from the next. */
  ghost predicate Holds(index: seq<IndexEntry>, blocks: seq<Block>) {
    && |index| == |blocks| && Ascending(Flat(blocks))
    && (forall i :: 0 <= i < |blocks| ==> blocks[i] != [])
    && (forall i :: 0 <= i < |blocks| ==> IndexKeyFits(index[i].key, blocks, i))
  }

  // ---------------------------------------------------------------- lookup

  /** The first pair at or after `k`. */
  function SeekBlock(block: Block, k: ByteKey): (i: nat)
    ensures i <= |block|
    ensures forall j :: 0 <= j < i ==> block[j].key.Before(k)
    ensures i < |block| ==> !block[i].key.Before(k)
  {
    if block == [] || !block[0].key.Before(k) then 0 else 1 + SeekBlock(block[1..], k)
  }

  function SeekIndexBlock(index: seq<IndexEntry>, k: ByteKey): (i: nat)
    ensures i <= |index|
    ensures forall j :: 0 <= j < i ==> index[j].key.Before(k)
    ensures i < |index| ==> !index[i].key.Before(k)
  {
    if index == [] || !index[0].key.Before(k) then 0 else 1 + SeekIndexBlock(index[1..], k)
  }

  lemma {:induction false} FlatSplits(blocks: seq<Block>, i: nat)
    requires i < |blocks|
    ensures |Flat(blocks[..i + 1])| == |Flat(blocks[..i])| + |blocks[i]| <= |Flat(blocks)|
    ensures forall j :: 0 <= j < |blocks[i]| ==> Flat(blocks)[|Flat(blocks[..i])| + j] == blocks[i][j]
    decreases |blocks|
  {
    var n := |blocks| - 1;
    assert blocks[..i + 1][..i] == blocks[..i];
    if i < n {
      FlatSplits(blocks[..n], i);
      assert blocks[..n][..i + 1] == blocks[..i + 1] && blocks[..n][..i] == blocks[..i];
    } else {
      assert blocks[..n + 1] == blocks;
    }
  }

  lemma AllBefore(flat: Block, p: nat, k: ByteKey)
    requires Ascending(flat) && p <= |flat| && (p > 0 ==> flat[p - 1].key.Before(k))
    ensures forall j :: 0 <= j < p ==> flat[j].key.Before(k)
  {
    forall j | 0 <= j < p ensures flat[j].key.Before(k) {
      if j < p - 1 {
        KeysAreTransitive(flat[j].key, flat[p - 1].key, k);
      }
    }
  }

  /** Where the seek lands in the whole table, seen as a run of the engine. */
  lemma SeekIndexOfRun(flat: Block, k: ByteKey, p: nat)
    requires Ascending(flat) && p <= |flat| && (p > 0 ==> flat[p - 1].key.Before(k))
    requires p < |flat| ==> !flat[p].key.Before(k)
    ensures Sorted(Run(flat)) && SeekIndex(Run(flat), k.Ranked()) == p
  {
    AllBefore(flat, p, k);
    forall i, j | 0 <= i < j < |flat| ensures Run(flat)[i].key.Before(Run(flat)[j].key) {
      RankedKeepsOrder(flat[i].key, flat[j].key);
    }
    forall j | 0 <= j < p ensures Run(flat)[j].key.Before(k.Ranked()) {
      RankedKeepsOrder(flat[j].key, k);
    }
    if p < |flat| {
      RankedKeepsOrder(flat[p].key, k);
    }
    SeekIndexIs(Run(flat), k.Ranked(), p);
  }

  /** Past an index key that ends a block before `k`, nothing carries the user key of `k`. */
  lemma NoFallThrough(last: ByteKey, sep: ByteKey, next: ByteKey, k: ByteKey)
    requires Separates(last, sep, next) && last.Before(k) && !sep.Before(k)
    ensures !next.Before(k) && next.user != k.user
  {
    KeysAreTotal(sep, k);
    LessIsTotal(sep.user, k.user);
    if Less(k.user, sep.user) {
      LessIsTransitive(k.user, sep.user, next.user);
    }
    LessIsTotal(next.user, k.user);
  }

  /** The pair a lookup of `u` landed on, if it is a version of `u`. */
  function Answer(found: Option<Pair>, u: Bytes): Option<Entry> {
    if found.Some? && found.value.key.user == u then Some(Entry(found.value.key.Ranked(), found.value.value)) else None
  }

  /** What the block found by the index says is what the whole table says. */
  lemma OneBlockIsEnough(index: seq<IndexEntry>, blocks: seq<Block>, u: Bytes, s: nat)
    requires Holds(index, blocks)
    ensures var k := ByteKey(u, s, Put);
      var i := SeekIndexBlock(index, k);
      var found := if i < |blocks| && SeekBlock(blocks[i], k) < |blocks[i]| then Some(blocks[i][SeekBlock(blocks[i], k)]) else None;
      Lookup(Run(Flat(blocks)), Rank(u), s) == Answer(found, u)
  {
    hide Less, ByteKey.Before, InternalKey.Before, Ascending, Flat, Rank, IndexKeyFits, SeekIndex, Sorted;
    var k, flat := ByteKey(u, s, Put), Flat(blocks);
    var i := SeekIndexBlock(index, k);
    var p := |Flat(blocks[..i])|;
    assert blocks[..|blocks|] == blocks;
    FlatOfNone(blocks);
    if i > 0 {
      BlockEndsBefore(index[i - 1].key, blocks, i - 1, k);
      assert p > 0 && flat[p - 1].key.Before(k);
    }
    if i < |blocks| {
      var j := SeekBlock(blocks[i], k);
      SeekEndsIn(index[i].key, blocks, i, k, p, j);
      Landing(flat, u, s, p + j);
    } else {
      Landing(flat, u, s, p);
    }
  }

  /** Where a seek that stays in block `i` ends in the whole table, and what it finds there. */
  lemma SeekEndsIn(sep: ByteKey, blocks: seq<Block>, i: nat, k: ByteKey, p: nat, j: nat)
    requires i < |blocks| && (forall k :: 0 <= k < |blocks| ==> blocks[k] != []) && IndexKeyFits(sep, blocks, i)
    requires p == |Flat(blocks[..i])| && j == SeekBlock(blocks[i], k) && !sep.Before(k)
    requires p > 0 ==> p <= |Flat(blocks)| && Flat(blocks)[p - 1].key.Before(k)
    ensures var flat := Flat(blocks);
      && p + j <= |flat| && (p + j > 0 ==> flat[p + j - 1].key.Before(k)) && (p + j < |flat| ==> !flat[p + j].key.Before(k))
      && (j < |blocks[i]| ==> p + j < |flat| && flat[p + j] == blocks[i][j])
      && (j == |blocks[i]| && p + j < |flat| ==> flat[p + j].key.user != k.user)
  {
    hide Less, ByteKey.Before, Flat, IndexKeyFits;
    var flat := Flat(blocks);
    assert blocks[..|blocks|] == blocks;
    FlatSplits(blocks, i);
    InBlock(flat, blocks[i], p, j, k);
    if j == |blocks[i]| && i + 1 < |blocks| {
      FlatSplits(blocks, i + 1);
      NextIsElsewhere(sep, blocks, i, k);
      assert flat[p + j] == blocks[i + 1][0];
    } else if j == |blocks[i]| {
      assert p + j == |flat|;
    }
  }

  lemma FlatOfNone(blocks: seq<Block>)
    ensures Flat(blocks[..0]) == []
  {
  }

  /** The answer of the whole table, once it is known where the seek lands. */
  lemma Landing(flat: Block, u: Bytes, s: nat, p: nat)
    requires var k := ByteKey(u, s, Put);
      Ascending(flat) && p <= |flat| && (p > 0 ==> flat[p - 1].key.Before(k)) && (p < |flat| ==> !flat[p].key.Before(k))
    ensures Lookup(Run(flat), Rank(u), s)
      == if p < |flat| && flat[p].key.user == u then Some(Entry(flat[p].key.Ranked(), flat[p].value)) else None
  {
    var k := ByteKey(u, s, Put);
    SeekIndexOfRun(flat, k, p);
    if p < |flat| {
      RankedKeepsOrder(flat[p].key, k);
    }
  }

  lemma NextIsElsewhere(sep: ByteKey, blocks: seq<Block>, i: nat, k: ByteKey)
    requires i + 1 < |blocks| && (forall k :: 0 <= k < |blocks| ==> blocks[k] != []) && IndexKeyFits(sep, blocks, i)
    requires LastKey(blocks[i]).Before(k) && !sep.Before(k)
    ensures !blocks[i + 1][0].key.Before(k) && blocks[i + 1][0].key.user != k.user
  {
    NoFallThrough(LastKey(blocks[i]), sep, blocks[i + 1][0].key, k);
  }

  lemma InBlock(flat: Block, block: Block, p: nat, j: nat, k: ByteKey)
    requires j <= |block| && p + |block| <= |flat| && (forall i :: 0 <= i < |block| ==> flat[p + i] == block[i])
    requires p > 0 ==> flat[p - 1].key.Before(k)
    requires j > 0 ==> block[j - 1].key.Before(k)
    ensures p + j > 0 ==> flat[p + j - 1].key.Before(k)
  {
  }

  /** An index key before `k` closes a block that lies before `k`. */
  lemma BlockEndsBefore(sep: ByteKey, blocks: seq<Block>, i: nat, k: ByteKey)
    requires i < |blocks| && (forall k :: 0 <= k < |blocks| ==> blocks[k] != []) && IndexKeyFits(sep, blocks, i)
    requires sep.Before(k)
    ensures var p := |Flat(blocks[..i + 1])|; 0 < p <= |Flat(blocks)| && Flat(blocks)[p - 1].key.Before(k)
  {
    FlatSplits(blocks, i);
    assert Flat(blocks)[|Flat(blocks[..i])| + (|blocks[i]| - 1)].key == LastKey(blocks[i]);
    if sep != LastKey(blocks[i]) {
      KeysAreTransitive(LastKey(blocks[i]), sep, k);
    }
  }

  /** Every key of a block matches the filter of the place where the block starts. */
  ghost predicate Filtered(f: Filters, index: seq<IndexEntry>, blocks: seq<Block>) {
    && f.Ordered()
    && forall i, e :: 0 <= i < |index| && i < |blocks| && e in blocks[i] ==> PassesFilter(f, index[i].handle.offset, e.key.user)
  }

  predicate PassesFilter(f: Filters, blockOffset: nat, user: Bytes)
    requires f.Ordered()
  {
    var i := blockOffset / BASE;
    i < |f.offsets| ==> Bloom.Matches(f.Filter(i), user)
  }

  lemma NotFiltered(f: Filters, index: seq<IndexEntry>, blocks: seq<Block>, i: nat, u: Bytes)
    requires Filtered(f, index, blocks) && i < |index| == |blocks| && !PassesFilter(f, index[i].handle.offset, u)
    ensures forall j :: 0 <= j < |blocks[i]| ==> blocks[i][j].key.user != u
  {
    hide Bloom.Matches;
    forall j | 0 <= j < |blocks[i]| ensures blocks[i][j].key.user != u {
      assert blocks[i][j] in blocks[i];
      assert PassesFilter(f, index[i].handle.offset, blocks[i][j].key.user);
    }
  }

  // ---------------------------------------------------------------- searching encoded blocks

  /** The pairs of the index block as they are stored. */
  function IndexPairs(index: seq<IndexEntry>): seq<KeyValue> {
    seq(|index|, i requires 0 <= i < |index| => KeyValue(KeyBytes(index[i].key), EncodeHandle(index[i].handle)))
  }

  ghost predicate IndexNumbered(index: seq<IndexEntry>) {
    forall i :: 0 <= i < |index| ==> index[i].key.seqno <= MAX_SEQUENCE
  }

  lemma SeekBlockUnique(block: Block, k: ByteKey, i: nat)
    requires i <= |block| && (forall j :: 0 <= j < i ==> block[j].key.Before(k)) && (i < |block| ==> !block[i].key.Before(k))
    ensures SeekBlock(block, k) == i
  {
  }

  /** Seeking in the stored pairs of a block is seeking in the block. */
  lemma SeekPairs(block: Block, k: ByteKey, i: nat, found: Option<KeyValue>)
    requires Numbered(block) && k.seqno <= MAX_SEQUENCE
    requires FirstFrom(Pairs(block), InternalLess, KeyBytes(k), i, found)
    ensures SeekBlock(block, k) == i && (i < |block| <==> found.Some?)
    ensures found.Some? ==> i < |block| && KeyOf(found.value.key) == block[i].key && found.value.value == block[i].value
  {
    hide KeyBytes, KeyOf, ByteKey.Before;
    KeyRoundTrip(k);
    forall j | 0 <= j < |block| ensures KeyOf(Pairs(block)[j].key) == block[j].key {
      assert block[j] in block;
      KeyRoundTrip(block[j].key);
    }
    forall j | 0 <= j < i ensures block[j].key.Before(k) {
      assert InternalLess(Pairs(block)[j].key, KeyBytes(k));
    }
    SeekBlockUnique(block, k, i);
  }

  lemma SeekIndexUnique(index: seq<IndexEntry>, k: ByteKey, i: nat)
    requires i <= |index| && (forall j :: 0 <= j < i ==> index[j].key.Before(k)) && (i < |index| ==> !index[i].key.Before(k))
    ensures SeekIndexBlock(index, k) == i
  {
  }

  lemma SeekIndexPairs(index: seq<IndexEntry>, k: ByteKey, i: nat, found: Option<KeyValue>)
    requires IndexNumbered(index) && k.seqno <= MAX_SEQUENCE
    requires FirstFrom(IndexPairs(index), InternalLess, KeyBytes(k), i, found)
    ensures SeekIndexBlock(index, k) == i && (i < |index| <==> found.Some?)
    ensures found.Some? ==> i < |index| && found.value.value == EncodeHandle(index[i].handle)
  {
    hide KeyBytes, KeyOf, ByteKey.Before, EncodeHandle;
    KeyRoundTrip(k);
    forall j | 0 <= j < |index| ensures KeyOf(IndexPairs(index)[j].key) == index[j].key {
      KeyRoundTrip(index[j].key);
    }
    forall j | 0 <= j < i ensures index[j].key.Before(k) {
      assert InternalLess(IndexPairs(index)[j].key, KeyBytes(k));
    }
    SeekIndexUnique(index, k, i);
  }

  /** Index keys follow one another as the blocks do. */
  lemma IndexIncreases(index: seq<IndexEntry>, blocks: seq<Block>)
    requires Holds(index, blocks) && IndexNumbered(index)
    ensures Increasing(InternalLess, IndexPairs(index))
  {
    hide KeyBytes, KeyOf, ByteKey.Before, Flat, Ascending, IndexKeyFits, EncodeHandle;
    forall i, j | 0 <= i < j < |index| ensures InternalLess(IndexPairs(index)[i].key, IndexPairs(index)[j].key) {
      KeyRoundTrip(index[i].key);
      KeyRoundTrip(index[j].key);
      IndexKeysAscend(index, blocks, i, j);
    }
  }

  lemma {:induction false} IndexKeysAscend(index: seq<IndexEntry>, blocks: seq<Block>, i: nat, j: nat)
    requires Holds(index, blocks) && i < j < |index|
    ensures index[i].key.Before(index[j].key)
    decreases j - i
  {
    hide ByteKey.Before, Flat, Ascending;
    NextIndexKey(index, blocks, i);
    if i + 1 < j {
      IndexKeysAscend(index, blocks, i + 1, j);
      KeysAreTransitive(index[i].key, index[i + 1].key, index[j].key);
    }
  }

  lemma NextIndexKey(index: seq<IndexEntry>, blocks: seq<Block>, i: nat)
    requires Holds(index, blocks) && i + 1 < |index|
    ensures index[i].key.Before(index[i + 1].key)
  {
    hide Flat, Less;
    var last, first, end := LastKey(blocks[i]), blocks[i + 1][0].key, LastKey(blocks[i + 1]);
    assert IndexKeyFits(index[i].key, blocks, i) && IndexKeyFits(index[i + 1].key, blocks, i + 1);
    BlockKeys(blocks, i);
    SepBefore(last, index[i].key, first);
    UpToSep(end, index[i + 1].key);
    if first != end {
      KeysAreTransitive(index[i].key, first, end);
    }
    if end != index[i + 1].key {
      KeysAreTransitive(index[i].key, end, index[i + 1].key);
    }
  }

  lemma BlockKeys(blocks: seq<Block>, i: nat)
    requires i + 1 < |blocks| && (forall k :: 0 <= k < |blocks| ==> blocks[k] != []) && Ascending(Flat(blocks))
    ensures LastKey(blocks[i]).Before(blocks[i + 1][0].key)
    ensures blocks[i + 1][0].key == LastKey(blocks[i + 1]) || blocks[i + 1][0].key.Before(LastKey(blocks[i + 1]))
  {
    hide ByteKey.Before, Flat, Ascending;
    var p, n, m := |Flat(blocks[..i])|, |blocks[i]|, |blocks[i + 1]|;
    InFlat(blocks, i, n - 1);
    InFlat(blocks, i + 1, 0);
    InFlat(blocks, i + 1, m - 1);
    FlatSplits(blocks, i);
    KeysAscend(Flat(blocks), p + (n - 1), p + n);
    if m > 1 {
      KeysAscend(Flat(blocks), p + n, p + n + (m - 1));
    }
  }

  lemma InFlat(blocks: seq<Block>, i: nat, j: nat)
    requires i < |blocks| && j < |blocks[i]|
    ensures |Flat(blocks[..i])| + j < |Flat(blocks)| && Flat(blocks)[|Flat(blocks[..i])| + j] == blocks[i][j]
  {
    FlatSplits(blocks, i);
  }

  lemma KeysAscend(flat: Block, a: nat, b: nat)
    requires Ascending(flat) && a < b < |flat|
    ensures flat[a].key.Before(flat[b].key)
  {
  }

  lemma SepBefore(last: ByteKey, sep: ByteKey, next: ByteKey)
    requires Separates(last, sep, next) && last.Before(next)
    ensures sep.Before(next)
  {
  }

  lemma UpToSep(last: ByteKey, sep: ByteKey)
    requires Succeeds(last, sep) || exists next :: Separates(last, sep, next)
    ensures last == sep || last.Before(sep)
  {
  }
}
