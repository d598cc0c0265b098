/** The filter block of a table: one filter for all data blocks that start in the same 2 KB of
  * the file. */
module FilterBlock {
  import opened ByteNumbers
  import opened Coding
  import opened Bloom

  const BASE_LG: nat := 11
  const BASE: nat := 2048

  function Power2(n: nat): (p: nat)
    ensures p > 0
  {
    if n == 0 then 1 else 2 * Power2(n - 1)
  }

  /** The filters, one behind the other, and where each begins. */
  datatype Filters = Filters(result: Bytes, offsets: seq<nat>) {
    ghost predicate Ordered() {
      && (forall i :: 0 <= i < |offsets| ==> offsets[i] <= |result|)
      && (forall i, k :: 0 <= i < k < |offsets| ==> offsets[i] <= offsets[k])
    }

    function End(i: nat): nat
      requires i < |offsets|
    {
      if i + 1 < |offsets| then offsets[i + 1] else |result|
    }

    function Filter(i: nat): Bytes
      requires Ordered() && i < |offsets|
    {
      result[offsets[i]..End(i)]
    }

    /** Every group has the filter of exactly its keys; without keys, an empty one. */
    ghost predicate Covers(groups: seq<seq<Bytes>>, bitsPerKey: nat, k: nat)
      requires Ordered()
    {
      |groups| == |offsets| && forall i :: 0 <= i < |groups| ==> FilterFor(Filter(i), groups[i], bitsPerKey, k)
    }
  }

  ghost predicate FilterFor(filter: Bytes, keys: seq<Bytes>, bitsPerKey: nat, k: nat) {
    if keys == [] then filter == [] else FilterOf(filter, keys, bitsPerKey, k)
  }

  /** Every key of a group matches the filter of that group. */
  lemma CoveredMatches(f: Filters, groups: seq<seq<Bytes>>, bitsPerKey: nat, k: nat, i: nat, key: Bytes)
    requires f.Ordered() && f.Covers(groups, bitsPerKey, k) && i < |groups| && key in groups[i]
    ensures i < |f.offsets| && Matches(f.Filter(i), key)
  {
    assert FilterFor(f.Filter(i), groups[i], bitsPerKey, k);
    FilterOfMatches(f.Filter(i), groups[i], bitsPerKey, k, key);
  }

  /** A further filter leaves the earlier ones as they are. */
  lemma AppendFilter(f: Filters, groups: seq<seq<Bytes>>, result: Bytes, keys: seq<Bytes>, bitsPerKey: nat, k: nat)
    requires f.Ordered() && f.Covers(groups, bitsPerKey, k) && f.result <= result
    requires FilterFor(result[|f.result|..], keys, bitsPerKey, k)
    ensures var f' := Filters(result, f.offsets + [|f.result|]); f'.Ordered() && f'.Covers(groups + [keys], bitsPerKey, k)
  {
    hide FilterFor;
    var f' := Filters(result, f.offsets + [|f.result|]);
    forall i | 0 <= i <= |groups| ensures FilterFor(f'.Filter(i), (groups + [keys])[i], bitsPerKey, k) {
      if i < |groups| {
        assert f'.Filter(i) == f.Filter(i);
      } else {
        assert f'.Filter(i) == result[|f.result|..];
      }
    }
  }

  class FilterBlockBuilder {
    const policy: BloomFilterPolicy
    var keys: Bytes
    var start: seq<nat>
    var result: Bytes
    var filterOffsets: seq<nat>
    ghost var groups: seq<seq<Bytes>>

    ghost predicate Ok()
      reads this
    {
      && policy.Ok()
      && Split(keys, start)
      && Filters(result, filterOffsets).Ordered() && Filters(result, filterOffsets).Covers(groups, policy.bitsPerKey, policy.k)
    }

    /** The keys waiting for the next filter. */
    ghost function Pending(): seq<Bytes>
      requires Split(keys, start)
      reads this
    {
      Pieces(keys, start)
    }

    constructor (policy: BloomFilterPolicy)
      requires policy.Ok()
      ensures Ok() && groups == [] && Pending() == []
    {
      this.policy := policy;
      keys, start, result, filterOffsets, groups := [], [], [], [], [];
    }

    method AddKey(key: Bytes)
      requires Ok()
      modifies this
      ensures Ok() && groups == old(groups) && Pending() == old(Pending()) + [key]
    {
      hide FilterOf, Filters.Covers, Filters.Ordered;
      AddPiece(keys, start, key);
      start := start + [|keys|];
      keys := keys + key;
    }

    /** Filters are complete for all blocks that start before `blockOffset`. */
    method StartBlock(blockOffset: nat)
      requires Ok() && |filterOffsets| <= blockOffset / BASE
      modifies this
      ensures Ok() && |groups| == |filterOffsets| == blockOffset / BASE
      ensures old(groups) + [old(Pending())] <= groups || (groups == old(groups) && Pending() == old(Pending()))
      ensures |groups| > |old(groups)| ==> Pending() == []
      ensures forall i :: |old(groups)| < i < |groups| ==> groups[i] == []
    {
      hide FilterOf, Split;
      var filterIndex := blockOffset / BASE;
      while filterIndex > |filterOffsets|
        invariant Ok() && |groups| == |filterOffsets| <= filterIndex
        invariant old(groups) + [old(Pending())] <= groups || (groups == old(groups) && Pending() == old(Pending()))
        invariant |groups| > |old(groups)| ==> Pending() == []
        invariant forall i :: |old(groups)| < i < |groups| ==> groups[i] == []
      {
        GenerateFilter();
      }
    }

    lemma FiltersAreOrdered()
      requires Ok()
      ensures Filters(result, filterOffsets).Ordered() && Filters(result, filterOffsets).Covers(groups, policy.bitsPerKey, policy.k)
    {
    }

    /** The filters and their offsets as they go to the file. */
    method Finish() returns (contents: Bytes, ghost f: Filters)
      requires Ok()
      modifies this
      ensures Ok() && f == Filters(result, filterOffsets) && f.Covers(groups, policy.bitsPerKey, policy.k)
      ensures |f.result| < LIMIT32 ==> contents == Finished(f)
      ensures if old(Pending()) == [] then groups == old(groups) else groups == old(groups) + [old(Pending())]
    {
      hide FilterOf, EncodeLength;
      NothingPending(keys, start);
      if start != [] {
        GenerateFilter();
      }
      f := Filters(result, filterOffsets);
      contents := AppendLengths(result, filterOffsets);
      contents := contents + EncodeLength(|result| % LIMIT32);
      contents := contents + [11];
    }

    method GenerateFilter()
      requires Ok()
      modifies this
      ensures Ok() && groups == old(groups) + [old(Pending())] && Pending() == []
    {
      hide FilterOf;
      ghost var f := Filters(result, filterOffsets);
      if start == [] {
        AppendFilter(f, groups, result, [], policy.bitsPerKey, policy.k);
        filterOffsets := filterOffsets + [|result|];
        groups := groups + [[]];
        return;
      }
      var tmpKeys: seq<Bytes> := [];
      for i := 0 to |start|
        invariant f == Filters(result, filterOffsets)
        invariant tmpKeys == Pieces(keys, start)[..i]
      {
        tmpKeys := tmpKeys + [keys[start[i]..(if i + 1 < |start| then start[i + 1] else |keys|)]];
      }
      assert tmpKeys == Pieces(keys, start);
      var result' := policy.CreateFilter(tmpKeys, result);
      AppendFilter(f, groups, result', tmpKeys, policy.bitsPerKey, policy.k);
      groups := groups + [tmpKeys];
      filterOffsets := filterOffsets + [|result|];
      result := result';
      keys, start := [], [];
    }
  }

  /** The flattened keys are cut at rising positions. */
  ghost predicate Split(keys: Bytes, start: seq<nat>) {
    && (forall i :: 0 <= i < |start| ==> start[i] <= |keys|)
    && (forall i, k :: 0 <= i < k < |start| ==> start[i] <= start[k])
    && (start == [] ==> keys == [])
  }

  function Pieces(keys: Bytes, start: seq<nat>): (p: seq<Bytes>)
    requires Split(keys, start)
  {
    seq(|start|, i requires 0 <= i < |start| => keys[start[i]..(if i + 1 < |start| then start[i + 1] else |keys|)])
  }

  lemma AddPiece(keys: Bytes, start: seq<nat>, key: Bytes)
    requires Split(keys, start)
    ensures Split(keys + key, start + [|keys|]) && Pieces(keys + key, start + [|keys|]) == Pieces(keys, start) + [key]
  {
    var p, q := Pieces(keys + key, start + [|keys|]), Pieces(keys, start) + [key];
    forall i | 0 <= i < |q| ensures p[i] == q[i] {
      if i < |start| {
        var end := if i + 1 < |start| then start[i + 1] else |keys|;
        assert (keys + key)[start[i]..end] == keys[start[i]..end];
      } else {
        assert (keys + key)[|keys|..] == key;
      }
    }
  }

  lemma NothingPending(keys: Bytes, start: seq<nat>)
    requires Split(keys, start)
    ensures Pieces(keys, start) == [] <==> start == []
  {
  }

  // ---------------------------------------------------------------- on disk

  /** The finished block: filters, their offsets, where the offsets begin, and the base. */
  function Finished(f: Filters): Bytes
    requires f.Ordered() && |f.result| < LIMIT32
  {
    f.result + EncodeLengths(f.offsets) + EncodeLength(|f.result|) + [11]
  }

  class FilterBlockReader {
    const policy: BloomFilterPolicy
    const data: Bytes
    const offset: nat
    const num: nat
    const baseLg: nat

    /** What the constructor parsed lies inside the data. */
    ghost predicate Ok() {
      num > 0 ==> offset + 4 * num + 4 <= |data|
    }

    constructor (policy: BloomFilterPolicy, contents: Bytes)
      ensures Ok() && data == contents
      ensures forall f: Filters :: f.Ordered() && |f.result| < LIMIT32 && contents == Finished(f) ==> Represents(f)
    {
      hide DecodeLength, EncodeLength;
      this.policy, data := policy, contents;
      var n := |contents|;
      if n < 5 {
        offset, num, baseLg := 0, 0, 0;
      } else {
        baseLg := contents[n - 1] as nat;
        var lastWord := DecodeLength(contents[n - 5..n - 1]);
        if lastWord > n - 5 {
          offset, num := 0, 0;
        } else {
          offset, num := lastWord, (n - 5 - lastWord) / 4;
        }
      }
      new;
      forall f: Filters | f.Ordered() && |f.result| < LIMIT32 && contents == Finished(f) ensures Represents(f) {
        LengthRoundTrip(|f.result|);
        assert Finished(f)[n - 5..n - 1] == EncodeLength(|f.result|);
      }
    }

    ghost predicate Represents(f: Filters) {
      && f.Ordered() && |f.result| < LIMIT32
      && data == Finished(f) && offset == |f.result| && num == |f.offsets| && baseLg == BASE_LG
    }

    lemma IndexIs(f: Filters, blockOffset: nat)
      requires Represents(f)
      ensures blockOffset / Power2(baseLg) == blockOffset / BASE && num == |f.offsets| && f.Ordered()
    {
      assert Power2(BASE_LG) == BASE;
    }

    lemma FilterStored(f: Filters, index: nat)
      requires Ok() && Represents(f) && index < num
      ensures index < |f.offsets| && f.Ordered()
      ensures var start, limit := DecodeLength(data[offset + 4 * index..offset + 4 * index + 4]),
                                  DecodeLength(data[offset + 4 * index + 4..offset + 4 * index + 8]);
        start <= limit <= offset <= |data| && data[start..limit] == f.Filter(index)
    {
      hide DecodeLength, Finished;
      WordAt(f, index);
      WordAt(f, index + 1);
    }

    /** May the block at `blockOffset` hold the key? */
    method KeyMayMatch(blockOffset: nat, key: Bytes, ghost f: Filters) returns (r: bool)
      requires Ok()
      ensures Represents(f) ==> r == (blockOffset / BASE < |f.offsets| ==> Matches(f.Filter(blockOffset / BASE), key))
    {
      hide DecodeLength, Matches, Represents, Filters.Filter, Power2;
      var index := blockOffset / Power2(baseLg);
      if Represents(f) {
        IndexIs(f, blockOffset);
        if index < num {
          FilterStored(f, index);
        }
      }
      if index < num {
        var start := DecodeLength(data[offset + 4 * index..offset + 4 * index + 4]);
        var limit := DecodeLength(data[offset + 4 * index + 4..offset + 4 * index + 8]);
        if start <= limit && limit <= offset {
          r := policy.KeyMayMatch(key, data[start..limit]);
          return;
        } else if start == limit {
          // a filter without bytes was made for no key
          return false;
        }
      }
      // when in doubt, read the block
      return true;
    }
  }

  /** A word of the offset array, or the one behind it; and the filters in front of them. */
  lemma WordAt(f: Filters, i: nat)
    requires f.Ordered() && |f.result| < LIMIT32 && i <= |f.offsets|
    ensures |f.result| + 4 * i + 4 <= |Finished(f)|
    ensures DecodeLength(Finished(f)[|f.result| + 4 * i..|f.result| + 4 * i + 4])
      == if i < |f.offsets| then f.offsets[i] else |f.result|
    ensures forall a, b :: 0 <= a <= b <= |f.result| ==> Finished(f)[a..b] == f.result[a..b]
  {
    hide DecodeLength, EncodeLength;
    var words := EncodeLengths(f.offsets);
    if i < |f.offsets| {
      LengthsAt(f.offsets, i);
      assert Finished(f)[|f.result| + 4 * i..|f.result| + 4 * i + 4] == words[4 * i..4 * i + 4];
    } else {
      LengthRoundTrip(|f.result|);
      assert Finished(f)[|f.result| + 4 * i..|f.result| + 4 * i + 4] == EncodeLength(|f.result|);
    }
  }
}
