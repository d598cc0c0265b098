/** Reading a block: an iterator that rebuilds keys as it goes and searches the restart points. */
module BlockIterator {
  import opened ByteNumbers
  import opened Keys
  import opened Coding
  import opened BlockFormat

  type Comparator = (Bytes, Bytes) -> bool

  ghost predicate Transitive(less: Comparator) {
    forall a, b, c :: less(a, b) && less(b, c) ==> less(a, c)
  }

  ghost predicate Increasing(less: Comparator, pairs: seq<KeyValue>) {
    forall i, j :: 0 <= i < j < |pairs| ==> less(pairs[i].key, pairs[j].key)
  }

  /** The header of an entry, and where its key begins. */
  datatype Decoded = Decoded(shared: nat, nonShared: nat, valueLength: nat, start: nat)

  /** A 32-bit varint and the number of bytes it took. */
  function Varint32(b: Bytes): (r: Option<(nat, nat)>)
    ensures r.Some? ==> 0 < r.value.1 <= |b|
  {
    var r := GetVarint32(b);
    if r.None? then None else Some((r.value.0, |b| - |r.value.1|))
  }

  function DecodeEntry(data: Bytes, p: nat, limit: nat): (r: Option<Decoded>)
    requires p <= limit <= |data|
    ensures r.Some? ==> p + 3 <= r.value.start <= limit
  {
    if limit - p < 3 then
      None
    else
      var header := Header(data, p, limit);
      if header.None? || (limit - header.value.start) % LIMIT32 < (header.value.nonShared + header.value.valueLength) % LIMIT32
      then None else header
  }

  function Header(data: Bytes, p: nat, limit: nat): (r: Option<Decoded>)
    requires p + 3 <= limit <= |data|
    ensures r.Some? ==> p + 3 <= r.value.start <= limit
  {
    if !More(data[p]) && !More(data[p + 1]) && !More(data[p + 2]) then
      // three small numbers take a byte each, and nothing needs decoding
      Some(Decoded(Low7(data[p]), Low7(data[p + 1]), Low7(data[p + 2]), p + 3))
    else
      SlowHeader(data, p, limit)
  }

  function SlowHeader(data: Bytes, p: nat, limit: nat): (r: Option<Decoded>)
    requires p <= limit <= |data|
    ensures r.Some? ==> p + 3 <= r.value.start <= limit
  {
    var a := Varint32(data[p..limit]);
    if a.None? then None else
      var q := p + a.value.1;
      var b := Varint32(data[q..limit]);
      if b.None? then None else
        var s := q + b.value.1;
        var c := Varint32(data[s..limit]);
        if c.None? then None else Some(Decoded(a.value.0, b.value.0, c.value.0, s + c.value.1))
  }

  lemma ShortVarint(b: Bytes)
    requires b != [] && !More(b[0])
    ensures GetVarint32(b) == Some((Low7(b[0]), b[1..]))
  {
  }

  ghost predicate VarintAt(n: nat, data: Bytes, p: nat, limit: nat)
    requires p <= limit <= |data|
  {
    p + |EncodeVarint(n)| <= limit && data[p..p + |EncodeVarint(n)|] == EncodeVarint(n)
  }

  lemma VarintAhead(n: nat, data: Bytes, p: nat, limit: nat)
    requires n < LIMIT32 && p <= limit <= |data| && VarintAt(n, data, p, limit)
    ensures Varint32(data[p..limit]) == Some((n, |EncodeVarint(n)|))
    ensures p < limit && (!More(data[p]) ==> Low7(data[p]) == n && |EncodeVarint(n)| == 1)
  {
    hide More, Low7, EncodeVarint, GetVarint32;
    var b, rest := EncodeVarint(n), data[p + |EncodeVarint(n)|..limit];
    assert data[p..limit] == b + rest;
    Varint32RoundTrip(n, rest);
    assert data[p] == data[p..limit][0];
    if !More(data[p]) {
      ShortVarint(data[p..limit]);
    }
  }

  lemma HeaderFromVarints(data: Bytes, p: nat, limit: nat, a: nat, la: nat, b: nat, lb: nat, c: nat, lc: nat)
    requires 0 < la && 0 < lb && 0 < lc && p + la + lb + lc <= limit <= |data|
    requires Varint32(data[p..limit]) == Some((a, la)) && (!More(data[p]) ==> Low7(data[p]) == a && la == 1)
    requires Varint32(data[p + la..limit]) == Some((b, lb)) && (!More(data[p + la]) ==> Low7(data[p + la]) == b && lb == 1)
    requires Varint32(data[p + la + lb..limit]) == Some((c, lc))
    requires !More(data[p + la + lb]) ==> Low7(data[p + la + lb]) == c && lc == 1
    ensures Header(data, p, limit) == Some(Decoded(a, b, c, p + la + lb + lc))
  {
    hide Varint32, More, Low7;
  }

  /** The three lengths, wherever they stand. */
  lemma HeaderIs(data: Bytes, p: nat, limit: nat, a: nat, b: nat, c: nat)
    requires a < LIMIT32 && b < LIMIT32 && c < LIMIT32 && p <= limit <= |data|
    requires p + |EncodeVarint(a)| + |EncodeVarint(b)| + |EncodeVarint(c)| <= limit
    requires VarintAt(a, data, p, limit) && VarintAt(b, data, p + |EncodeVarint(a)|, limit)
    requires VarintAt(c, data, p + |EncodeVarint(a)| + |EncodeVarint(b)|, limit)
    ensures Header(data, p, limit) == Some(Decoded(a, b, c, p + |EncodeVarint(a)| + |EncodeVarint(b)| + |EncodeVarint(c)|))
  {
    hide EncodeVarint, Varint32, More, Low7, Header, VarintAt;
    var la, lb, lc := |EncodeVarint(a)|, |EncodeVarint(b)|, |EncodeVarint(c)|;
    VarintAhead(a, data, p, limit);
    VarintAhead(b, data, p + la, limit);
    VarintAhead(c, data, p + la + lb, limit);
    HeaderFromVarints(data, p, limit, a, la, b, lb, c, lc);
  }

  /** An entry decodes to what was put in. */
  lemma DecodeEntryIs(data: Bytes, p: nat, limit: nat, shared: nat, e: KeyValue)
    requires shared <= |e.key| < LIMIT32 && p <= limit <= |data| < LIMIT32
    requires p + |EntryBytes(shared, e)| <= limit && data[p..p + |EntryBytes(shared, e)|] == EntryBytes(shared, e)
    ensures var d := DecodeEntry(data, p, limit);
      && d.Some? && d.value.shared == shared && d.value.nonShared == |e.key| - shared && d.value.valueLength == |e.value|
      && d.value.start + d.value.nonShared + d.value.valueLength == p + |EntryBytes(shared, e)|
      && data[d.value.start..d.value.start + d.value.nonShared] == e.key[shared..]
      && data[d.value.start + d.value.nonShared..p + |EntryBytes(shared, e)|] == e.value
  {
    hide EncodeVarint, Header, EntryBytes, VarintAt;
    var whole := EntryBytes(shared, e);
    var n := |EncodeVarint(shared)| + |EncodeVarint(|e.key| - shared)| + |EncodeVarint(|e.value|)|;
    EntryParts(shared, e);
    EntryVarints(data, p, limit, shared, e);
    HeaderIs(data, p, limit, shared, |e.key| - shared, |e.value|);
    Inside(data, p, whole, n, n + |e.key| - shared);
    Inside(data, p, whole, n + |e.key| - shared, |whole|);
  }

  lemma EntryVarints(data: Bytes, p: nat, limit: nat, shared: nat, e: KeyValue)
    requires shared <= |e.key| && p <= limit <= |data|
    requires p + |EntryBytes(shared, e)| <= limit && data[p..p + |EntryBytes(shared, e)|] == EntryBytes(shared, e)
    ensures var a, b := |EncodeVarint(shared)|, |EncodeVarint(|e.key| - shared)|;
      && p + a + b + |EncodeVarint(|e.value|)| <= p + |EntryBytes(shared, e)|
      && VarintAt(shared, data, p, limit) && VarintAt(|e.key| - shared, data, p + a, limit) && VarintAt(|e.value|, data, p + a + b, limit)
  {
    hide EncodeVarint, EntryBytes;
    var whole := EntryBytes(shared, e);
    var a, b, c := |EncodeVarint(shared)|, |EncodeVarint(|e.key| - shared)|, |EncodeVarint(|e.value|)|;
    EntryParts(shared, e);
    Inside(data, p, whole, 0, a);
    Inside(data, p, whole, a, a + b);
    Inside(data, p, whole, a + b, a + b + c);
  }

  lemma Inside(data: Bytes, p: nat, whole: Bytes, a: nat, b: nat)
    requires p + |whole| <= |data| && data[p..p + |whole|] == whole && a <= b <= |whole|
    ensures data[p + a..p + b] == whole[a..b]
  {
    forall k | 0 <= k < b - a ensures data[p + a..p + b][k] == whole[a..b][k] {
      assert data[p..p + |whole|][a + k] == whole[a + k];
    }
  }

  // ---------------------------------------------------------------- the iterator

  ghost predicate MatchesLayout(data: Bytes, restarts: nat, numRestarts: nat, l: Layout) {
    && restarts + 4 * numRestarts <= |data| < LIMIT32 && Packed(data[..restarts], l)
    && numRestarts == |l.points|
    && forall j :: 0 <= j < numRestarts ==> DecodeLength(data[restarts + 4 * j..restarts + 4 * j + 4]) == Restarts(l)[j]
  }

  class Iter {
    const less: Comparator
    const data: Bytes
    const restarts: nat
    const numRestarts: nat
    ghost const layout: Layout
    var current: nat
    var restartIndex: nat
    var key: Bytes
    var valueStart: nat
    var valueLength: nat
    var corrupt: bool

    ghost predicate Ok()
      reads this
    {
      && restarts + 4 * numRestarts <= |data| && numRestarts > 0
      && current <= restarts && (current < restarts ==> restartIndex < numRestarts)
    }

    predicate Valid()
      reads this
    {
      current < restarts
    }

    /** The block is one the builder made of the pairs in `layout`. */
    ghost predicate Faithful() {
      MatchesLayout(data, restarts, numRestarts, layout)
    }

    function NextEntryOffset(): nat
      reads this
    {
      valueStart + valueLength
    }

    /** How much of the block has not been parsed. */
    ghost function Left(): nat
      reads this
    {
      if NextEntryOffset() < restarts then restarts - NextEntryOffset() else 0
    }

    function GetRestartPoint(index: nat): nat
      requires index < numRestarts && restarts + 4 * numRestarts <= |data|
    {
      DecodeLength(data[restarts + 4 * index..restarts + 4 * index + 4])
    }

    /** The restart point in use is not behind entry `i`. */
    ghost predicate Anchored(i: nat)
      reads this
    {
      restartIndex < |layout.points| && layout.points[restartIndex] <= i
    }

    /** The iterator stands at entry `i`. */
    ghost predicate AtEntry(i: nat)
      requires Faithful()
      reads this
    {
      && i < |layout.pairs| && current == layout.pos[i] && key == layout.pairs[i].key
      && valueStart <= NextEntryOffset() == layout.pos[i + 1] <= |data|
      && data[valueStart..valueStart + valueLength] == layout.pairs[i].value
      && Anchored(i)
    }

    /** Parsing goes on with entry `i`. */
    ghost predicate Ready(i: nat)
      requires Faithful()
      reads this
    {
      && i <= |layout.pairs| && NextEntryOffset() == layout.pos[i] && Anchored(i)
      && (i < |layout.pairs| ==> layout.shared[i] <= |key| && layout.shared[i] <= |layout.pairs[i].key|)
      && (i < |layout.pairs| ==> key[..layout.shared[i]] == layout.pairs[i].key[..layout.shared[i]])
    }

    lemma NextIsReady(i: nat)
      requires Faithful() && AtEntry(i)
      ensures Ready(i + 1)
    {
      if i + 1 < |layout.pairs| {
        assert EntryAt(data[..restarts], layout, i + 1);
      }
    }

    lemma InsideBlock(i: nat)
      requires Faithful() && i <= |layout.pairs|
      ensures |layout.pos| == |layout.pairs| + 1 == |layout.shared| + 1
      ensures layout.pos[i] <= restarts && (i < |layout.pairs| <==> layout.pos[i] < restarts)
    {
    }

    lemma PointIs(j: nat)
      requires Faithful() && j < numRestarts
      ensures layout.points[j] <= |layout.pairs| == |layout.shared| == |layout.pos| - 1
      ensures GetRestartPoint(j) == layout.pos[layout.points[j]]
      ensures layout.points[j] < |layout.pairs| ==> layout.shared[layout.points[j]] == 0
      ensures j == 0 ==> layout.points[j] == 0
      ensures layout.pairs != [] ==> layout.points[j] < |layout.pairs|
    {
      assert RestartAt(layout, layout.points[j]);
      assert Restarts(layout)[j] == layout.pos[layout.points[j]];
    }

    lemma PositionsRise(i: nat, k: nat)
      requires Faithful() && i <= |layout.pairs| && k <= |layout.pairs|
      ensures layout.pos[i] < layout.pos[k] <==> i < k
    {
    }

    constructor (less: Comparator, data: Bytes, restarts: nat, numRestarts: nat, ghost layout: Layout)
      requires restarts + 4 * numRestarts <= |data| && numRestarts > 0
      ensures Ok() && !Valid() && !corrupt
      ensures this.less == less && this.data == data && this.restarts == restarts && this.numRestarts == numRestarts && this.layout == layout
    {
      this.less, this.data, this.restarts, this.numRestarts, this.layout := less, data, restarts, numRestarts, layout;
      current, restartIndex, key, valueStart, valueLength, corrupt := restarts, numRestarts, [], 0, 0, false;
    }

    /** Key and value where the iterator stands. */
    function Current(): KeyValue
      reads this
    {
      KeyValue(key, if NextEntryOffset() <= |data| then data[valueStart..NextEntryOffset()] else [])
    }

    lemma CurrentIs(i: nat)
      requires Faithful() && i < |layout.pairs| && AtEntry(i)
      ensures Valid() && Current() == layout.pairs[i]
    {
      InsideBlock(i);
    }

    method CorruptionError()
      requires Ok()
      modifies this
      ensures Ok() && !Valid() && corrupt
    {
      current, restartIndex, key, valueStart, valueLength, corrupt := restarts, numRestarts, [], 0, 0, true;
    }

    method SeekToRestartPoint(index: nat)
      requires Ok() && index < numRestarts
      modifies this
      ensures restartIndex == index && current == old(current) && corrupt == old(corrupt) && Ok()
      ensures Faithful() ==> layout.points[index] <= |layout.pairs| && Ready(layout.points[index])
    {
      hide Packed, DecodeLength;
      if Faithful() {
        PointIs(index);
      }
      key, restartIndex := [], index;
      valueStart, valueLength := GetRestartPoint(index), 0;
    }

    /** Moves to the entry behind the value; false when there is none. */
    method ParseNextKey(ghost i: nat) returns (ok: bool)
      requires Ok() && restartIndex < numRestarts
      modifies this
      ensures Ok() && ok == Valid() && (ok ==> Left() < old(Left()))
      ensures Faithful() && old(Ready(i)) ==> corrupt == old(corrupt) && (if i < |layout.pairs| then ok && AtEntry(i) else !ok)
    {
      hide Packed, DecodeEntry, DecodeLength;
      ghost var ready := Faithful() && Ready(i);
      if ready {
        InsideBlock(i);
      }
      current := NextEntryOffset();
      if current >= restarts {
        current, restartIndex := restarts, numRestarts;
        return false;
      }
      if ready {
        EntryDecodes(i);
      }
      var d := DecodeEntry(data, current, restarts);
      if d.None? || |key| < d.value.shared {
        CorruptionError();
        return false;
      }
      var Decoded(shared, nonShared, length, start) := d.value;
      key := key[..shared] + (if start + nonShared <= |data| then data[start..start + nonShared] else []);
      valueStart, valueLength := start + nonShared, length;
      while restartIndex + 1 < numRestarts && GetRestartPoint(restartIndex + 1) < current
        modifies this`restartIndex
        invariant restartIndex < numRestarts
        invariant ready ==> Anchored(i)
      {
        if ready {
          PointIs(restartIndex + 1);
          PositionsRise(layout.points[restartIndex + 1], i);
        }
        restartIndex := restartIndex + 1;
      }
      return true;
    }

    /** What decoding the entry the iterator is ready for gives. */
    lemma EntryDecodes(i: nat)
      requires Faithful() && Ready(i) && i < |layout.pairs|
      ensures var d := DecodeEntry(data, layout.pos[i], restarts);
        && d.Some? && d.value.shared <= |key| && d.value.start + d.value.nonShared + d.value.valueLength == layout.pos[i + 1] <= restarts
        && key[..d.value.shared] + data[d.value.start..d.value.start + d.value.nonShared] == layout.pairs[i].key
        && data[d.value.start + d.value.nonShared..layout.pos[i + 1]] == layout.pairs[i].value
    {
      hide EntryBytes, DecodeEntry;
      assert EntryAt(data[..restarts], layout, i);
      var p, shared, e := layout.pos[i], layout.shared[i], layout.pairs[i];
      assert data[..restarts][p..layout.pos[i + 1]] == data[p..layout.pos[i + 1]];
      DecodeEntryIs(data, p, restarts, shared, e);
      assert e.key == e.key[..shared] + e.key[shared..];
    }

    method Next(ghost i: nat)
      requires Ok() && Valid()
      modifies this
      ensures Ok()
      ensures Faithful() && old(AtEntry(i)) ==> corrupt == old(corrupt) && (if i + 1 < |layout.pairs| then AtEntry(i + 1) else !Valid())
    {
      hide Faithful, AtEntry, Ready;
      if Faithful() && AtEntry(i) {
        NextIsReady(i);
      }
      var _ := ParseNextKey(i + 1);
    }

    /** Backs up to a restart point before the entry and scans forward again. */
    method Prev(ghost i: nat)
      requires Ok() && Valid()
      modifies this
      ensures Ok()
      ensures Faithful() && old(AtEntry(i)) ==> corrupt == old(corrupt) && (if i > 0 then AtEntry(i - 1) else !Valid())
    {
      hide Packed, DecodeLength, Ready;
      ghost var enc := Faithful() && AtEntry(i);
      var original := current;
      while GetRestartPoint(restartIndex) >= original
        modifies this
        invariant Ok() && Valid() && current == original && corrupt == old(corrupt)
        invariant restartIndex < numRestarts && (enc ==> Anchored(i))
        decreases restartIndex
      {
        if enc {
          PointIs(restartIndex);
          PositionsRise(layout.points[restartIndex], i);
        }
        if restartIndex == 0 {
          // no more entries
          current, restartIndex := restarts, numRestarts;
          return;
        }
        if enc {
          PointsRise(restartIndex);
        }
        restartIndex := restartIndex - 1;
      }
      ghost var k: nat := 0;
      if enc {
        PointIs(restartIndex);
        k := layout.points[restartIndex];
        PositionsRise(k, i);
      }
      SeekToRestartPoint(restartIndex);
      var more := ParseNextKey(k);
      while more && NextEntryOffset() < original
        invariant Ok() && more == Valid()
        invariant enc ==> corrupt == old(corrupt) && k < i && more && AtEntry(k)
        decreases more, Left()
      {
        if enc {
          NextIsReady(k);
          PositionsRise(k + 1, i);
          k := k + 1;
        }
        more := ParseNextKey(k);
      }
      if enc {
        PositionsRise(k + 1, i);
      }
    }

    lemma PointsRise(j: nat)
      requires Faithful() && 0 < j < numRestarts
      ensures layout.points[j - 1] < layout.points[j]
    {
    }

    method SeekToFirst()
      requires Ok()
      modifies this
      ensures Ok() && (Faithful() ==> corrupt == old(corrupt) && if layout.pairs == [] then !Valid() else AtEntry(0))
    {
      hide Packed, DecodeLength, Ready;
      if Faithful() {
        PointIs(0);
      }
      SeekToRestartPoint(0);
      var _ := ParseNextKey(0);
    }

    method SeekToLast()
      requires Ok()
      modifies this
      ensures Ok()
      ensures Faithful() ==> corrupt == old(corrupt) && if layout.pairs == [] then !Valid() else AtEntry(|layout.pairs| - 1)
    {
      hide Packed, DecodeLength, Ready;
      ghost var enc, k: nat := Faithful(), 0;
      if enc {
        PointIs(numRestarts - 1);
        k := layout.points[numRestarts - 1];
        InsideBlock(k);
      }
      SeekToRestartPoint(numRestarts - 1);
      var more := ParseNextKey(k);
      while more && NextEntryOffset() < restarts
        invariant Ok() && more == Valid()
        invariant enc ==> corrupt == old(corrupt) && if k < |layout.pairs| then more && AtEntry(k) else !more && layout.pairs == []
        decreases more, Left()
      {
        if enc {
          NextIsReady(k);
          InsideBlock(k + 1);
          k := k + 1;
        }
        more := ParseNextKey(k);
      }
      if enc && k < |layout.pairs| {
        InsideBlock(k + 1);
      }
    }

    /** The first entry whose key is not before `target`: binary search over restart points,
      * then a scan. */
    method Seek(target: Bytes) returns (ghost k: nat)
      requires Ok()
      modifies this
      ensures Ok()
      ensures Faithful() && Transitive(less) && Increasing(less, layout.pairs) ==> corrupt == old(corrupt) && Finds(target, k)
    {
      hide Packed, DecodeLength, Ready, DecodeEntry, Transitive, Increasing;
      ghost var enc := Faithful() && Transitive(less) && Increasing(less, layout.pairs);
      var left, right := 0, numRestarts - 1;
      k := 0;
      while left < right
        modifies this
        invariant Ok() && corrupt == old(corrupt) && 0 <= left <= right < numRestarts
        invariant enc && left > 0 ==> layout.points[left] < |layout.pairs| && less(layout.pairs[layout.points[left]].key, target)
      {
        var mid := (left + right + 1) / 2;
        var regionOffset := GetRestartPoint(mid);
        if enc {
          RestartKey(mid);
        }
        var d := if regionOffset <= restarts then DecodeEntry(data, regionOffset, restarts) else None;
        if d.None? || d.value.shared != 0 {
          CorruptionError();
          return;
        }
        var Decoded(_, nonShared, _, start) := d.value;
        var midKey := if start + nonShared <= |data| then data[start..start + nonShared] else [];
        if less(midKey, target) {
          left := mid;
        } else {
          right := mid - 1;
        }
      }
      if enc {
        PointIs(left);
        k := layout.points[left];
        AllBeforePoint(left, target);
      }
      SeekToRestartPoint(left);
      while true
        modifies this
        invariant Ok() && restartIndex < numRestarts
        invariant enc ==> corrupt == old(corrupt) && k <= |layout.pairs| && Ready(k)
        invariant enc ==> forall i :: 0 <= i < k ==> less(layout.pairs[i].key, target)
        decreases Left()
      {
        var more := ParseNextKey(k);
        if !more {
          return;
        }
        if !less(key, target) {
          return;
        }
        if enc {
          NextIsReady(k);
          k := k + 1;
        }
      }
    }

    /** The key at a restart point is stored whole. */
    lemma RestartKey(j: nat)
      requires Faithful() && 0 < j < numRestarts
      ensures layout.points[j] < |layout.pairs| && GetRestartPoint(j) <= restarts
      ensures var d := DecodeEntry(data, GetRestartPoint(j), restarts);
        && d.Some? && d.value.shared == 0 && d.value.start + d.value.nonShared <= |data|
        && data[d.value.start..d.value.start + d.value.nonShared] == layout.pairs[layout.points[j]].key
    {
      hide EntryBytes, DecodeEntry, DecodeLength;
      PointIs(j);
      var i := layout.points[j];
      assert EntryAt(data[..restarts], layout, i);
      assert data[..restarts][layout.pos[i]..layout.pos[i + 1]] == data[layout.pos[i]..layout.pos[i + 1]];
      DecodeEntryIs(data, layout.pos[i], restarts, 0, layout.pairs[i]);
    }

    lemma AllBeforePoint(j: nat, target: Bytes)
      requires Faithful() && Transitive(less) && Increasing(less, layout.pairs) && j < numRestarts
      requires j > 0 ==> layout.points[j] < |layout.pairs| && less(layout.pairs[layout.points[j]].key, target)
      ensures layout.points[j] <= |layout.pairs| && forall i :: 0 <= i < layout.points[j] ==> less(layout.pairs[i].key, target)
    {
      PointIs(j);
      forall i | 0 <= i < layout.points[j] ensures less(layout.pairs[i].key, target) {
        assert less(layout.pairs[i].key, layout.pairs[layout.points[j]].key);
      }
    }

    /** Entry `k` is the first not before the target, and the iterator stands there. */
    ghost predicate Finds(target: Bytes, k: nat)
      requires Faithful()
      reads this
    {
      && k <= |layout.pairs|
      && (forall i :: 0 <= i < k ==> less(layout.pairs[i].key, target))
      && (if k < |layout.pairs| then AtEntry(k) && !less(layout.pairs[k].key, target) else !Valid())
    }
  }

  /** Opens a block. Whatever the builder finished is read back as the pairs that were added. */
  method NewIterator(contents: Bytes, less: Comparator, ghost buffer: Bytes, ghost l: Layout) returns (it: Iter?)
    ensures it != null ==> fresh(it) && it.Ok() && !it.Valid() && it.less == less && it.layout == l
    ensures Packed(buffer, l) && IsFinished(contents, buffer, Restarts(l)) ==> it != null && it.Faithful()
  {
    hide DecodeLength, MatchesLayout;
    var size := |contents|;
    if size < 4 {
      return null;
    }
    var numRestarts := DecodeLength(contents[size - 4..]);
    if Packed(buffer, l) && IsFinished(contents, buffer, Restarts(l)) {
      FinishedMatches(contents, buffer, l);
    }
    if numRestarts > (size - 4) / 4 {
      // too small for that many restarts
      return null;
    }
    var restartOffset := size - (1 + numRestarts) * 4;
    if numRestarts == 0 {
      return null;
    }
    it := new Iter(less, contents, restartOffset, numRestarts, l);
  }

  lemma FinishedMatches(contents: Bytes, buffer: Bytes, l: Layout)
    requires Packed(buffer, l) && IsFinished(contents, buffer, Restarts(l))
    ensures |contents| >= 4 && DecodeLength(contents[|contents| - 4..]) == |l.points| > 0
    ensures |contents| == |buffer| + 4 * |l.points| + 4
    ensures MatchesLayout(contents, |buffer|, |l.points|, l)
  {
    hide DecodeLength, EncodeLength;
    var r := Restarts(l);
    LengthRoundTrip(|r|);
    assert contents[|contents| - 4..] == EncodeLength(|r|);
    assert contents[..|buffer|] == buffer;
    forall j | 0 <= j < |r| ensures DecodeLength(contents[|buffer| + 4 * j..|buffer| + 4 * j + 4]) == r[j] {
      LengthsAt(r, j);
      assert contents[|buffer| + 4 * j..|buffer| + 4 * j + 4] == EncodeLengths(r)[4 * j..4 * j + 4];
    }
  }
}
