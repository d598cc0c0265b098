/** Blocks: keys stored without the prefix they share with the one before, and restart points
  * where a key is stored whole. */
module BlockFormat {
  import opened ByteNumbers
  import opened Keys
  import opened Coding

  datatype KeyValue = KeyValue(key: Bytes, value: Bytes)

  /** Lengths of the shared prefix, the rest of the key and the value; then the bytes. */
  function EntryBytes(shared: nat, e: KeyValue): Bytes
    requires shared <= |e.key|
  {
    EncodeVarint(shared) + EncodeVarint(|e.key| - shared) + EncodeVarint(|e.value|) + e.key[shared..] + e.value
  }

  lemma EntryParts(shared: nat, e: KeyValue)
    requires shared <= |e.key|
    ensures var va, vb, vc := EncodeVarint(shared), EncodeVarint(|e.key| - shared), EncodeVarint(|e.value|);
      var whole, n := EntryBytes(shared, e), |va| + |vb| + |vc|;
      && |whole| == n + |e.key| - shared + |e.value|
      && whole[..|va|] == va && whole[|va|..|va| + |vb|] == vb && whole[|va| + |vb|..n] == vc
      && whole[n..n + |e.key| - shared] == e.key[shared..] && whole[n + |e.key| - shared..] == e.value
  {
    hide EncodeVarint;
  }

  /** Where everything is in a block. */
  datatype Layout = Layout(pairs: seq<KeyValue>, pos: seq<nat>, shared: seq<nat>, points: seq<nat>)

  /** A key can be rebuilt from the one before it. */
  ghost predicate Rebuildable(l: Layout, i: nat)
    requires i < |l.pairs| == |l.shared|
  {
    && l.shared[i] <= |l.pairs[i].key|
    && (l.shared[i] == 0
        || (i > 0 && l.shared[i] <= |l.pairs[i - 1].key| && l.pairs[i].key[..l.shared[i]] == l.pairs[i - 1].key[..l.shared[i]]))
  }

  ghost predicate EntryAt(buffer: Bytes, l: Layout, i: nat)
    requires i < |l.pairs| == |l.shared| && |l.pos| == |l.pairs| + 1
  {
    && Rebuildable(l, i) && |l.pairs[i].key| < LIMIT32
    && l.pos[i] < l.pos[i + 1] <= |buffer|
    && buffer[l.pos[i]..l.pos[i + 1]] == EntryBytes(l.shared[i], l.pairs[i])
  }

  /** Entry `i` is stored whole. */
  ghost predicate RestartAt(l: Layout, i: nat)
    requires |l.pairs| == |l.shared|
  {
    i <= |l.pairs| && (i < |l.pairs| ==> l.shared[i] == 0)
  }

  /** Positions of the entries, the last one where the next would go. */
  ghost predicate Positioned(l: Layout, size: nat) {
    && |l.shared| == |l.pairs| && |l.pos| == |l.pairs| + 1
    && l.pos[0] == 0 && l.pos[|l.pairs|] == size
    && (forall i, k :: 0 <= i < k < |l.pos| ==> l.pos[i] < l.pos[k])
  }

  ghost predicate Pointed(l: Layout)
    requires |l.shared| == |l.pairs|
  {
    && l.points != [] && l.points[0] == 0
    && (forall j :: 0 <= j < |l.points| ==> RestartAt(l, l.points[j]))
    && (forall j, k :: 0 <= j < k < |l.points| ==> l.points[j] < l.points[k] < |l.pairs|)
  }

  ghost predicate Packed(buffer: Bytes, l: Layout) {
    Positioned(l, |buffer|) && Pointed(l) && forall i :: 0 <= i < |l.pairs| ==> EntryAt(buffer, l, i)
  }

  function Restarts(l: Layout): seq<nat>
    requires |l.shared| == |l.pairs| && |l.pos| == |l.pairs| + 1 && Pointed(l)
  {
    seq(|l.points|, j requires 0 <= j < |l.points| => l.pos[l.points[j]])
  }

  // ---------------------------------------------------------------- the builder

  function CommonPrefix(a: Bytes, b: Bytes): (n: nat)
    ensures n <= |a| && n <= |b| && a[..n] == b[..n]
    ensures n < |a| && n < |b| ==> a[n] != b[n]
  {
    if a == [] || b == [] || a[0] != b[0] then 0 else 1 + CommonPrefix(a[1..], b[1..])
  }

  lemma {:induction false} CommonPrefixIs(a: Bytes, b: Bytes, n: nat)
    requires n <= |a| && n <= |b| && a[..n] == b[..n] && (n < |a| && n < |b| ==> a[n] != b[n])
    ensures CommonPrefix(a, b) == n
  {
    if n > 0 {
      assert a[0] == a[..n][0] == b[..n][0] == b[0];
      assert a[1..][..n - 1] == a[..n][1..] && b[1..][..n - 1] == b[..n][1..];
      CommonPrefixIs(a[1..], b[1..], n - 1);
    }
  }

  /** Every `interval` entries there is a restart point, `counter` entries after the last one; in
    * between, all that a key has in common with the one before is left out. */
  ghost predicate Spaced(l: Layout, interval: nat, counter: nat) {
    && |l.shared| == |l.pairs| && l.points != [] && l.points[0] == 0
    && (forall j :: 0 < j < |l.points| ==> l.points[j] == l.points[j - 1] + interval)
    && l.points[|l.points| - 1] + counter == |l.pairs|
    && (forall i :: 0 <= i < |l.pairs| ==> l.shared[i] == LeftOut(l, i))
  }

  ghost function LeftOut(l: Layout, i: nat): nat
    requires i < |l.pairs|
  {
    if i == 0 || i in l.points then 0 else CommonPrefix(l.pairs[i - 1].key, l.pairs[i].key)
  }

  lemma SpacedAppend(l: Layout, interval: nat, counter: nat, e: KeyValue, shared: nat, size: nat)
    requires Spaced(l, interval, counter) && 0 < interval && counter <= interval && (counter == 0 ==> l.pairs == [])
    requires forall j :: 0 <= j < |l.points| && l.pairs != [] ==> l.points[j] < |l.pairs|
    requires var last := if l.pairs == [] then [] else l.pairs[|l.pairs| - 1].key;
      shared == if counter < interval && l.pairs != [] then CommonPrefix(last, e.key) else 0
    ensures var restart := counter >= interval; Spaced(Appended(l, e, shared, size, restart), interval, if restart then 1 else counter + 1)
  {
    hide CommonPrefix;
    var restart := counter >= interval;
    var l' := Appended(l, e, shared, size, restart);
    forall i | 0 <= i < |l.pairs| ensures l'.shared[i] == LeftOut(l', i) {
      KeepsLeftOut(l, e, shared, size, restart, i);
    }
    LastLeftOut(l, e, shared, size, restart);
  }

  lemma KeepsLeftOut(l: Layout, e: KeyValue, shared: nat, size: nat, restart: bool, i: nat)
    requires i < |l.pairs|
    ensures LeftOut(Appended(l, e, shared, size, restart), i) == LeftOut(l, i)
  {
    hide CommonPrefix;
  }

  lemma LastLeftOut(l: Layout, e: KeyValue, shared: nat, size: nat, restart: bool)
    requires forall j :: 0 <= j < |l.points| && l.pairs != [] ==> l.points[j] < |l.pairs|
    ensures var last := if l.pairs == [] then [] else l.pairs[|l.pairs| - 1].key;
      LeftOut(Appended(l, e, shared, size, restart), |l.pairs|) == if restart || l.pairs == [] then 0 else CommonPrefix(last, e.key)
  {
    hide CommonPrefix;
    var l' := Appended(l, e, shared, size, restart);
    if restart {
      assert l'.points[|l.points|] == |l.pairs|;
    }
  }

  /** A layout as the builder makes them. */
  ghost predicate Built(buffer: Bytes, l: Layout, interval: nat, counter: nat) {
    && 0 < interval && counter <= interval && (l.pairs == [] <==> counter == 0)
    && Packed(buffer, l) && Spaced(l, interval, counter)
  }

  function LastOf(pairs: seq<KeyValue>): Bytes {
    if pairs == [] then [] else pairs[|pairs| - 1].key
  }

  /** One more entry, where the builder puts it. */
  lemma LayoutGrows(buffer: Bytes, l: Layout, interval: nat, counter: nat, e: KeyValue, shared: nat)
    requires Built(buffer, l, interval, counter) && |e.key| < LIMIT32
    requires shared <= |e.key| && shared <= |LastOf(l.pairs)| && e.key[..shared] == LastOf(l.pairs)[..shared]
    requires shared == if counter < interval then CommonPrefix(LastOf(l.pairs), e.key) else 0
    ensures var restart, b := counter >= interval, buffer + EntryBytes(shared, e);
      var l' := Appended(l, e, shared, |b|, restart);
      && Built(b, l', interval, if restart then 1 else counter + 1)
      && Restarts(l') == Restarts(l) + (if restart then [|buffer|] else [])
      && l'.pairs == l.pairs + [e] && LastOf(l'.pairs) == e.key
  {
    hide Packed, Pointed, EntryBytes, Restarts, Spaced, CommonPrefix;
    var restart, b := counter >= interval, buffer + EntryBytes(shared, e);
    PackedIs(buffer, l);
    PointsBelow(l);
    PackedAppend(buffer, l, e, shared, restart);
    PointsAppend(l, e, shared, |b|, restart);
    SpacedAppend(l, interval, counter, e, shared, |b|);
  }

  class BlockBuilder {
    const interval: nat
    var buffer: Bytes
    var restarts: seq<nat>
    var counter: nat
    var lastKey: Bytes
    ghost var layout: Layout

    ghost predicate Ok()
      reads this
    {
      && Built(buffer, layout, interval, counter)
      && restarts == Restarts(layout)
      && lastKey == LastOf(layout.pairs)
    }

    constructor (interval: nat)
      requires 1 <= interval
      ensures Ok() && layout.pairs == [] && this.interval == interval
    {
      this.interval := interval;
      buffer, restarts, counter, lastKey := [], [0], 0, [];
      layout := Layout([], [0], [], [0]);
    }

    /** Starts over. */
    method Reset()
      requires Ok()
      modifies this
      ensures Ok() && layout.pairs == []
    {
      buffer, restarts, counter, lastKey := [], [0], 0, [];
      layout := Layout([], [0], [], [0]);
    }

    function Empty(): bool
      reads this
    {
      buffer == []
    }

    lemma EmptyIs()
      requires Ok()
      ensures Empty() <==> layout.pairs == []
    {
    }

    function CurrentSizeEstimate(): nat
      reads this
    {
      |buffer| + 4 * |restarts| + 4
    }

    /** Appends a pair, sharing what it can with the key before. */
    method Add(key: Bytes, value: Bytes)
      requires Ok() && |key| < LIMIT32 && |value| < LIMIT32
      modifies this
      ensures Ok() && layout.pairs == old(layout.pairs) + [KeyValue(key, value)]
    {
      hide EncodeVarint, Built, EntryBytes, Restarts, CommonPrefix, LastOf;
      ghost var before, start, counted := layout, buffer, counter;
      var shared := 0;
      if counter < interval {
        shared := SharedPrefix(key);
      } else {
        restarts := restarts + [|buffer|];
        counter := 0;
      }
      AppendEntry(shared, key, value);
      LayoutGrows(start, before, interval, counted, KeyValue(key, value), shared);
      layout := Appended(before, KeyValue(key, value), shared, |buffer|, counted >= interval);
      Rejoined(lastKey, key, shared);
      lastKey := lastKey[..shared] + key[shared..];
      counter := counter + 1;
    }

    /** How much of the last key the next one begins with. */
    method SharedPrefix(key: Bytes) returns (shared: nat)
      ensures shared == CommonPrefix(lastKey, key) && shared <= |lastKey| && shared <= |key| && lastKey[..shared] == key[..shared]
    {
      hide CommonPrefix;
      shared := 0;
      var minLength := if |lastKey| < |key| then |lastKey| else |key|;
      while shared < minLength && lastKey[shared] == key[shared]
        invariant shared <= minLength && lastKey[..shared] == key[..shared]
      {
        shared := shared + 1;
      }
      CommonPrefixIs(lastKey, key, shared);
    }

    method AppendEntry(shared: nat, key: Bytes, value: Bytes)
      requires shared <= |key| < LIMIT32 && |value| < LIMIT32
      modifies this`buffer
      ensures buffer == old(buffer) + EntryBytes(shared, KeyValue(key, value))
    {
      hide EncodeVarint;
      var nonShared := |key| - shared;
      ghost var start := buffer;
      buffer := PutVarint32(buffer, shared);
      buffer := PutVarint32(buffer, nonShared);
      buffer := PutVarint32(buffer, |value|);
      buffer := buffer + key[shared..];
      buffer := buffer + value;
      Associates(start, EncodeVarint(shared), EncodeVarint(nonShared), EncodeVarint(|value|), key[shared..], value);
    }

    /** The entries, the restart array and its length. */
    method Finish() returns (contents: Bytes)
      requires Ok()
      ensures |contents| < LIMIT32 ==> IsFinished(contents, buffer, restarts)
      ensures |contents| == CurrentSizeEstimate()
    {
      hide EncodeLength, Packed;
      contents := AppendLengths(buffer, restarts);
      contents := contents + EncodeLength(|restarts| % LIMIT32);
      RestartsInside(buffer, layout);
    }
  }

  /** What a finished block looks like, when its offsets fit 32 bits. */
  ghost predicate IsFinished(contents: Bytes, buffer: Bytes, restarts: seq<nat>) {
    && |contents| < LIMIT32 && |restarts| < LIMIT32 && (forall j :: 0 <= j < |restarts| ==> restarts[j] < LIMIT32)
    && contents == buffer + EncodeLengths(restarts) + EncodeLength(|restarts|)
  }

  ghost function Appended(l: Layout, e: KeyValue, shared: nat, size: nat, restart: bool): Layout {
    Layout(l.pairs + [e], l.pos + [size], l.shared + [shared], if restart then l.points + [|l.pairs|] else l.points)
  }

  lemma PointsBelow(l: Layout)
    requires |l.shared| == |l.pairs| && Pointed(l)
    ensures forall j :: 0 <= j < |l.points| && l.pairs != [] ==> l.points[j] < |l.pairs|
  {
    forall j | 0 <= j < |l.points| && l.pairs != [] ensures l.points[j] < |l.pairs| {
      if j + 1 < |l.points| {
        assert l.points[j] < l.points[j + 1];
      }
    }
  }

  lemma Rejoined(last: Bytes, key: Bytes, shared: nat)
    requires shared <= |last| && shared <= |key| && last[..shared] == key[..shared]
    ensures last[..shared] + key[shared..] == key
  {
  }

  lemma Associates(a: Bytes, b: Bytes, c: Bytes, d: Bytes, e: Bytes, f: Bytes)
    ensures a + b + c + d + e + f == a + (b + c + d + e + f)
  {
  }

  lemma PackedIs(buffer: Bytes, l: Layout)
    requires Packed(buffer, l)
    ensures |l.shared| == |l.pairs| && |l.pos| == |l.pairs| + 1 && Pointed(l) && l.pos[|l.pairs|] == |buffer|
  {
  }

  lemma PackedAppend(buffer: Bytes, l: Layout, e: KeyValue, shared: nat, restart: bool)
    requires Packed(buffer, l) && shared <= |e.key| < LIMIT32
    requires var last := if l.pairs == [] then [] else l.pairs[|l.pairs| - 1].key;
      shared <= |last| && e.key[..shared] == last[..shared]
    requires restart ==> l.pairs != [] && shared == 0
    ensures var b := buffer + EntryBytes(shared, e); Packed(b, Appended(l, e, shared, |b|, restart))
  {
    hide EntryBytes, Rebuildable, Pointed;
    EntryParts(shared, e);
    PackedIs(buffer, l);
    var b := buffer + EntryBytes(shared, e);
    var l' := Appended(l, e, shared, |b|, restart);
    KeepsRebuildable(l, e, shared, |b|, restart);
    PointsAppend(l, e, shared, |b|, restart);
    forall i | 0 <= i < |l'.pairs| ensures EntryAt(b, l', i) {
      if i < |l.pairs| {
        assert EntryAt(buffer, l, i);
        SlicesKept(buffer, EntryBytes(shared, e), l.pos[i], l.pos[i + 1]);
      } else {
        SlicesKept(buffer, EntryBytes(shared, e), 0, 0);
      }
    }
  }

  lemma SlicesKept(buffer: Bytes, more: Bytes, i: nat, j: nat)
    requires i <= j <= |buffer|
    ensures (buffer + more)[i..j] == buffer[i..j] && (buffer + more)[|buffer|..|buffer + more|] == more
  {
  }

  lemma KeepsRebuildable(l: Layout, e: KeyValue, shared: nat, size: nat, restart: bool)
    requires |l.shared| == |l.pairs| && shared <= |e.key|
    requires var last := if l.pairs == [] then [] else l.pairs[|l.pairs| - 1].key;
      shared <= |last| && e.key[..shared] == last[..shared]
    ensures var l' := Appended(l, e, shared, size, restart);
      && (forall i :: 0 <= i < |l.pairs| && Rebuildable(l, i) ==> Rebuildable(l', i))
      && Rebuildable(l', |l.pairs|)
  {
  }

  lemma PointsAppend(l: Layout, e: KeyValue, shared: nat, size: nat, restart: bool)
    requires |l.shared| == |l.pairs| && |l.pos| == |l.pairs| + 1 && Pointed(l)
    requires restart || l.pairs == [] ==> shared == 0
    requires restart ==> l.pairs != []
    ensures Pointed(Appended(l, e, shared, size, restart))
    ensures Restarts(Appended(l, e, shared, size, restart)) == Restarts(l) + (if restart then [l.pos[|l.pairs|]] else [])
  {
    var l' := Appended(l, e, shared, size, restart);
    forall j | 0 <= j < |l'.points| ensures RestartAt(l', l'.points[j]) {
      if j < |l.points| {
        assert RestartAt(l, l.points[j]);
      }
    }
  }

  lemma RestartsInside(buffer: Bytes, l: Layout)
    requires Packed(buffer, l)
    ensures forall j :: 0 <= j < |l.points| ==> Restarts(l)[j] <= |buffer|
  {
    forall j | 0 <= j < |l.points| ensures l.points[j] < |l.pos| && l.pos[l.points[j]] <= |buffer| {
      assert RestartAt(l, l.points[j]);
    }
  }

  // ---------------------------------------------------------------- one block for the pairs

  lemma {:induction false} SamePoint(l: Layout, m: Layout, interval: nat, c: nat, d: nat, j: nat)
    requires Spaced(l, interval, c) && Spaced(m, interval, d) && j < |l.points| && j < |m.points|
    ensures l.points[j] == m.points[j]
  {
    if j > 0 {
      SamePoint(l, m, interval, c, d, j - 1);
    }
  }

  lemma NoMorePoints(a: Bytes, l: Layout, b: Bytes, m: Layout, interval: nat, c: nat, d: nat)
    requires Built(a, l, interval, c) && Built(b, m, interval, d) && l.pairs == m.pairs
    ensures |m.points| <= |l.points|
  {
    var n := |l.points|;
    if n < |m.points| {
      NextPoint(m, interval, d, n);
      PointsBelow(m);
      SamePoint(l, m, interval, c, d, n - 1);
    }
  }

  lemma NextPoint(l: Layout, interval: nat, counter: nat, j: nat)
    requires Spaced(l, interval, counter) && 0 < j < |l.points|
    ensures l.points[j] == l.points[j - 1] + interval
  {
  }

  lemma {:induction false} SamePosition(a: Bytes, l: Layout, b: Bytes, m: Layout, i: nat)
    requires Packed(a, l) && Packed(b, m) && l.pairs == m.pairs && l.shared == m.shared && i <= |l.pairs|
    ensures l.pos[i] == m.pos[i] && a[..l.pos[i]] == b[..m.pos[i]]
  {
    hide EntryBytes;
    if i > 0 {
      SamePosition(a, l, b, m, i - 1);
      assert EntryAt(a, l, i - 1) && EntryAt(b, m, i - 1);
      assert a[..l.pos[i]] == a[..l.pos[i - 1]] + a[l.pos[i - 1]..l.pos[i]];
      assert b[..m.pos[i]] == b[..m.pos[i - 1]] + b[m.pos[i - 1]..m.pos[i]];
    }
  }

  /** The pairs and the interval settle every byte of a block. */
  lemma BlockIsSettled(a: Bytes, l: Layout, b: Bytes, m: Layout, interval: nat, c: nat, d: nat)
    requires Built(a, l, interval, c) && Built(b, m, interval, d) && l.pairs == m.pairs
    ensures a == b && l == m
  {
    NoMorePoints(a, l, b, m, interval, c, d);
    NoMorePoints(b, m, a, l, interval, d, c);
    forall j | 0 <= j < |l.points| ensures l.points[j] == m.points[j] {
      SamePoint(l, m, interval, c, d, j);
    }
    assert l.points == m.points;
    forall i | 0 <= i < |l.pairs| ensures l.shared[i] == m.shared[i] {
      assert LeftOut(l, i) == LeftOut(m, i);
    }
    assert l.shared == m.shared;
    forall i | 0 <= i <= |l.pairs| ensures l.pos[i] == m.pos[i] {
      SamePosition(a, l, b, m, i);
    }
    assert l.pos == m.pos;
    SamePosition(a, l, b, m, |l.pairs|);
    assert a[..|a|] == a && b[..|b|] == b;
  }
}
