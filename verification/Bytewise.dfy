/** The default comparator: byte strings in lexicographic order, and the short keys an index
  * may use in place of the real ones. */
module Bytewise {
  import opened ByteNumbers

  /** Lexicographic; a proper prefix comes first. */
  predicate Less(a: Bytes, b: Bytes) {
    if b == [] then false
    else if a == [] then true
    else a[0] < b[0] || (a[0] == b[0] && Less(a[1..], b[1..]))
  }

  lemma {:induction false} LessIsTotal(a: Bytes, b: Bytes)
    ensures (Less(a, b) || Less(b, a) || a == b) && !(Less(a, b) && Less(b, a)) && !Less(a, a)
  {
    if a != [] {
      LessIsTotal(a[1..], a[1..]);
      if b != [] {
        LessIsTotal(a[1..], b[1..]);
        assert a == [a[0]] + a[1..] && b == [b[0]] + b[1..];
      }
    }
  }

  lemma {:induction false} LessIsTransitive(a: Bytes, b: Bytes, c: Bytes)
    requires Less(a, b) && Less(b, c)
    ensures Less(a, c)
  {
    if a != [] && a[0] == b[0] == c[0] {
      LessIsTransitive(a[1..], b[1..], c[1..]);
    }
  }

  // ---------------------------------------------------------------- the order as numbers

  /** A position between 0 and 1 for every string. */
  function Rank(s: Bytes): (r: real)
    ensures 0.0 <= r < 1.0
  {
    if s == [] then 0.0 else (s[0] as int as real + 1.0 + Rank(s[1..])) / 257.0
  }

  lemma ByteOrder(a: bv8, b: bv8)
    ensures a < b <==> a as int < b as int
  {
  }

  /** The ranks are ordered as the strings are: user keys may be taken for real numbers. */
  lemma {:induction false} RankPreservesOrder(a: Bytes, b: Bytes)
    ensures Less(a, b) <==> Rank(a) < Rank(b)
    ensures Rank(a) == Rank(b) <==> a == b
  {
    if a != [] && b != [] {
      ByteOrder(a[0], b[0]);
      ByteOrder(b[0], a[0]);
      RankPreservesOrder(a[1..], b[1..]);
      assert a == [a[0]] + a[1..] && b == [b[0]] + b[1..];
    }
  }

  // ---------------------------------------------------------------- short keys

  lemma {:induction false} DifferAt(a: Bytes, b: Bytes, i: nat)
    requires i < |a| && i < |b| && a[..i] == b[..i] && a[i] < b[i]
    ensures Less(a, b)
  {
    if i > 0 {
      assert a[0] == a[..i][0] == b[..i][0] == b[0];
      assert a[1..][..i - 1] == a[..i][1..] && b[1..][..i - 1] == b[..i][1..];
      DifferAt(a[1..], b[1..], i - 1);
    }
  }

  /** Position `i` is the first where the two differ, and there is room between them there. */
  predicate RoomAt(start: Bytes, limit: Bytes, i: nat) {
    i < |start| && i < |limit| && start[..i] == limit[..i] && start[i] as nat + 1 < limit[i] as nat
  }

  /** Cut off behind position `i`, where the byte is counted up. */
  function CutAfter(key: Bytes, i: nat): Bytes
    requires i < |key|
  {
    key[..i] + [key[i] + 1]
  }

  /** A short string from `start` on and before `limit`: cut where the two leave room, if they do. */
  method FindShortestSeparator(start: Bytes, limit: Bytes) returns (r: Bytes)
    ensures |r| <= |start|
    ensures r == start || (Less(start, r) && Less(r, limit))
    ensures forall i: nat :: RoomAt(start, limit, i) ==> r == CutAfter(start, i)
    ensures (forall i: nat :: !RoomAt(start, limit, i)) ==> r == start
  {
    r := start;
    var minLength := if |start| < |limit| then |start| else |limit|;
    var i := 0;
    while i < minLength && start[i] == limit[i]
      invariant i <= minLength && start[..i] == limit[..i]
    {
      i := i + 1;
    }
    OnlyRoom(start, limit, i);
    if i < minLength {
      var byte := start[i];
      RoomByBytes(byte, limit[i]);
      if byte < 0xff && byte + 1 < limit[i] {
        r := start[..i] + [byte + 1];
        assert RoomAt(start, limit, i);
        CutIsBetween(start, limit, i);
      }
    }
  }

  lemma CutIsBetween(start: Bytes, limit: Bytes, i: nat)
    requires RoomAt(start, limit, i)
    ensures Less(start, CutAfter(start, i)) && Less(CutAfter(start, i), limit)
  {
    RoomByBytes(start[i], limit[i]);
    var r := CutAfter(start, i);
    assert r[..i] == start[..i] == limit[..i];
    DifferAt(start, r, i);
    DifferAt(r, limit, i);
  }

  lemma RoomByBytes(a: bv8, b: bv8)
    ensures a < 0xff && a + 1 < b <==> a as nat + 1 < b as nat
    ensures a < 0xff ==> (a + 1) as nat == a as nat + 1
  {
  }

  /** Room can only be where the common part ends. */
  lemma OnlyRoom(start: Bytes, limit: Bytes, i: nat)
    requires i <= |start| && i <= |limit| && start[..i] == limit[..i]
    requires i < |start| && i < |limit| ==> start[i] != limit[i]
    ensures forall k: nat :: RoomAt(start, limit, k) ==> k == i
  {
    forall k: nat | RoomAt(start, limit, k) ensures k == i {
      AlikeBefore(start, limit, i, k);
      AlikeBefore(start, limit, k, i);
    }
  }

  lemma AlikeBefore(a: Bytes, b: Bytes, n: nat, k: nat)
    requires n <= |a| && n <= |b| && a[..n] == b[..n]
    ensures k < n ==> a[k] == b[k]
  {
    if k < n {
      assert a[..n][k] == b[..n][k];
    }
  }

  /** The first byte that can be counted up. */
  predicate CountsUpAt(key: Bytes, i: nat) {
    i < |key| && key[i] != 0xff && forall k :: 0 <= k < i ==> key[k] == 0xff
  }

  /** A short string from `key` on: cut behind the first byte that can be counted up. */
  method FindShortSuccessor(key: Bytes) returns (r: Bytes)
    ensures |r| <= |key|
    ensures r == key || Less(key, r)
    ensures r == key <==> forall i :: 0 <= i < |key| ==> key[i] == 0xff
    ensures forall i: nat :: CountsUpAt(key, i) ==> r == CutAfter(key, i)
    ensures r == key || exists i: nat :: CountsUpAt(key, i)
  {
    for i := 0 to |key|
      invariant forall k :: 0 <= k < i ==> key[k] == 0xff
    {
      if key[i] != 0xff {
        r := key[..i] + [key[i] + 1];
        assert r[..i] == key[..i] && CountsUpAt(key, i);
        DifferAt(key, r, i);
        LessIsTotal(key, r);
        return;
      }
    }
    r := key;
  }
}
