/** Fixed-width and variable-width integers as bytes. */
module Coding {
  import opened ByteNumbers
  import opened Crc32c
  import opened Keys

  const LIMIT32: nat := 0x1_0000_0000
  const LIMIT64: nat := 0x1_0000_0000_0000_0000

  function Zeroes(n: nat): (z: Bytes)
    ensures |z| == n
  {
    seq(n, _ => 0)
  }

  /** Least significant byte first. */
  function EncodeFixed32(w: Word): (b: Bytes)
    ensures |b| == 4
  {
    [w.Low(), w.Rest().Low(), w.Rest().Rest().Low(), w.Top()]
  }

  lemma Fixed32RoundTrip(w: Word)
    ensures DecodeFixed32(EncodeFixed32(w)) == w
  {
    hide Place, Word.Xor, Word.Low, Word.Rest, Word.Top, DecodeFixed32;
    DecodeFixed32IsSum(EncodeFixed32(w));
    SplitBytes(w);
  }

  function EncodeFixed16(n: nat): (b: Bytes)
    requires n < 65536
    ensures |b| == 2
  {
    [(n % 256) as Byte, (n / 256) as Byte]
  }

  function DecodeFixed16(b: Bytes): nat
    requires |b| == 2
  {
    b[0] as nat + 256 * b[1] as nat
  }

  lemma Fixed16RoundTrip(n: nat)
    requires n < 65536
    ensures DecodeFixed16(EncodeFixed16(n)) == n
  {
    ByteRoundTrip(n % 256);
    ByteRoundTrip(n / 256);
  }

  /** A 32-bit length or offset. */
  function EncodeLength(n: nat): (b: Bytes)
    requires n < LIMIT32
    ensures |b| == 4
  {
    EncodeFixed16(n % 65536) + EncodeFixed16(n / 65536)
  }

  function DecodeLength(b: Bytes): nat
    requires |b| == 4
  {
    DecodeFixed16(b[..2]) + 65536 * DecodeFixed16(b[2..])
  }

  lemma LengthRoundTrip(n: nat)
    requires n < LIMIT32
    ensures DecodeLength(EncodeLength(n)) == n
  {
    hide DecodeFixed16, EncodeFixed16;
    Fixed16RoundTrip(n % 65536);
    Fixed16RoundTrip(n / 65536);
    assert EncodeLength(n)[..2] == EncodeFixed16(n % 65536);
    assert EncodeLength(n)[2..] == EncodeFixed16(n / 65536);
  }

  function EncodeFixed64(n: nat): (b: Bytes)
    requires n < LIMIT64
    ensures |b| == 8
  {
    EncodeLength(n % LIMIT32) + EncodeLength(n / LIMIT32)
  }

  function DecodeFixed64(b: Bytes): nat
    requires |b| == 8
  {
    DecodeLength(b[..4]) + LIMIT32 * DecodeLength(b[4..])
  }

  lemma Fixed64RoundTrip(n: nat)
    requires n < LIMIT64
    ensures DecodeFixed64(EncodeFixed64(n)) == n
  {
    hide DecodeLength, EncodeLength;
    LengthRoundTrip(n % LIMIT32);
    LengthRoundTrip(n / LIMIT32);
    assert EncodeFixed64(n)[..4] == EncodeLength(n % LIMIT32);
    assert EncodeFixed64(n)[4..] == EncodeLength(n / LIMIT32);
  }

  /** An array of 32-bit numbers. */
  function EncodeLengths(lengths: seq<nat>): (b: Bytes)
    requires forall i :: 0 <= i < |lengths| ==> lengths[i] < LIMIT32
    ensures |b| == 4 * |lengths|
  {
    if lengths == [] then [] else EncodeLengths(lengths[..|lengths| - 1]) + EncodeLength(lengths[|lengths| - 1])
  }

  lemma {:induction false} LengthsAt(lengths: seq<nat>, i: nat)
    requires (forall i :: 0 <= i < |lengths| ==> lengths[i] < LIMIT32) && i < |lengths|
    ensures DecodeLength(EncodeLengths(lengths)[4 * i..4 * i + 4]) == lengths[i]
  {
    hide EncodeLength, DecodeLength;
    var n := |lengths| - 1;
    var head := EncodeLengths(lengths[..n]);
    if i < n {
      LengthsAt(lengths[..n], i);
      assert EncodeLengths(lengths)[4 * i..4 * i + 4] == head[4 * i..4 * i + 4];
    } else {
      LengthRoundTrip(lengths[n]);
      assert EncodeLengths(lengths)[4 * n..4 * n + 4] == EncodeLength(lengths[n]);
    }
  }

  /** Appends lengths one after another, each cut to 32 bits. */
  method AppendLengths(dst: Bytes, lengths: seq<nat>) returns (r: Bytes)
    ensures |r| == |dst| + 4 * |lengths|
    ensures (forall i :: 0 <= i < |lengths| ==> lengths[i] < LIMIT32) ==> r == dst + EncodeLengths(lengths)
  {
    hide EncodeLength;
    r := dst;
    ghost var fits := forall i :: 0 <= i < |lengths| ==> lengths[i] < LIMIT32;
    for i := 0 to |lengths|
      invariant |r| == |dst| + 4 * i
      invariant fits ==> r == dst + EncodeLengths(lengths[..i])
    {
      assert lengths[..i + 1][..i] == lengths[..i];
      r := r + EncodeLength(lengths[i] % LIMIT32);
    }
    assert lengths[..|lengths|] == lengths;
  }

  // ---------------------------------------------------------------- varints

  /** A byte with more to come; one without. */
  function Continued(n: nat): Byte {
    (n % 128 + 128) as Byte
  }

  function Final(n: nat): Byte
    requires n < 128
  {
    n as Byte
  }

  function Low7(b: Byte): nat {
    b as nat % 128
  }

  predicate More(b: Byte) {
    b as nat >= 128
  }

  lemma GroupRoundTrip(n: nat)
    ensures More(Continued(n)) && Low7(Continued(n)) == n % 128
    ensures n < 128 ==> !More(Final(n)) && Low7(Final(n)) == n
  {
    ByteRoundTrip(n % 128 + 128);
    if n < 128 {
      ByteRoundTrip(n);
    }
  }

  /** Seven bits to a byte, the lowest first; all bytes but the last have the top bit set. */
  function EncodeVarint(n: nat): (b: Bytes)
    ensures b != []
  {
    if n < 128 then [Final(n)] else [Continued(n)] + EncodeVarint(n / 128)
  }

  /** A value and the number of bytes it took, at most `max`. */
  function DecodeVarint(b: Bytes, max: nat): (r: Option<(nat, nat)>)
    ensures r.Some? ==> 0 < r.value.1 <= |b| && r.value.1 <= max
    decreases max
  {
    if b == [] || max == 0 then
      None
    else if !More(b[0]) then
      Some((Low7(b[0]), 1))
    else
      var rest := DecodeVarint(b[1..], max - 1);
      if rest.None? then None else Some((Low7(b[0]) + 128 * rest.value.0, rest.value.1 + 1))
  }

  function Power128(k: nat): (p: nat)
    ensures p > 0
  {
    if k == 0 then 1 else 128 * Power128(k - 1)
  }

  /** A number that fits in `max` groups of seven bits reads back, whatever follows it. */
  lemma {:induction false} VarintRoundTrip(n: nat, rest: Bytes, max: nat)
    requires n < Power128(max) && max > 0
    ensures DecodeVarint(EncodeVarint(n) + rest, max) == Some((n, |EncodeVarint(n)|))
    decreases max
  {
    hide Continued, Final, Low7, More;
    if n < 128 {
      GroupRoundTrip(n);
    } else {
      var b := EncodeVarint(n);
      GroupRoundTrip(n);
      assert n / 128 < Power128(max - 1);
      VarintRoundTrip(n / 128, rest, max - 1);
      assert (b + rest)[1..] == EncodeVarint(n / 128) + rest;
      assert (b + rest)[0] == Continued(n);
    }
  }

  /** Seven bits to a byte: no number takes more bytes than it has groups. */
  lemma {:induction false} VarintLength(n: nat, max: nat)
    requires n < Power128(max) && max > 0
    ensures |EncodeVarint(n)| <= max
    decreases max
  {
    if n >= 128 {
      assert n / 128 < Power128(max - 1);
      VarintLength(n / 128, max - 1);
    }
  }

  /** Appends a 32-bit varint; the cases are those of the five possible lengths. */
  method PutVarint32(dst: Bytes, v: nat) returns (r: Bytes)
    requires v < LIMIT32
    ensures r == dst + EncodeVarint(v)
  {
    var b := EncodeVarint32(v);
    r := dst + b;
  }

  method EncodeVarint32(v: nat) returns (b: Bytes)
    requires v < LIMIT32
    ensures b == EncodeVarint(v)
  {
    hide DecodeVarint, EncodeVarint, Continued, Final;
    VarintUnfolds(v);
    if v < 0x80 {
      b := [Final(v)];
    } else if v < 0x4000 {
      b := [Continued(v), Final(v / 128)];
      VarintUnfolds(v / 128);
    } else if v < 0x20_0000 {
      b := [Continued(v), Continued(v / 128), Final(v / 128 / 128)];
      VarintUnfolds(v / 128);
      VarintUnfolds(v / 128 / 128);
    } else if v < 0x1000_0000 {
      b := [Continued(v), Continued(v / 128), Continued(v / 128 / 128), Final(v / 128 / 128 / 128)];
      VarintUnfolds(v / 128);
      VarintUnfolds(v / 128 / 128);
      VarintUnfolds(v / 128 / 128 / 128);
    } else {
      b := [Continued(v), Continued(v / 128), Continued(v / 128 / 128), Continued(v / 128 / 128 / 128), Final(v / 128 / 128 / 128 / 128)];
      VarintUnfolds(v / 128);
      VarintUnfolds(v / 128 / 128);
      VarintUnfolds(v / 128 / 128 / 128);
      VarintUnfolds(v / 128 / 128 / 128 / 128);
    }
  }

  lemma VarintUnfolds(v: nat)
    ensures EncodeVarint(v) == if v < 128 then [Final(v)] else [Continued(v)] + EncodeVarint(v / 128)
  {
  }

  method EncodeVarint64(v0: nat) returns (b: Bytes)
    ensures b == EncodeVarint(v0)
  {
    hide Continued, Final;
    var v := v0;
    b := [];
    while v >= 128
      invariant b + EncodeVarint(v) == EncodeVarint(v0)
    {
      b := b + [Continued(v)];
      v := v / 128;
    }
    b := b + [Final(v)];
  }

  function Scaled(r: Option<(nat, nat)>, base: nat, factor: nat, used: nat): Option<(nat, nat)> {
    if r.None? then None else Some((base + factor * r.value.0, used + r.value.1))
  }

  lemma ScaledStep(group: nat, v: nat, base: nat, factor: nat)
    ensures base + factor * (group + 128 * v) == (base + factor * group) + (128 * factor) * v
  {
  }

  lemma DecodeStep(b: Bytes, i: nat, max: nat, base: nat, factor: nat)
    requires i < |b| && i < max
    ensures var group := Low7(b[i]);
      Scaled(DecodeVarint(b[i..], max - i), base, factor, i)
        == if More(b[i]) then Scaled(DecodeVarint(b[i + 1..], max - i - 1), base + factor * group, 128 * factor, i + 1)
           else Some((base + factor * group, i + 1))
  {
    hide Low7, More;
    assert b[i..][1..] == b[i + 1..];
    var rest := DecodeVarint(b[i + 1..], max - i - 1);
    if rest.Some? {
      ScaledStep(Low7(b[i]), rest.value.0, base, factor);
    }
  }

  /** Reads a varint of at most `max` bytes, shifting by seven more each time. */
  method GetVarint(b: Bytes, max: nat) returns (r: Option<(nat, nat)>)
    ensures r == DecodeVarint(b, max)
  {
    hide Low7, More, Scaled;
    var result: nat, factor: nat, i: nat := 0, 1, 0;
    NothingScaled(b, max);
    while i < max && i < |b|
      invariant i <= max && i <= |b|
      invariant DecodeVarint(b, max) == Scaled(DecodeVarint(b[i..], max - i), result, factor, i)
    {
      DecodeStep(b, i, max, result, factor);
      var byte := b[i];
      result := result + factor * Low7(byte);
      if !More(byte) {
        return Some((result, i + 1));
      }
      factor := 128 * factor;
      i := i + 1;
    }
    RunOut(b, i, max, result, factor);
    return None;
  }

  lemma NothingScaled(b: Bytes, max: nat)
    ensures DecodeVarint(b, max) == Scaled(DecodeVarint(b[0..], max), 0, 1, 0)
  {
    assert b[0..] == b;
  }

  lemma RunOut(b: Bytes, i: nat, max: nat, base: nat, factor: nat)
    requires i <= |b| && i <= max && (i == |b| || i == max)
    ensures Scaled(DecodeVarint(b[i..], max - i), base, factor, i) == None
  {
  }

  // ---------------------------------------------------------------- slices

  function Prefixed(s: Bytes): Bytes {
    EncodeVarint(|s|) + s
  }

  /** Something read, and what is left of the input. */
  type Read<+T> = Option<(T, Bytes)>

  function GetVarint32(input: Bytes): (r: Read<nat>)
    ensures r.Some? ==> |r.value.1| < |input|
  {
    var d := DecodeVarint(input, 5);
    if d.None? then None else Some((d.value.0 % LIMIT32, input[d.value.1..]))
  }

  function GetVarint64(input: Bytes): (r: Read<nat>)
    ensures r.Some? ==> |r.value.1| < |input|
  {
    var d := DecodeVarint(input, 10);
    if d.None? then None else Some((d.value.0 % LIMIT64, input[d.value.1..]))
  }

  function GetLengthPrefixedSlice(input: Bytes): (r: Read<Bytes>)
    ensures r.Some? ==> |r.value.1| < |input|
  {
    var n := GetVarint32(input);
    if n.None? || |n.value.1| < n.value.0 then None else Some((n.value.1[..n.value.0], n.value.1[n.value.0..]))
  }

  lemma TenGroups()
    ensures Power128(5) > LIMIT32 && Power128(10) > LIMIT64
  {
    assert Power128(5) == 128 * 128 * 128 * 128 * 128 by {
      assert Power128(2) == 128 * 128;
    }
    assert Power128(7) == 128 * 128 * Power128(5);
    assert Power128(10) == 128 * 128 * 128 * Power128(7);
  }

  lemma Varint32RoundTrip(n: nat, rest: Bytes)
    requires n < LIMIT32
    ensures GetVarint32(EncodeVarint(n) + rest) == Some((n, rest))
  {
    hide EncodeVarint, DecodeVarint, Power128;
    TenGroups();
    VarintRoundTrip(n, rest, 5);
    assert (EncodeVarint(n) + rest)[|EncodeVarint(n)|..] == rest;
  }

  lemma Varint64RoundTrip(n: nat, rest: Bytes)
    requires n < LIMIT64
    ensures GetVarint64(EncodeVarint(n) + rest) == Some((n, rest))
  {
    hide EncodeVarint, DecodeVarint, Power128;
    TenGroups();
    VarintRoundTrip(n, rest, 10);
    assert (EncodeVarint(n) + rest)[|EncodeVarint(n)|..] == rest;
  }

  lemma PrefixedRoundTrip(s: Bytes, rest: Bytes)
    requires |s| < LIMIT32
    ensures GetLengthPrefixedSlice(Prefixed(s) + rest) == Some((s, rest))
  {
    hide GetVarint32, EncodeVarint;
    Varint32RoundTrip(|s|, s + rest);
    assert Prefixed(s) + rest == EncodeVarint(|s|) + (s + rest);
    assert (s + rest)[..|s|] == s && (s + rest)[|s|..] == rest;
  }

  // ---------------------------------------------------------------- parsing item by item

  /** What has been parsed already, and what the rest parses to. */
  function Following<T>(done: seq<T>, more: Option<seq<T>>): Option<seq<T>> {
    if more.None? then None else Some(done + more.value)
  }

  lemma NothingFollowed<T>(more: Option<seq<T>>)
    ensures Following([], more) == more
  {
    if more.Some? {
      assert [] + more.value == more.value;
    }
  }

  lemma FollowingStep<T>(done: seq<T>, item: T, more: Option<seq<T>>)
    ensures Following(done, Following([item], more)) == Following(done + [item], more)
  {
    if more.Some? {
      assert done + ([item] + more.value) == done + [item] + more.value;
    }
  }
}
