/** What the checksum is, by published values, and what it is for: a damaged string of the same
  * length has another checksum, if the damage is a burst of at most 32 bits. */
module ErrorDetection {
  import opened ByteNumbers
  import opened Crc32c

  // ---------------------------------------------------------------- bits in order

  /** The bits of a byte, lowest first. */
  function ByteBits(b: Byte): (bits: seq<bool>)
    ensures |bits| == 8
  {
    [b & 1 != 0, b & 2 != 0, b & 4 != 0, b & 8 != 0, b & 16 != 0, b & 32 != 0, b & 64 != 0, b & 128 != 0]
  }

  /** The bits of a string in the order in which they are divided. */
  function BitString(data: Bytes): (bits: seq<bool>)
    ensures |bits| == 8 * |data|
  {
    if data == [] then [] else ByteBits(data[0]) + BitString(data[1..])
  }

  lemma ByteBitsSettle(a: Byte, b: Byte)
    requires ByteBits(a) == ByteBits(b)
    ensures a == b
  {
    assert forall i :: 0 <= i < 8 ==> ByteBits(a)[i] == ByteBits(b)[i];
    SameBits(a, b);
  }

  lemma SameBits(a: Byte, b: Byte)
    ensures (a & 1 != 0 <==> b & 1 != 0) && (a & 2 != 0 <==> b & 2 != 0) && (a & 4 != 0 <==> b & 4 != 0) && (a & 8 != 0 <==> b & 8 != 0)
      && (a & 16 != 0 <==> b & 16 != 0) && (a & 32 != 0 <==> b & 32 != 0) && (a & 64 != 0 <==> b & 64 != 0) && (a & 128 != 0 <==> b & 128 != 0)
      ==> a == b
  {
  }

  lemma {:induction false} BitStringSettles(a: Bytes, b: Bytes)
    requires |a| == |b| && BitString(a) == BitString(b)
    ensures a == b
  {
    if a != [] {
      hide ByteBits;
      assert BitString(a)[..8] == ByteBits(a[0]) && BitString(b)[..8] == ByteBits(b[0]);
      ByteBitsSettle(a[0], b[0]);
      assert BitString(a)[8..] == BitString(a[1..]) && BitString(b)[8..] == BitString(b[1..]);
      BitStringSettles(a[1..], b[1..]);
    }
  }

  // ---------------------------------------------------------------- dividing bit by bit

  function One(b: bool): Word {
    if b then Word(1) else Word(0)
  }

  /** The remainder after some more bits. */
  function Feed(x: Word, bits: seq<bool>): Word
    decreases bits
  {
    if bits == [] then x else Feed(ZeroBit(x.Xor(One(bits[0]))), bits[1..])
  }

  lemma {:induction false} FeedAppend(x: Word, a: seq<bool>, b: seq<bool>)
    ensures Feed(x, a + b) == Feed(Feed(x, a), b)
    decreases |a|
  {
    hide ZeroBit, Word.Xor, One;
    if a == [] {
      assert a + b == b;
    } else {
      assert (a + b)[1..] == a[1..] + b;
      FeedAppend(ZeroBit(x.Xor(One(a[0]))), a[1..], b);
    }
  }

  lemma SplitBit(c: Byte)
    ensures Word(c as bv32) == One(c & 1 != 0).Xor(Word((c & 0xfe) as bv32))
    ensures ZeroBit(Word((c & 0xfe) as bv32)) == Word((c >> 1) as bv32)
  {
  }

  /** The lowest bit is divided first; the others move down. */
  lemma PeelBit(x: Word, c: Byte)
    ensures ZeroBit(x.Xor(Word(c as bv32))) == ZeroBit(x.Xor(One(c & 1 != 0))).Xor(Word((c >> 1) as bv32))
  {
    hide ZeroBit, Word.Xor, One;
    SplitBit(c);
    Associate(x, One(c & 1 != 0), Word((c & 0xfe) as bv32));
    BitLinear(x.Xor(One(c & 1 != 0)), Word((c & 0xfe) as bv32));
  }

  function Shift(b: Byte, k: bv4): Byte
    requires k <= 8
  {
    b >> k
  }

  lemma ShiftBits(b: Byte)
    ensures Shift(b, 0) == b && Shift(b, 8) == 0
    ensures Shift(b, 0) >> 1 == Shift(b, 1) && Shift(b, 1) >> 1 == Shift(b, 2) && Shift(b, 2) >> 1 == Shift(b, 3) && Shift(b, 3) >> 1 == Shift(b, 4)
    ensures Shift(b, 4) >> 1 == Shift(b, 5) && Shift(b, 5) >> 1 == Shift(b, 6) && Shift(b, 6) >> 1 == Shift(b, 7) && Shift(b, 7) >> 1 == Shift(b, 8)
    ensures (Shift(b, 0) & 1 != 0 <==> b & 1 != 0) && (Shift(b, 1) & 1 != 0 <==> b & 2 != 0) && (Shift(b, 2) & 1 != 0 <==> b & 4 != 0)
    ensures (Shift(b, 3) & 1 != 0 <==> b & 8 != 0) && (Shift(b, 4) & 1 != 0 <==> b & 16 != 0) && (Shift(b, 5) & 1 != 0 <==> b & 32 != 0)
    ensures (Shift(b, 6) & 1 != 0 <==> b & 64 != 0) && (Shift(b, 7) & 1 != 0 <==> b & 128 != 0)
  {
  }

  lemma FeedByteIs(x: Word, b: Byte)
    ensures Feed(x, ByteBits(b)) == ZeroByte(x.Xor(Place(b, 0)))
  {
    hide ZeroBit, Word.Xor, One, Shift;
    ShiftBits(b);
    var w := ByteBits(b);
    var x1 := ZeroBit(x.Xor(One(w[0])));
    var x2 := ZeroBit(x1.Xor(One(w[1])));
    var x3 := ZeroBit(x2.Xor(One(w[2])));
    var x4 := ZeroBit(x3.Xor(One(w[3])));
    var x5 := ZeroBit(x4.Xor(One(w[4])));
    var x6 := ZeroBit(x5.Xor(One(w[5])));
    var x7 := ZeroBit(x6.Xor(One(w[6])));
    PeelBit(x, Shift(b, 0));
    PeelBit(x1, Shift(b, 1));
    PeelBit(x2, Shift(b, 2));
    PeelBit(x3, Shift(b, 3));
    PeelBit(x4, Shift(b, 4));
    PeelBit(x5, Shift(b, 5));
    PeelBit(x6, Shift(b, 6));
    PeelBit(x7, Shift(b, 7));
    FeedEight(x, w);
    ZeroIsRightUnit(ZeroBit(x7.Xor(One(w[7]))));
  }

  lemma ZeroIsRightUnit(x: Word)
    ensures x.Xor(Word(0)) == x && x.Xor(x) == Word(0)
  {
  }

  lemma FeedEight(x: Word, w: seq<bool>)
    requires |w| == 8
    ensures var x1 := ZeroBit(x.Xor(One(w[0])));
      var x2 := ZeroBit(x1.Xor(One(w[1])));
      var x3 := ZeroBit(x2.Xor(One(w[2])));
      var x4 := ZeroBit(x3.Xor(One(w[3])));
      var x5 := ZeroBit(x4.Xor(One(w[4])));
      var x6 := ZeroBit(x5.Xor(One(w[5])));
      var x7 := ZeroBit(x6.Xor(One(w[6])));
      Feed(x, w) == ZeroBit(x7.Xor(One(w[7])))
  {
    hide ZeroBit, Word.Xor, One;
    FeedTwo(x, w);
    var x2 := ZeroBit(ZeroBit(x.Xor(One(w[0]))).Xor(One(w[1])));
    FeedTwo(x2, w[2..]);
    var x4 := ZeroBit(ZeroBit(x2.Xor(One(w[2]))).Xor(One(w[3])));
    assert w[2..][2..] == w[4..];
    FeedTwo(x4, w[4..]);
    var x6 := ZeroBit(ZeroBit(x4.Xor(One(w[4]))).Xor(One(w[5])));
    assert w[4..][2..] == w[6..];
    FeedTwo(x6, w[6..]);
    assert w[6..][2..] == [];
  }

  lemma FeedTwo(x: Word, w: seq<bool>)
    requires |w| >= 2
    ensures Feed(x, w) == Feed(ZeroBit(ZeroBit(x.Xor(One(w[0]))).Xor(One(w[1]))), w[2..])
  {
    hide ZeroBit, Word.Xor, One;
    assert w[1..][1..] == w[2..];
  }

  lemma {:induction false} RemainderIsFeed(x: Word, data: Bytes)
    ensures Remainder(x, data) == Feed(x, BitString(data))
    decreases data
  {
    hide ZeroByte, Word.Xor, Place, ByteBits;
    if data != [] {
      FeedByteIs(x, data[0]);
      FeedAppend(x, ByteBits(data[0]), BitString(data[1..]));
      RemainderIsFeed(ZeroByte(x.Xor(Place(data[0], 0))), data[1..]);
    }
  }

  // ---------------------------------------------------------------- differences

  function Difference(a: seq<bool>, b: seq<bool>): (d: seq<bool>)
    requires |a| == |b|
    ensures |d| == |a|
  {
    seq(|a|, i requires 0 <= i < |a| => a[i] != b[i])
  }

  lemma OneOfDifference(p: bool, q: bool)
    ensures One(p).Xor(One(q)) == One(p != q)
  {
  }

  /** Remainders differ by the remainder of the difference. */
  lemma {:induction false} FeedDifference(x: Word, y: Word, a: seq<bool>, b: seq<bool>)
    requires |a| == |b|
    ensures Feed(x, a).Xor(Feed(y, b)) == Feed(x.Xor(y), Difference(a, b))
    decreases |a|
  {
    hide ZeroBit, Word.Xor, One;
    if a != [] {
      var p, q := One(a[0]), One(b[0]);
      OneOfDifference(a[0], b[0]);
      Exchange(x, p, y, q);
      BitLinear(x.Xor(p), y.Xor(q));
      assert Difference(a, b)[1..] == Difference(a[1..], b[1..]);
      FeedDifference(ZeroBit(x.Xor(p)), ZeroBit(y.Xor(q)), a[1..], b[1..]);
    }
  }

  // ---------------------------------------------------------------- bursts

  /** Some bit from position `m` on is set. */
  predicate Above(x: Word, m: bv5) {
    x.bits >> m != 0
  }

  lemma StaysAbove(x: Word, b: bool, m: bv5)
    requires m > 0 && Above(x, m)
    ensures Above(ZeroBit(x.Xor(One(b))), m - 1)
  {
  }

  lemma FirstBitIsAbove()
    ensures Above(ZeroBit(Word(0).Xor(One(true))), 31)
  {
  }

  lemma AboveIsNotZero(x: Word, m: bv5)
    requires Above(x, m)
    ensures x != Word(0)
  {
  }

  lemma ZeroBitKeepsZero(x: Word)
    ensures ZeroBit(x.Xor(One(false))) == Word(0) <==> x == Word(0)
  {
  }

  lemma {:induction false} BurstRemains(x: Word, w: seq<bool>, m: bv5)
    requires |w| <= m as nat && Above(x, m)
    ensures Feed(x, w) != Word(0)
    decreases |w|
  {
    hide ZeroBit, Word.Xor, One, Above;
    if w == [] {
      AboveIsNotZero(x, m);
    } else {
      StaysAbove(x, w[0], m);
      LessOne(m);
      BurstRemains(ZeroBit(x.Xor(One(w[0]))), w[1..], m - 1);
    }
  }

  lemma LessOne(m: bv5)
    requires m > 0
    ensures (m - 1) as nat == m as nat - 1
  {
  }

  /** Zeros neither make nor unmake a remainder. */
  lemma {:induction false} ZerosKeep(x: Word, w: seq<bool>)
    requires forall i :: 0 <= i < |w| ==> !w[i]
    ensures Feed(x, w) == Word(0) <==> x == Word(0)
    decreases |w|
  {
    hide ZeroBit, Word.Xor, One;
    if w != [] {
      ZeroBitKeepsZero(x);
      ZerosKeep(ZeroBit(x.Xor(One(false))), w[1..]);
    }
  }

  /** The bits set all lie within 32 places. */
  ghost predicate Burst(d: seq<bool>, p: nat) {
    forall i :: 0 <= i < |d| && d[i] ==> p <= i < p + 32
  }

  lemma {:induction false} FirstSet(d: seq<bool>, i: nat) returns (f: nat)
    requires i < |d| && d[i]
    ensures f < |d| && d[f] && forall k :: 0 <= k < f ==> !d[k]
  {
    f := 0;
    while !d[f]
      invariant f <= i && forall k :: 0 <= k < f ==> !d[k]
      decreases i - f
    {
      f := f + 1;
    }
  }

  lemma BurstFeeds(d: seq<bool>, p: nat, f: nat)
    requires Burst(d, p) && f < |d| && d[f] && forall k :: 0 <= k < f ==> !d[k]
    ensures Feed(Word(0), d) != Word(0)
  {
    hide ZeroBit, Word.Xor, One, Above;
    var e := if f + 32 < |d| then f + 32 else |d|;
    assert d == d[..f] + (d[f..e] + d[e..]);
    FeedAppend(Word(0), d[..f], d[f..e] + d[e..]);
    ZerosKeep(Word(0), d[..f]);
    FeedAppend(Word(0), d[f..e], d[e..]);
    FirstBitIsAbove();
    assert d[f..e][0] && d[f..e][1..] == d[f + 1..e];
    BurstRemains(ZeroBit(Word(0).Xor(One(true))), d[f + 1..e], 31);
    ZerosKeep(Feed(Word(0), d[f..e]), d[e..]);
  }

  lemma XorDiffers(a: Word, b: Word)
    ensures a.Xor(b) == Word(0) <==> a == b
    ensures a.Xor(ONES) == b.Xor(ONES) <==> a == b
  {
  }

  /** Two strings of equal length that differ within 32 places have different checksums,
    * whatever came before them. */
  lemma BurstIsDetected(crc: Word, a: Bytes, b: Bytes, p: nat)
    requires |a| == |b| && a != b && Burst(Difference(BitString(a), BitString(b)), p)
    ensures Extended(crc, a) != Extended(crc, b)
  {
    hide ZeroBit, Word.Xor, One, Above, Remainder;
    var s, t, x := BitString(a), BitString(b), crc.Xor(ONES);
    if s == t {
      BitStringSettles(a, b);
    }
    var i :| 0 <= i < |s| && s[i] != t[i];
    var f := FirstSet(Difference(s, t), i);
    BurstFeeds(Difference(s, t), p, f);
    RemainderIsFeed(x, a);
    RemainderIsFeed(x, b);
    FeedDifference(x, x, s, t);
    ZeroIsRightUnit(x);
    XorDiffers(Feed(x, s), Feed(x, t));
    XorDiffers(Remainder(x, a), Remainder(x, b));
  }

  // ---------------------------------------------------------------- published values

  /** Some zero bytes in turn. */
  lemma FourZeroBytes(x: Word, a: Word, b: Word, c: Word, d: Word)
    requires ZeroByte(x) == a && ZeroByte(a) == b && ZeroByte(b) == c && ZeroByte(c) == d
    ensures Zeros(x, 4) == d
  {
    hide ZeroByte;
    FourZeros(x);
  }

  lemma {:induction false} ZerosAreZeroBytes(x: Word, data: Bytes)
    requires forall i :: 0 <= i < |data| ==> data[i] == 0
    ensures Remainder(x, data) == Zeros(x, |data|)
    decreases data
  {
    hide ZeroByte, Place, Word.Xor;
    if data != [] {
      PlaceOfZero(x);
      ZerosAreZeroBytes(ZeroByte(x), data[1..]);
    }
  }

  lemma PlaceOfZero(x: Word)
    ensures x.Xor(Place(0, 0)) == x
  {
  }

  lemma ZerosPart1()
    ensures Zeros(Word(0xffff_ffff), 4) == Word(0xb798_b438)
  {
    FourZeroBytes(Word(0xffff_ffff), Word(0xad82_acae), Word(0x0e9e_882d), Word(0x9f9b_5c85), Word(0xb798_b438));
  }

  lemma ZerosPart2()
    ensures Zeros(Word(0xb798_b438), 4) == Word(0x73d7_4d75)
  {
    FourZeroBytes(Word(0xb798_b438), Word(0xba8d_89ca), Word(0xa8d5_8375), Word(0x44c1_9592), Word(0x73d7_4d75));
  }

  lemma ZerosPart3()
    ensures Zeros(Word(0x73d7_4d75), 4) == Word(0xd49f_4aa2)
  {
    FourZeroBytes(Word(0x73d7_4d75), Word(0x441a_975c), Word(0x1c22_0f94), Word(0x552e_4907), Word(0xd49f_4aa2));
  }

  lemma ZerosPart4()
    ensures Zeros(Word(0xd49f_4aa2), 4) == Word(0xbd8f_6515)
  {
    FourZeroBytes(Word(0xd49f_4aa2), Word(0x43a4_5a1b), Word(0x8994_c80e), Word(0xacf1_2bef), Word(0xbd8f_6515));
  }

  lemma ZerosPart5()
    ensures Zeros(Word(0xbd8f_6515), 4) == Word(0x433a_a9c1)
  {
    FourZeroBytes(Word(0xbd8f_6515), Word(0x2512_5c16), Word(0x36da_32db), Word(0x4a6c_90a2), Word(0x433a_a9c1));
  }

  lemma ZerosPart6()
    ensures Zeros(Word(0x433a_a9c1), 4) == Word(0x7b04_1311)
  {
    FourZeroBytes(Word(0x433a_a9c1), Word(0x31a5_9f6e), Word(0xcd8f_89da), Word(0xb8fc_461a), Word(0x7b04_1311));
  }

  lemma ZerosPart7()
    ensures Zeros(Word(0x7b04_1311), 4) == Word(0x0836_3896)
  {
    FourZeroBytes(Word(0x7b04_1311), Word(0xe24e_407f), Word(0x2f69_2669), Word(0x195b_2188), Word(0x0836_3896));
  }

  lemma ZerosPart8()
    ensures Zeros(Word(0x0836_3896), 4) == Word(0x756e_c955)
  {
    FourZeroBytes(Word(0x0836_3896), Word(0xb401_2dc7), Word(0x17f3_4302), Word(0xe12c_83b4), Word(0x756e_c955));
  }

  /** Thirty-two zero bytes (section B.4 of RFC 3720). */
  lemma ChecksumOfZeros(data: Bytes)
    requires |data| == 32 && forall i :: 0 <= i < |data| ==> data[i] == 0
    ensures Checksum(data) == Word(0x8a91_36aa)
  {
    hide ZeroByte, Zeros, Remainder;
    ZerosPart1();
    ZerosPart2();
    ZerosPart3();
    ZerosPart4();
    ZerosPart5();
    ZerosPart6();
    ZerosPart7();
    ZerosPart8();
    ZerosAdd(ONES, 4, 4);
    ZerosAdd(ONES, 8, 4);
    ZerosAdd(ONES, 12, 4);
    ZerosAdd(ONES, 16, 4);
    ZerosAdd(ONES, 20, 4);
    ZerosAdd(ONES, 24, 4);
    ZerosAdd(ONES, 28, 4);
    assert Word(0).Xor(ONES) == ONES;
    ZerosAreZeroBytes(ONES, data);
  }

  lemma ThreeBytes(l: Word, a: Byte, b: Byte, c: Byte, x: Word, y: Word, z: Word)
    requires ZeroByte(l.Xor(Place(a, 0))) == x && ZeroByte(x.Xor(Place(b, 0))) == y && ZeroByte(y.Xor(Place(c, 0))) == z
    ensures Remainder(l, [a, b, c]) == z
  {
    hide ZeroByte, Place, Word.Xor;
    assert [a, b, c][1..] == [b, c] && [b, c][1..] == [c] && [c][1..] == [];
    assert Remainder(z, []) == z;
    assert Remainder(y, [c]) == z;
  }

  const DIGITS: Bytes := [49, 50, 51] + [52, 53, 54] + [55, 56, 57]

  lemma Digits1()
    ensures Remainder(Word(0xffff_ffff), [49, 50, 51]) == Word(0xef84_d04d)
  {
    ThreeBytes(Word(0xffff_ffff), 49, 50, 51, Word(0x6f0a_661c), Word(0x8caa_3b9f), Word(0xef84_d04d));
  }

  lemma Digits2()
    ensures Remainder(Word(0xef84_d04d), [52, 53, 54]) == Word(0xbeca_8e79)
  {
    ThreeBytes(Word(0xef84_d04d), 52, 53, 54, Word(0x09c5_0b11), Word(0xe72e_dcca), Word(0xbeca_8e79));
  }

  lemma Digits3()
    ensures Remainder(Word(0xbeca_8e79), [55, 56, 57]) == Word(0x1cf9_6d7c)
  {
    ThreeBytes(Word(0xbeca_8e79), 55, 56, 57, Word(0xedbd_6815), Word(0x9f78_7f65), Word(0x1cf9_6d7c));
  }

  /** The digits from 1 to 9. */
  lemma ChecksumOfDigits()
    ensures Checksum(DIGITS) == Word(0xe306_9283)
  {
    hide Remainder;
    Digits1();
    Digits2();
    Digits3();
    RemainderAppend(ONES, [49, 50, 51] + [52, 53, 54], [55, 56, 57]);
    RemainderAppend(ONES, [49, 50, 51], [52, 53, 54]);
    assert Word(0).Xor(ONES) == ONES;
  }

  /** Entries of the tables as the code lists them. */
  lemma TableEntries(t: Tables)
    requires t.Sound()
    ensures t.byte[1] == Word(0xf26b_8303) && t.byte[128] == Word(0x82f6_3b78) && t.byte[255] == Word(0xad7d_5351)
  {
    hide Zeros;
    assert t.byte[(1 as Byte) as nat] == ZeroByte(Place(1, 0));
    assert t.byte[(128 as Byte) as nat] == ZeroByte(Place(128, 0));
    assert t.byte[(255 as Byte) as nat] == ZeroByte(Place(255, 0));
  }
}
