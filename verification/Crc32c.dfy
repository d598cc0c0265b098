/** CRC32C: the table-driven loop with four interleaved strides computes the remainder that
  * the bit-by-bit definition gives. */
module Crc32c {
  import opened ByteNumbers

  /** A 32-bit register. */
  datatype Word = Word(bits: bv32) {
    function Xor(that: Word): Word {
      Word(bits ^ that.bits)
    }

    /** The byte at the low end. */
    function Low(): Byte {
      (bits & 0xff) as bv8
    }

    /** What remains once the low byte is shifted out. */
    function Rest(): Word {
      Word(bits >> 8)
    }

    function Top(): Byte {
      (bits >> 24) as bv8
    }
  }

  /** The Castagnoli polynomial, bit-reversed (section 12.1 of RFC 3720). */
  const POLYNOMIAL := Word(0x82f6_3b78)
  const ONES := Word(0xffff_ffff)
  const MASK_DELTA: bv32 := 0xa282_ead8

  /** The word with byte `b` at position `k`, counted from the low end. */
  function Place(b: Byte, k: nat): Word
    requires k < 4
  {
    if k == 0 then Word(b as bv32)
    else if k == 1 then Word((b as bv32) << 8)
    else if k == 2 then Word((b as bv32) << 16)
    else Word((b as bv32) << 24)
  }

  // ---------------------------------------------------------------- the definition

  /** Shifts one zero bit into the remainder. */
  function ZeroBit(x: Word): Word {
    if Odd(x) then Half(x).Xor(POLYNOMIAL) else Half(x)
  }

  predicate Odd(x: Word) {
    x.bits & 1 == 1
  }

  function Half(x: Word): Word {
    Word(x.bits >> 1)
  }

  function ZeroByte(x: Word): Word {
    ZeroBit(ZeroBit(ZeroBit(ZeroBit(ZeroBit(ZeroBit(ZeroBit(ZeroBit(x))))))))
  }

  function Zeros(x: Word, n: nat): Word
    decreases n
  {
    if n == 0 then x else Zeros(ZeroByte(x), n - 1)
  }

  /** The remainder after the bytes of `data`, lowest bit of each first. */
  function Remainder(l: Word, data: Bytes): Word
    decreases data
  {
    if data == [] then l else Remainder(ZeroByte(l.Xor(Place(data[0], 0))), data[1..])
  }

  /** The checksum of A + data, given the checksum of A. */
  function Extended(crc: Word, data: Bytes): Word {
    Remainder(crc.Xor(ONES), data).Xor(ONES)
  }

  function Checksum(data: Bytes): Word {
    Extended(Word(0), data)
  }

  // ---------------------------------------------------------------- linearity

  lemma Cancel(x: Word, y: Word)
    ensures x.Xor(y).Xor(y) == x
  {
  }

  lemma Associate(a: Word, b: Word, c: Word)
    ensures a.Xor(b).Xor(c) == a.Xor(b.Xor(c))
  {
  }

  lemma Commute(a: Word, b: Word)
    ensures a.Xor(b) == b.Xor(a)
  {
  }

  lemma Exchange(a: Word, b: Word, c: Word, d: Word)
    ensures a.Xor(b).Xor(c.Xor(d)) == a.Xor(c).Xor(b.Xor(d))
  {
    hide Word.Xor;
    Associate(a, b, c.Xor(d));
    Associate(b, c, d);
    Commute(b, c);
    Associate(c, b, d);
    Associate(a, c, b.Xor(d));
  }

  lemma HalfLinear(x: Word, y: Word)
    ensures Half(x.Xor(y)) == Half(x).Xor(Half(y))
  {
  }

  lemma OddLinear(x: Word, y: Word)
    ensures Odd(x.Xor(y)) <==> Odd(x) != Odd(y)
  {
  }

  lemma BitLinear(x: Word, y: Word)
    ensures ZeroBit(x.Xor(y)) == ZeroBit(x).Xor(ZeroBit(y))
  {
    hide Word.Xor, Odd, Half;
    HalfLinear(x, y);
    OddLinear(x, y);
    var a, b := Half(x), Half(y);
    Associate(a, b, POLYNOMIAL);
    Associate(a, POLYNOMIAL, b);
    Commute(POLYNOMIAL, b);
    Exchange(a, POLYNOMIAL, b, POLYNOMIAL);
    Vanish(a.Xor(b), POLYNOMIAL);
  }

  lemma Vanish(a: Word, p: Word)
    ensures a.Xor(p.Xor(p)) == a
  {
  }

  lemma ByteLinear(x: Word, y: Word)
    ensures ZeroByte(x.Xor(y)) == ZeroByte(x).Xor(ZeroByte(y))
  {
    hide ZeroBit, Word.Xor;
    BitLinear(x, y);
    var x1, y1 := ZeroBit(x), ZeroBit(y);
    BitLinear(x1, y1);
    var x2, y2 := ZeroBit(x1), ZeroBit(y1);
    BitLinear(x2, y2);
    var x3, y3 := ZeroBit(x2), ZeroBit(y2);
    BitLinear(x3, y3);
    var x4, y4 := ZeroBit(x3), ZeroBit(y3);
    BitLinear(x4, y4);
    var x5, y5 := ZeroBit(x4), ZeroBit(y4);
    BitLinear(x5, y5);
    var x6, y6 := ZeroBit(x5), ZeroBit(y5);
    BitLinear(x6, y6);
    BitLinear(ZeroBit(x6), ZeroBit(y6));
  }

  lemma {:induction false} ZerosLinear(x: Word, y: Word, n: nat)
    ensures Zeros(x.Xor(y), n) == Zeros(x, n).Xor(Zeros(y, n))
    decreases n
  {
    hide ZeroByte, Word.Xor;
    if n > 0 {
      ByteLinear(x, y);
      ZerosLinear(ZeroByte(x), ZeroByte(y), n - 1);
    }
  }

  lemma {:induction false} ZerosAdd(x: Word, a: nat, b: nat)
    ensures Zeros(x, a + b) == Zeros(Zeros(x, a), b)
    decreases a
  {
    hide ZeroByte;
    if a > 0 {
      ZerosAdd(ZeroByte(x), a - 1, b);
    }
  }

  lemma {:induction false} RemainderAppend(l: Word, a: Bytes, b: Bytes)
    ensures Remainder(l, a + b) == Remainder(Remainder(l, a), b)
    decreases a
  {
    hide ZeroByte, Word.Xor, Place;
    if a == [] {
      assert a + b == b;
    } else {
      assert (a + b)[1..] == a[1..] + b;
      RemainderAppend(ZeroByte(l.Xor(Place(a[0], 0))), a[1..], b);
    }
  }

  /** Extending by the pieces of a stream is extending by the stream. */
  lemma ExtendComposes(crc: Word, a: Bytes, b: Bytes)
    ensures Extended(Extended(crc, a), b) == Extended(crc, a + b)
  {
    hide Remainder, Word.Xor;
    RemainderAppend(crc.Xor(ONES), a, b);
    Cancel(Remainder(crc.Xor(ONES), a), ONES);
  }

  // ---------------------------------------------------------------- bytes and words

  lemma HalfOfEven(x: Word)
    requires !Odd(x)
    ensures ZeroBit(x) == Half(x)
  {
  }

  /** What lies above the low byte. */
  function High(x: Word): Word {
    Word(x.bits & 0xffff_ff00)
  }

  function Shifted(x: Word, k: bv5): Word {
    Word(x.bits >> k)
  }

  lemma ShiftStep(x: Word, k: bv5)
    requires k < 31
    ensures Half(Shifted(x, k)) == Shifted(x, k + 1)
  {
  }

  lemma EvenBelow(x: Word, k: bv5)
    requires k < 8
    ensures !Odd(Shifted(High(x), k))
  {
  }

  lemma ShiftEnds(x: Word)
    ensures Shifted(High(x), 0) == High(x) && Shifted(High(x), 8) == x.Rest()
  {
  }

  lemma DropZeroBit(x: Word, k: bv5)
    requires k < 8
    ensures ZeroBit(Shifted(High(x), k)) == Shifted(High(x), k + 1)
  {
    hide Odd, Half, Shifted, High;
    EvenBelow(x, k);
    HalfOfEven(Shifted(High(x), k));
    ShiftStep(High(x), k);
  }

  /** With a zero low byte, eight zero bits only shift. */
  lemma DropZeroByte(x: Word)
    ensures ZeroByte(High(x)) == x.Rest()
  {
    hide ZeroBit, Shifted, High;
    ShiftEnds(x);
    DropZeroBit(x, 0);
    DropZeroBit(x, 1);
    DropZeroBit(x, 2);
    DropZeroBit(x, 3);
    DropZeroBit(x, 4);
    DropZeroBit(x, 5);
    DropZeroBit(x, 6);
    DropZeroBit(x, 7);
  }

  lemma SplitLow(x: Word)
    ensures Place(x.Low(), 0).Xor(High(x)) == x
  {
  }

  lemma SplitBytes(x: Word)
    ensures Place(x.Low(), 0).Xor(Place(x.Rest().Low(), 1)).Xor(Place(x.Rest().Rest().Low(), 2)).Xor(Place(x.Top(), 3)) == x
  {
  }

  lemma PlaceIsHigh(b: Byte, k: nat)
    requires k < 3
    ensures High(Place(b, k + 1)) == Place(b, k + 1) && Place(b, k + 1).Rest() == Place(b, k)
  {
  }

  /** A zero byte shifts a higher byte down unchanged. */
  lemma ZeroByteShifts(b: Byte, k: nat)
    requires k < 3
    ensures ZeroByte(Place(b, k + 1)) == Place(b, k)
  {
    hide ZeroByte, Place, High;
    PlaceIsHigh(b, k);
    DropZeroByte(Place(b, k + 1));
  }

  /** A little-endian word. */
  function DecodeFixed32(b: Bytes): Word
    requires |b| == 4
  {
    Word((b[0] as bv32) | ((b[1] as bv32) << 8) | ((b[2] as bv32) << 16) | ((b[3] as bv32) << 24))
  }

  lemma DecodeFixed32IsSum(b: Bytes)
    requires |b| == 4
    ensures DecodeFixed32(b) == Place(b[0], 0).Xor(Place(b[1], 1)).Xor(Place(b[2], 2)).Xor(Place(b[3], 3))
  {
  }

  lemma FeedByte(x: Word, b: Byte, k: nat)
    requires k < 3
    ensures ZeroByte(x.Xor(Place(b, k + 1))) == ZeroByte(x).Xor(Place(b, k))
  {
    hide ZeroByte, Word.Xor, Place;
    ByteLinear(x, Place(b, k + 1));
    ZeroByteShifts(b, k);
  }

  lemma RemainderOfFour(l: Word, d: Bytes)
    requires |d| == 4
    ensures var r1 := ZeroByte(l.Xor(Place(d[0], 0)));
      var r2 := ZeroByte(r1.Xor(Place(d[1], 0)));
      var r3 := ZeroByte(r2.Xor(Place(d[2], 0)));
      Remainder(l, d) == ZeroByte(r3.Xor(Place(d[3], 0)))
  {
    hide ZeroByte, Word.Xor, Place;
    var r1 := ZeroByte(l.Xor(Place(d[0], 0)));
    var r2 := ZeroByte(r1.Xor(Place(d[1], 0)));
    var r3 := ZeroByte(r2.Xor(Place(d[2], 0)));
    assert d[1..][1..] == d[2..] && d[2..][1..] == d[3..] && d[3..][1..] == [];
    assert Remainder(l, d) == Remainder(r1, d[1..]);
    assert Remainder(r1, d[1..]) == Remainder(r2, d[2..]);
    assert Remainder(r2, d[2..]) == Remainder(r3, d[3..]);
    assert Remainder(r3, d[3..]) == Remainder(ZeroByte(r3.Xor(Place(d[3], 0))), []);
  }

  /** Four bytes may be fed as one little-endian word. */
  lemma WordStep(l: Word, d: Bytes)
    requires |d| == 4
    ensures Remainder(l, d) == Zeros(l.Xor(DecodeFixed32(d)), 4)
  {
    hide ZeroByte, Word.Xor, Place, DecodeFixed32, Remainder, Zeros;
    RemainderOfFour(l, d);
    DecodeFixed32IsSum(d);
    var x0 := l.Xor(Place(d[0], 0));
    Associate(l, Place(d[0], 0).Xor(Place(d[1], 1)).Xor(Place(d[2], 2)), Place(d[3], 3));
    Associate(l, Place(d[0], 0).Xor(Place(d[1], 1)), Place(d[2], 2));
    Associate(l, Place(d[0], 0), Place(d[1], 1));
    var r1 := ZeroByte(x0);
    FeedByte(x0, d[1], 0);
    FeedByte(x0.Xor(Place(d[1], 1)), d[2], 1);
    FeedByte(x0.Xor(Place(d[1], 1)).Xor(Place(d[2], 2)), d[3], 2);
    var r2 := ZeroByte(r1.Xor(Place(d[1], 0)));
    FeedByte(r1.Xor(Place(d[1], 0)), d[2], 0);
    FeedByte(r1.Xor(Place(d[1], 0)).Xor(Place(d[2], 1)), d[3], 1);
    FeedByte(r2.Xor(Place(d[2], 0)), d[3], 0);
    FourZeros(l.Xor(DecodeFixed32(d)));
  }

  lemma FourZeros(x: Word)
    ensures Zeros(x, 4) == ZeroByte(ZeroByte(ZeroByte(ZeroByte(x))))
  {
    hide ZeroByte;
    assert Zeros(x, 4) == Zeros(ZeroByte(ZeroByte(x)), 2);
  }

  // ---------------------------------------------------------------- tables

  /** The precomputed tables; their entries obey the recurrence of the polynomial. */
  datatype Tables = Tables(byte: seq<Word>, stride0: seq<Word>, stride1: seq<Word>, stride2: seq<Word>, stride3: seq<Word>) {
    ghost predicate Sound() {
      && |byte| == |stride0| == |stride1| == |stride2| == |stride3| == 256
      && (forall b: Byte :: byte[b as nat] == ZeroByte(Place(b, 0)))
      && (forall b: Byte :: stride3[b as nat] == Zeros(Place(b, 0), 16))
      && (forall b: Byte :: stride2[b as nat] == Zeros(Place(b, 1), 16))
      && (forall b: Byte :: stride1[b as nat] == Zeros(Place(b, 2), 16))
      && (forall b: Byte :: stride0[b as nat] == Zeros(Place(b, 3), 16))
    }
  }

  lemma LowOfSum(l: Word, b: Byte)
    ensures l.Xor(Place(b, 0)).Low() == l.Low() ^ b
  {
  }

  lemma RestOfSum(l: Word, b: Byte)
    ensures l.Xor(Place(b, 0)).Rest() == l.Rest()
  {
  }

  lemma TableByte(t: Tables, x: Word)
    requires t.Sound()
    ensures t.byte[x.Low() as nat].Xor(x.Rest()) == ZeroByte(x)
  {
    hide ZeroByte, Zeros, Word.Xor, Place, High, Word.Low, Word.Rest;
    SplitLow(x);
    ByteLinear(Place(x.Low(), 0), High(x));
    DropZeroByte(x);
  }

  /** Feeds one byte. */
  function Step1(t: Tables, l: Word, b: Byte): (r: Word)
    requires t.Sound()
    ensures r == ZeroByte(l.Xor(Place(b, 0)))
  {
    hide ZeroByte, Zeros, Word.Xor, Place, Word.Low, Word.Rest;
    LowOfSum(l, b);
    RestOfSum(l, b);
    TableByte(t, l.Xor(Place(b, 0)));
    t.byte[(l.Low() ^ b) as nat].Xor(l.Rest())
  }

  lemma ZerosOfSum(a: Word, b: Word, c: Word, d: Word, n: nat)
    ensures Zeros(a.Xor(b).Xor(c).Xor(d), n) == Zeros(a, n).Xor(Zeros(b, n)).Xor(Zeros(c, n)).Xor(Zeros(d, n))
  {
    hide Zeros, Word.Xor;
    ZerosLinear(a.Xor(b).Xor(c), d, n);
    ZerosLinear(a.Xor(b), c, n);
    ZerosLinear(a, b, n);
  }

  lemma SumAfter(w: Word, a: Word, b: Word, c: Word, d: Word)
    ensures w.Xor(a).Xor(b).Xor(c).Xor(d) == w.Xor(a.Xor(b).Xor(c).Xor(d))
  {
    hide Word.Xor;
    Associate(w, a, b);
    Associate(w, a.Xor(b), c);
    Associate(w, a.Xor(b).Xor(c), d);
  }

  /** Moves one stride on by 16 bytes, and feeds it a word. */
  function Step4(t: Tables, c: Word, w: Word): (r: Word)
    requires t.Sound()
    ensures r == w.Xor(Zeros(c, 16))
  {
    hide ZeroByte, Zeros, Word.Xor, Place, Word.Low, Word.Rest, Word.Top;
    SplitBytes(c);
    var b0, b1, b2, b3 := c.Low(), c.Rest().Low(), c.Rest().Rest().Low(), c.Top();
    ZerosOfSum(Place(b0, 0), Place(b1, 1), Place(b2, 2), Place(b3, 3), 16);
    SumAfter(w, Zeros(Place(b0, 0), 16), Zeros(Place(b1, 1), 16), Zeros(Place(b2, 2), 16), Zeros(Place(b3, 3), 16));
    w.Xor(t.stride3[b0 as nat]).Xor(t.stride2[b1 as nat]).Xor(t.stride1[b2 as nat]).Xor(t.stride0[b3 as nat])
  }

  /** Feeds a word already loaded into a register. */
  method Step4W(t: Tables, l: Word, w0: Word) returns (w: Word)
    requires t.Sound()
    ensures w == Zeros(l.Xor(w0), 4)
  {
    hide ZeroByte, Word.Xor, Place, Word.Low, Word.Rest, Tables.Sound;
    w := w0.Xor(l);
    Commute(w0, l);
    for i := 0 to 4
      invariant Zeros(w, 4 - i) == Zeros(l.Xor(w0), 4)
    {
      w := Step(t, w);
    }
  }

  function Step(t: Tables, w: Word): (r: Word)
    requires t.Sound()
    ensures r == ZeroByte(w)
  {
    hide ZeroByte, Zeros, Word.Xor, Place, Word.Low, Word.Rest;
    TableByte(t, w);
    Commute(w.Rest(), t.byte[w.Low() as nat]);
    w.Rest().Xor(t.byte[w.Low() as nat])
  }

  // ---------------------------------------------------------------- strides

  /** The remainder four strides stand for. */
  function Combined(c0: Word, c1: Word, c2: Word, c3: Word): Word {
    Zeros(Zeros(Zeros(Zeros(c0, 4).Xor(c1), 4).Xor(c2), 4).Xor(c3), 4)
  }

  lemma MoveOn(x: Word, n: nat, y: Word)
    ensures Zeros(Zeros(x, n).Xor(y), 4) == Zeros(x, n + 4).Xor(Zeros(y, 4))
  {
    hide Zeros, Word.Xor;
    ZerosLinear(Zeros(x, n), y, 4);
    ZerosAdd(x, n, 4);
  }

  /** Feeding a word to the oldest stride, which becomes the newest. */
  lemma Rotate(c0: Word, c1: Word, c2: Word, c3: Word, w: Word)
    ensures Zeros(Combined(c0, c1, c2, c3).Xor(w), 4) == Combined(c1, c2, c3, w.Xor(Zeros(c0, 16)))
  {
    hide Zeros, Word.Xor;
    MoveOn(c0, 4, c1);
    var g1 := Zeros(c1, 4);
    Associate(Zeros(c0, 8), g1, c2);
    MoveOn(c0, 8, g1.Xor(c2));
    var g2 := Zeros(g1.Xor(c2), 4);
    Associate(Zeros(c0, 12), g2, c3);
    MoveOn(c0, 12, g2.Xor(c3));
    var g3 := Zeros(g2.Xor(c3), 4);
    assert Combined(c0, c1, c2, c3) == Zeros(c0, 16).Xor(g3);
    Commute(Zeros(c0, 16), g3);
    Associate(g3, Zeros(c0, 16), w);
    Commute(Zeros(c0, 16), w);
  }

  lemma FeedWord(t: Tables, l: Word, data: Bytes, p: nat, c0: Word, c1: Word, c2: Word, c3: Word)
    requires t.Sound() && p + 4 <= |data| && Remainder(l, data[..p]) == Combined(c0, c1, c2, c3)
    ensures Remainder(l, data[..p + 4]) == Combined(c1, c2, c3, Step4(t, c0, DecodeFixed32(data[p..p + 4])))
  {
    hide Zeros, Word.Xor, DecodeFixed32, Remainder, Tables.Sound, Combined;
    assert data[..p + 4] == data[..p] + data[p..p + 4];
    RemainderAppend(l, data[..p], data[p..p + 4]);
    WordStep(Remainder(l, data[..p]), data[p..p + 4]);
    Rotate(c0, c1, c2, c3, DecodeFixed32(data[p..p + 4]));
  }

  lemma FirstWord(l: Word, data: Bytes, p: nat, r: Word)
    requires p + 4 <= |data| && Remainder(l, data[..p]) == r
    ensures Remainder(l, data[..p + 4]) == Zeros(r.Xor(DecodeFixed32(data[p..p + 4])), 4)
  {
    hide Zeros, Word.Xor, DecodeFixed32, Remainder;
    assert data[..p + 4] == data[..p] + data[p..p + 4];
    RemainderAppend(l, data[..p], data[p..p + 4]);
    WordStep(r, data[p..p + 4]);
  }

  lemma EnterStrides(l: Word, data: Bytes, p: nat, r: Word)
    requires p + 16 <= |data| && Remainder(l, data[..p]) == r
    ensures Remainder(l, data[..p + 16])
      == Combined(DecodeFixed32(data[p..p + 4]).Xor(r), DecodeFixed32(data[p + 4..p + 8]),
                  DecodeFixed32(data[p + 8..p + 12]), DecodeFixed32(data[p + 12..p + 16]))
  {
    hide Zeros, Word.Xor, DecodeFixed32, Remainder;
    FirstWord(l, data, p, r);
    Commute(r, DecodeFixed32(data[p..p + 4]));
    var r1 := Remainder(l, data[..p + 4]);
    FirstWord(l, data, p + 4, r1);
    var r2 := Remainder(l, data[..p + 8]);
    FirstWord(l, data, p + 8, r2);
    FirstWord(l, data, p + 12, Remainder(l, data[..p + 12]));
  }

  lemma FeedOne(l: Word, data: Bytes, p: nat)
    requires p < |data|
    ensures Remainder(l, data[..p + 1]) == ZeroByte(Remainder(l, data[..p]).Xor(Place(data[p], 0)))
  {
    hide ZeroByte, Word.Xor, Place;
    assert data[..p + 1] == data[..p] + [data[p]];
    RemainderAppend(l, data[..p], [data[p]]);
    assert [data[p]][1..] == [];
  }

  // ---------------------------------------------------------------- the loop

  /** How far a pointer is from the next 4-byte boundary. */
  function ToBoundary(address: nat): nat {
    (4 - address % 4) % 4
  }

  /** Whatever the alignment and the length, the strides give the defined checksum. */
  method Extend(t: Tables, crc: Word, data: Bytes, address: nat) returns (r: Word)
    requires t.Sound()
    ensures r == Extended(crc, data)
  {
    hide ZeroByte, Zeros, Word.Xor, Place, Tables.Sound, Remainder, DecodeFixed32, Combined;
    ghost var l0 := crc.Xor(ONES);
    var l := crc.Xor(ONES);
    var p, e := 0, |data|;
    NothingRead(l0, data);
    var x := ToBoundary(address);
    if x <= e {
      while p != x
        invariant p <= x && l == Remainder(l0, data[..p])
        decreases x - p
      {
        FeedOne(l0, data, p);
        l := Step1(t, l, data[p]);
        p := p + 1;
      }
    }
    if e - p >= 16 {
      EnterStrides(l0, data, p, l);
      var crc0 := DecodeFixed32(data[p..p + 4]).Xor(l);
      var crc1 := DecodeFixed32(data[p + 4..p + 8]);
      var crc2 := DecodeFixed32(data[p + 8..p + 12]);
      var crc3 := DecodeFixed32(data[p + 12..p + 16]);
      p := p + 16;
      while e - p >= 16
        invariant p <= e && Remainder(l0, data[..p]) == Combined(crc0, crc1, crc2, crc3)
      {
        FeedWord(t, l0, data, p, crc0, crc1, crc2, crc3);
        crc0 := Step4(t, crc0, DecodeFixed32(data[p..p + 4]));
        FeedWord(t, l0, data, p + 4, crc1, crc2, crc3, crc0);
        crc1 := Step4(t, crc1, DecodeFixed32(data[p + 4..p + 8]));
        FeedWord(t, l0, data, p + 8, crc2, crc3, crc0, crc1);
        crc2 := Step4(t, crc2, DecodeFixed32(data[p + 8..p + 12]));
        FeedWord(t, l0, data, p + 12, crc3, crc0, crc1, crc2);
        crc3 := Step4(t, crc3, DecodeFixed32(data[p + 12..p + 16]));
        p := p + 16;
      }
      while e - p >= 4
        invariant p <= e && Remainder(l0, data[..p]) == Combined(crc0, crc1, crc2, crc3)
      {
        FeedWord(t, l0, data, p, crc0, crc1, crc2, crc3);
        crc0, crc1, crc2, crc3 := crc1, crc2, crc3, Step4(t, crc0, DecodeFixed32(data[p..p + 4]));
        p := p + 4;
      }
      l := CombineStrides(t, crc0, crc1, crc2, crc3);
    }
    while p != e
      invariant p <= e && l == Remainder(l0, data[..p])
      decreases e - p
    {
      FeedOne(l0, data, p);
      l := Step1(t, l, data[p]);
      p := p + 1;
    }
    assert data[..e] == data;
    r := l.Xor(ONES);
  }

  lemma NothingRead(l: Word, data: Bytes)
    ensures Remainder(l, data[..0]) == l
  {
  }

  lemma ZeroIsUnit(x: Word)
    ensures Word(0).Xor(x) == x
  {
  }

  method CombineStrides(t: Tables, crc0: Word, crc1: Word, crc2: Word, crc3: Word) returns (l: Word)
    requires t.Sound()
    ensures l == Combined(crc0, crc1, crc2, crc3)
  {
    hide Zeros, Word.Xor, Tables.Sound;
    ZeroIsUnit(crc0);
    l := Step4W(t, Word(0), crc0);
    l := Step4W(t, l, crc1);
    l := Step4W(t, l, crc2);
    l := Step4W(t, l, crc3);
  }

  // ---------------------------------------------------------------- masking

  function RotateRight(x: Word): Word {
    Word((x.bits >> 15) | (x.bits << 17))
  }

  function RotateLeft(x: Word): Word {
    Word((x.bits >> 17) | (x.bits << 15))
  }

  function PlusDelta(x: Word): Word {
    Word(x.bits + MASK_DELTA)
  }

  function MinusDelta(x: Word): Word {
    Word(x.bits - MASK_DELTA)
  }

  function Mask(crc: Word): Word {
    PlusDelta(RotateRight(crc))
  }

  function Unmask(masked: Word): Word {
    RotateLeft(MinusDelta(masked))
  }

  lemma RotationsCancel(x: Word)
    ensures RotateLeft(RotateRight(x)) == x && RotateRight(RotateLeft(x)) == x
  {
  }

  lemma DeltaCancels(x: Word)
    ensures MinusDelta(PlusDelta(x)) == x && PlusDelta(MinusDelta(x)) == x
  {
  }

  /** A masked checksum stands for exactly one checksum. */
  lemma UnmaskMask(crc: Word)
    ensures Unmask(Mask(crc)) == crc && Mask(Unmask(crc)) == crc
  {
    hide RotateLeft, RotateRight, PlusDelta, MinusDelta;
    RotationsCancel(crc);
    DeltaCancels(RotateRight(crc));
    RotationsCancel(MinusDelta(crc));
    DeltaCancels(crc);
  }
}
