/** Decoding messages. What the encoder wrote is read back field by field; what no field of the
  * table claims is skipped. */
module ProtoDecode {
  import opened ByteNumbers
  import opened Keys
  import opened Coding
  import opened ProtoFormat
  import opened ProtoEncode

  const MAX_REQUIRED_FIELDS: nat := 64

  // ---------------------------------------------------------------- the stream

  class IStream {
    /** What is left to read; a substream ends where its string does. */
    var left: Bytes

    constructor (left: Bytes)
      ensures this.left == left
    {
      this.left := left;
    }

    method ReadByte() returns (b: Option<Byte>)
      modifies this
      ensures if old(left) == [] then b == None && left == [] else b == Some(old(left)[0]) && left == old(left)[1..]
    {
      if left == [] {
        return None;
      }
      b := Some(left[0]);
      left := left[1..];
    }

    method Read(count: nat) returns (b: Option<Bytes>)
      modifies this
      ensures if |old(left)| < count then b == None && left == old(left) else b == Some(old(left)[..count]) && left == old(left)[count..]
    {
      if |left| < count {
        return None;
      }
      b := Some(left[..count]);
      left := left[count..];
    }
  }

  // ---------------------------------------------------------------- varints

  /** One group of a number that is being read: `value` so far, `rest` still to come. */
  ghost predicate Reading(left: Bytes, rest: Bytes, n: nat, value: nat, factor: nat, q: nat) {
    left == EncodeVarint(q) + rest && n == value + factor * q
  }

  lemma ReadGroup(left: Bytes, rest: Bytes, n: nat, value: nat, factor: nat, q: nat)
    requires Reading(left, rest, n, value, factor, q) && factor > 0
    ensures left != [] && (More(left[0]) <==> q >= 128) && Low7(left[0]) <= q
    ensures More(left[0]) ==> Reading(left[1..], rest, n, value + Low7(left[0]) * factor, factor * 128, q / 128)
    ensures !More(left[0]) ==> left[1..] == rest && n == value + Low7(left[0]) * factor
  {
    GroupRoundTrip(q);
    hide More, Low7, Continued, Final;
    if q >= 128 {
      assert EncodeVarint(q) == [Continued(q)] + EncodeVarint(q / 128);
      assert left[1..] == EncodeVarint(q / 128) + rest;
      assert factor * q == factor * (q % 128 + 128 * (q / 128));
      assert factor * (q % 128 + 128 * (q / 128)) == factor * (q % 128) + factor * 128 * (q / 128);
    } else {
      assert EncodeVarint(q) == [Final(q)];
      assert left[1..] == rest;
    }
  }

  /** Bits read so far, and what the next group counts. */
  ghost predicate Width(bitpos: nat, factor: nat, more: bool) {
    || (bitpos == 7 && factor == 0x80) || (bitpos == 14 && factor == 0x4000)
    || (bitpos == 21 && factor == 0x20_0000) || (bitpos == 28 && factor == 0x1000_0000)
    || (bitpos == 35 && factor == 0x8_0000_0000 && !more)
  }

  /** In the middle of a number that fits 32 bits. */
  ghost predicate Midway(left: Bytes, rest: Bytes, n: nat, bitpos: nat, factor: nat, result: nat, more: bool, last: Byte, q: nat) {
    && Width(bitpos, factor, more)
    && (if more then Reading(left, rest, n, result, factor, q) && q > 0 else left == rest && result == n)
    && (bitpos == 35 ==> Low7(last) < 16)
  }

  lemma NextGroup(left: Bytes, rest: Bytes, n: nat, bitpos: nat, factor: nat, result: nat, last: Byte, q: nat)
    requires n < LIMIT32 && Midway(left, rest, n, bitpos, factor, result, true, last, q)
    ensures left != [] && bitpos < 32
    ensures var b := left[0];
      Midway(left[1..], rest, n, bitpos + 7, factor * 128, (result + Low7(b) * factor) % LIMIT32, More(b), b, q / 128)
  {
    assert Width(bitpos, factor, true) && Reading(left, rest, n, result, factor, q) && factor > 0;
    assert n == result + factor * q;
    hide Low7, More, Reading, Width, EncodeVarint;
    ReadGroup(left, rest, n, result, factor, q);
    GroupFits(n, result, factor, q, bitpos, Low7(left[0]), More(left[0]));
    NoWrap(result + Low7(left[0]) * factor);
  }

  lemma NoWrap(x: nat)
    requires x < LIMIT32
    ensures x % LIMIT32 == x
  {
  }

  lemma GroupFits(n: nat, result: nat, factor: nat, q: nat, bitpos: nat, low: nat, more: bool)
    requires n < LIMIT32 && n == result + factor * q && q > 0 && Width(bitpos, factor, true)
    requires (more <==> q >= 128) && low <= q && (more || n == result + low * factor)
    ensures bitpos < 32 && (more ==> bitpos < 28) && (bitpos == 28 ==> low < 16)
    ensures result + low * factor < LIMIT32 && Width(bitpos + 7, factor * 128, more)
  {
    if bitpos == 7 {
      assert n == result + 0x80 * q;
    } else if bitpos == 14 {
      assert n == result + 0x4000 * q;
    } else if bitpos == 21 {
      assert n == result + 0x20_0000 * q;
    } else {
      assert n == result + 0x1000_0000 * q;
    }
  }

  lemma FirstGroup(left: Bytes, rest: Bytes, n: nat)
    requires left == EncodeVarint(n) + rest
    ensures left != []
    ensures !More(left[0]) ==> left[1..] == rest && Low7(left[0]) == n
    ensures More(left[0]) ==> Midway(left[1..], rest, n, 7, 128, Low7(left[0]), true, left[0], n / 128)
  {
    ReadGroup(left, rest, n, 0, 1, n);
  }

  /** A varint that must fit 32 bits; bits beyond are tolerated only as sign extension. */
  method DecodeVarint32(s: IStream, ghost n: nat, ghost rest: Bytes) returns (r: Option<nat>, eof: bool)
    modifies s
    ensures |s.left| <= |old(s.left)| && (r.Some? ==> |s.left| < |old(s.left)| && r.value < LIMIT32)
    ensures n < LIMIT32 && old(s.left) == EncodeVarint(n) + rest ==> r == Some(n) && s.left == rest && !eof
  {
    hide EncodeVarint, Midway, More;
    ghost var good, q: nat := n < LIMIT32 && s.left == EncodeVarint(n) + rest, n / 128;
    if good {
      FirstGroup(s.left, rest, n);
    }
    eof := false;
    var b := s.ReadByte();
    if b.None? {
      return None, true;
    }
    var last: Byte := b.value;
    if !More(last) {
      return Some(Low7(last)), eof;
    }
    var bitpos, factor: nat, result: nat := 7, 128, Low7(last);
    var more := true;
    while more
      invariant |s.left| < |old(s.left)| && result < LIMIT32
      invariant good ==> Midway(s.left, rest, n, bitpos, factor, result, more, last, q)
      decreases |s.left|, more
    {
      if good {
        NextGroup(s.left, rest, n, bitpos, factor, result, last, q);
      }
      b := s.ReadByte();
      if b.None? {
        return None, false;
      }
      last := b.value;
      if bitpos >= 32 {
        // trailing groups of a negative number
        var signExtension: Byte := if bitpos < 63 then 0xFF else 0x01;
        if Low7(last) != 0 && (result < 0x8000_0000 || last != signExtension) {
          return None, false;
        }
      } else {
        result := (result + Low7(last) * factor) % LIMIT32;
        factor := factor * 128;
      }
      bitpos := bitpos + 7;
      more := More(last);
      q := q / 128;
    }
    if good {
      LastGroup(s.left, rest, n, bitpos, factor, result, last, q);
    }
    if bitpos == 35 && Low7(last) >= 16 {
      // the fifth group has room for four bits
      return None, false;
    }
    return Some(result), false;
  }

  lemma LastGroup(left: Bytes, rest: Bytes, n: nat, bitpos: nat, factor: nat, result: nat, last: Byte, q: nat)
    requires Midway(left, rest, n, bitpos, factor, result, false, last, q)
    ensures left == rest && result == n && (bitpos == 35 ==> Low7(last) < 16)
  {
  }

  /** A varint of up to ten bytes; bits beyond the 64th fall away. */
  method DecodeVarint64(s: IStream, ghost n: nat, ghost rest: Bytes) returns (r: Option<nat>)
    modifies s
    ensures |s.left| <= |old(s.left)| && (r.Some? ==> |s.left| < |old(s.left)| && r.value < LIMIT64)
    ensures n < LIMIT64 && old(s.left) == EncodeVarint(n) + rest ==> r == Some(n) && s.left == rest
  {
    hide EncodeVarint, DecodeVarint, Power128;
    if n < LIMIT64 {
      TenGroups();
      VarintRoundTrip(n, rest, 10);
      assert (EncodeVarint(n) + rest)[|EncodeVarint(n)|..] == rest;
    }
    var v := GetVarint(s.left, 10);
    if v.None? {
      return None;
    }
    s.left := s.left[v.value.1..];
    r := Some(v.value.0 % LIMIT64);
  }

  // ---------------------------------------------------------------- tags, strings, skipping

  datatype Tag = Eof | NoTag | Tag(number: nat, wire: nat)

  method DecodeTag(s: IStream, ghost number: nat, ghost wire: nat, ghost rest: Bytes) returns (t: Tag)
    modifies s
    ensures |s.left| <= |old(s.left)| && (t.Tag? ==> |s.left| < |old(s.left)|)
    ensures 0 < number < LIMIT32 / 8 && wire < 8 && old(s.left) == TagBytes(number, wire) + rest ==> t == Tag(number, wire) && s.left == rest
  {
    hide EncodeVarint;
    var v, eof := DecodeVarint32(s, number * 8 + wire, rest);
    if v.None? {
      return if eof then Eof else NoTag;
    }
    if v.value == 0 {
      // messages may be ended by a zero
      return Eof;
    }
    t := Tag(v.value / 8, v.value % 8);
  }

  /** The contents of a string; the stream goes on behind it. */
  method ReadString(s: IStream, ghost b: Bytes, ghost rest: Bytes) returns (r: Option<Bytes>)
    modifies s
    ensures |s.left| <= |old(s.left)| && (r.Some? ==> |r.value| < |old(s.left)| && |s.left| < |old(s.left)|)
    ensures |b| < LIMIT32 && old(s.left) == Prefixed(b) + rest ==> r == Some(b) && s.left == rest
  {
    hide EncodeVarint;
    if |b| < LIMIT32 && s.left == Prefixed(b) + rest {
      assert s.left == EncodeVarint(|b|) + (b + rest);
      assert (b + rest)[..|b|] == b && (b + rest)[|b|..] == rest;
    }
    var size, eof := DecodeVarint32(s, |b|, b + rest);
    if size.None? {
      return None;
    }
    r := s.Read(size.value);
  }

  method SkipVarint(s: IStream) returns (ok: bool)
    modifies s
    ensures |s.left| <= |old(s.left)|
  {
    var more := true;
    while more
      invariant |s.left| <= |old(s.left)|
      decreases |s.left|, more
    {
      var b := s.ReadByte();
      if b.None? {
        return false;
      }
      more := More(b.value);
    }
    return true;
  }

  /** Skips a value nobody asked for. */
  method SkipField(s: IStream, wire: nat) returns (ok: bool)
    modifies s
    ensures |s.left| <= |old(s.left)|
  {
    if wire == VARINT {
      ok := SkipVarint(s);
    } else if wire == BITS64 {
      var b := s.Read(8);
      ok := b.Some?;
    } else if wire == STRING {
      var b := ReadString(s, [], []);
      ok := b.Some?;
    } else if wire == BITS32 {
      var b := s.Read(4);
      ok := b.Some?;
    } else {
      ok := false;
    }
  }

  // ---------------------------------------------------------------- what can be read back

  /** Nothing exceeds its storage, and lengths fit 32 bits. The encoder sees to the first. */
  ghost predicate Sized(form: Form, d: Datum)
    requires Typed(form, d)
    decreases d, 1
  {
    match form
    case ByteArray(max) => |d.bytes| <= max && |d.bytes| < LIMIT32
    case Text(_) => |d.bytes| < LIMIT32
    case FixedBytes(size) => size < LIMIT32
    case Submessage(fields) => |EncodeFrom(fields, d, 0)| < LIMIT32 && SizedAll(fields, d)
    case _ => true
  }

  ghost predicate SizedSlot(f: Field, s: Slot)
    requires TypedSlot(f, s)
    decreases s, 1
  {
    match s
    case Absent => true
    case One(d) => (f.presence.Singular? && IsZero(f.form, d)) || Sized(f.form, d)
    case Many(items) =>
      && (f.presence.Repeated? ==> |items| <= f.presence.max)
      && (f.form.Packable() ==> |PackedFrom(f, s, 0)| < LIMIT32)
      && forall i :: 0 <= i < |items| ==> Sized(f.form, items[i])
  }

  ghost predicate SizedAll(fields: seq<Field>, m: Datum)
    requires m.Message? && TypedAll(fields, m)
    decreases m, 0
  {
    forall i :: 0 <= i < |fields| ==> SizedSlot(fields[i], m.slots[i])
  }

  /** Every text, at every depth, leaves room for its terminator. The encoder does not look. */
  ghost predicate Terminated(form: Form, d: Datum)
    requires Typed(form, d)
    decreases d, 1
  {
    match form
    case Text(size) => |d.bytes| < size
    case Submessage(fields) => TerminatedAll(fields, d)
    case _ => true
  }

  ghost predicate TerminatedSlot(f: Field, s: Slot)
    requires TypedSlot(f, s)
    decreases s, 1
  {
    match s
    case Absent => true
    case One(d) => (f.presence.Singular? && IsZero(f.form, d)) || Terminated(f.form, d)
    case Many(items) => forall i :: 0 <= i < |items| ==> Terminated(f.form, items[i])
  }

  ghost predicate TerminatedAll(fields: seq<Field>, m: Datum)
    requires m.Message? && TypedAll(fields, m)
    decreases m, 0
  {
    forall i :: 0 <= i < |fields| ==> TerminatedSlot(fields[i], m.slots[i])
  }

  ghost predicate Comes(form: Form, d: Datum) {
    Typed(form, d) && Sized(form, d)
  }

  // ---------------------------------------------------------------- integers

  function AsSigned(v: nat, bits32: bool): int {
    if bits32 then
      var w := v % LIMIT32;
      if w >= 0x8000_0000 then w - LIMIT32 else w
    else if v >= 0x8000_0000_0000_0000 then v - LIMIT64 else v
  }

  function UnZigZag(v: nat): int {
    if v % 2 == 1 then -(v / 2) - 1 else v / 2
  }

  lemma SignedRoundTrip(n: int, size: nat)
    requires IntegerSize(size) && -(Half(size) as int) <= n < Half(size)
    ensures AsSigned(TwosComplement(n), size != 8) == n && TwosComplement(n) < LIMIT64
  {
  }

  lemma ZigZagRoundTrip(n: int)
    ensures UnZigZag(ZigZagged(n)) == n
  {
  }

  // ---------------------------------------------------------------- values

  /** An integer that must fit the field; larger ones are errors. */
  method DecodeInteger(s: IStream, form: Form, ghost d: Datum, ghost rest: Bytes) returns (ok: bool, r: Datum)
    requires form.Signed? || form.Unsigned? || form.ZigZag?
    requires FormOk(form)
    modifies s
    ensures |s.left| <= |old(s.left)| && (ok ==> |s.left| < |old(s.left)|)
    ensures Typed(form, d) && old(s.left) == EncodeDatum(form, d) + rest ==> ok && r == d && s.left == rest
  {
    hide EncodeVarint;
    ghost var n: nat := 0;
    if Typed(form, d) {
      n := if form.Signed? then TwosComplement(d.n) else if form.Unsigned? then d.n else ZigZagged(d.n);
      if form.Signed? {
        SignedRoundTrip(d.n, form.size);
      } else if form.ZigZag? {
        ZigZagRoundTrip(d.n);
      }
    }
    var v := DecodeVarint64(s, n, rest);
    if v.None? {
      return false, Number(0);
    }
    var size := form.size;
    var value: int := if form.Signed? then AsSigned(v.value, size != 8) else if form.Unsigned? then v.value else UnZigZag(v.value);
    ok := if form.Unsigned? then value < 2 * Half(size) else -(Half(size) as int) <= value < Half(size);
    r := Number(value);
  }

  /** A text must leave room for its terminator. */
  method DecodeText(s: IStream, size: nat, ghost b: Bytes, ghost rest: Bytes) returns (ok: bool, r: Datum)
    modifies s
    ensures |s.left| <= |old(s.left)| && (ok ==> |s.left| < |old(s.left)|)
    ensures |b| < LIMIT32 && old(s.left) == Prefixed(b) + rest ==> (ok <==> |b| < size) && (ok ==> r == Raw(b) && s.left == rest)
  {
    hide Prefixed;
    r := Raw([]);
    var text := ReadString(s, b, rest);
    ok := text.Some? && |text.value| + 1 <= size;
    if ok {
      r := Raw(text.value);
    }
  }

  method DecodeDatum(s: IStream, form: Form, cur: Datum, init: bool, ghost d: Datum, ghost rest: Bytes) returns (ok: bool, r: Datum)
    requires FormOk(form)
    modifies s
    ensures |s.left| <= |old(s.left)| && (ok ==> |s.left| < |old(s.left)|)
    ensures Comes(form, d) && old(s.left) == EncodeDatum(form, d) + rest && (init || cur == DefaultDatum(form))
      ==> (ok <==> Terminated(form, d)) && (ok ==> r == d && s.left == rest)
    decreases |s.left|, 1
  {
    hide EncodeVarint, EncodeLength, DecodeLength, EncodeFixed64, DecodeFixed64, EncodeFrom, Prefixed;
    ok, r := false, cur;
    match form {
      case Boolean =>
        var v, eof := DecodeVarint32(s, if Comes(form, d) then d.n else 0, rest);
        if v.Some? {
          ok, r := true, Number(if v.value != 0 then 1 else 0);
        }
      case Signed(_) => ok, r := DecodeInteger(s, form, d, rest);
      case Unsigned(_) => ok, r := DecodeInteger(s, form, d, rest);
      case ZigZag(_) => ok, r := DecodeInteger(s, form, d, rest);
      case Fixed32 =>
        ghost var word: Bytes := [];
        if Comes(form, d) {
          LengthRoundTrip(d.n);
          word := EncodeLength(d.n);
          assert (word + rest)[..4] == word && (word + rest)[4..] == rest;
        }
        var b := s.Read(4);
        if b.Some? {
          ok, r := true, Number(DecodeLength(b.value));
        }
      case Fixed64 =>
        ghost var word: Bytes := [];
        if Comes(form, d) {
          Fixed64RoundTrip(d.n);
          word := EncodeFixed64(d.n);
          assert (word + rest)[..8] == word && (word + rest)[8..] == rest;
        }
        var b := s.Read(8);
        if b.Some? {
          ok, r := true, Number(DecodeFixed64(b.value));
        }
      case ByteArray(max) =>
        var b := ReadString(s, if d.Raw? then d.bytes else [], rest);
        if b.Some? && |b.value| <= max {
          ok, r := true, Raw(b.value);
        }
      case Text(size) => ok, r := DecodeText(s, size, if d.Raw? then d.bytes else [], rest);
      case FixedBytes(size) =>
        var b := ReadString(s, if d.Raw? then d.bytes else [], rest);
        if b.Some? && b.value == [] {
          // an empty string stands for all zeros
          ok, r := true, Raw(Zeroes(size));
        } else if b.Some? && |b.value| == size {
          ok, r := true, Raw(b.value);
        }
      case Submessage(fields) =>
        ok, r := DecodeSubmessage(s, fields, cur, init, d, rest);
    }
  }

  /** A message in a string of its own; only an array's items start from defaults, others are
    * merged into what is there. */
  method DecodeSubmessage(s: IStream, fields: seq<Field>, cur: Datum, init: bool, ghost d: Datum, ghost rest: Bytes) returns (ok: bool, r: Datum)
    requires TableOk(fields)
    modifies s
    ensures |s.left| <= |old(s.left)| && (ok ==> |s.left| < |old(s.left)|)
    ensures Comes(Submessage(fields), d) && old(s.left) == EncodeDatum(Submessage(fields), d) + rest
        && (init || cur == DefaultDatum(Submessage(fields)))
      ==> (ok <==> TerminatedAll(fields, d)) && (ok ==> r == d && s.left == rest)
    decreases |s.left|, 0
  {
    hide Prefixed, EncodeFrom, FormOk;
    ghost var comes := Comes(Submessage(fields), d);
    var b := ReadString(s, if comes then EncodeFrom(fields, d, 0) else [], rest);
    if b.None? {
      return false, cur;
    }
    var substream := new IStream(b.value);
    var slots := if !init && cur.Message? && Shaped(fields, cur.slots) then cur.slots else Defaults(fields);
    DefaultsAreShaped(fields);
    ok, slots := DecodeNoInit(substream, fields, slots, d);
    r := Message(slots);
  }

  /** Arrays are there, if empty. */
  predicate Shaped(fields: seq<Field>, slots: seq<Slot>) {
    && |slots| == |fields|
    && forall i :: 0 <= i < |fields| && (fields[i].presence.Repeated? || fields[i].presence.FixedCount?) ==> slots[i].Many?
  }

  lemma DefaultsAreShaped(fields: seq<Field>)
    ensures Shaped(fields, Defaults(fields))
  {
  }

  // ---------------------------------------------------------------- fields

  /** A field with one value. */
  method DecodeSingle(s: IStream, f: Field, cur: Slot, ghost d: Datum, ghost rest: Bytes) returns (ok: bool, slot: Slot)
    requires FormOk(f.form)
    modifies s
    ensures |s.left| <= |old(s.left)| && (ok ==> |s.left| < |old(s.left)|) && slot.One?
    ensures Comes(f.form, d) && old(s.left) == EncodeDatum(f.form, d) + rest && (cur.Absent? || cur == One(DefaultDatum(f.form)))
      ==> (ok <==> Terminated(f.form, d)) && (ok ==> slot == One(d) && s.left == rest)
    decreases |s.left|, 2
  {
    hide EncodeDatum, Comes, FormOk;
    var r;
    ok, r := DecodeDatum(s, f.form, if cur.One? then cur.value else DefaultDatum(f.form), false, d, rest);
    slot := One(r);
  }

  /** One more item of an array, if there is room for it. */
  method DecodeItem(s: IStream, f: Field, cur: seq<Datum>, max: nat, ghost d: Datum, ghost rest: Bytes) returns (ok: bool, items: seq<Datum>)
    requires FormOk(f.form)
    modifies s
    ensures |s.left| <= |old(s.left)| && (ok ==> |s.left| < |old(s.left)|)
    ensures Comes(f.form, d) && old(s.left) == EncodeDatum(f.form, d) + rest
      ==> (ok <==> |cur| < max && Terminated(f.form, d)) && (ok ==> items == cur + [d] && s.left == rest)
    decreases |s.left|, 2, 0
  {
    hide EncodeDatum, Comes, FormOk;
    items := cur;
    if |cur| >= max {
      return false, items;
    }
    var r;
    ok, r := DecodeDatum(s, f.form, DefaultDatum(f.form), true, d, rest);
    items := cur + [r];
  }

  ghost predicate ItemsCome(f: Field, slot: Slot) {
    TypedItems(f, slot) && forall i :: 0 <= i < |slot.items| ==> Comes(f.form, slot.items[i])
  }

  lemma PackedStep(f: Field, slot: Slot, j: nat)
    requires ItemsCome(f, slot) && j < |slot.items|
    ensures Comes(f.form, slot.items[j])
    ensures PackedFrom(f, slot, j) == EncodeDatum(f.form, slot.items[j]) + PackedFrom(f, slot, j + 1)
    ensures f.form.Packable() ==> EncodeDatum(f.form, slot.items[j]) != []
  {
  }

  lemma NotAtEnd(f: Field, slot: Slot, j: nat)
    requires ItemsCome(f, slot) && j <= |slot.items| && PackedFrom(f, slot, j) != []
    ensures j < |slot.items|
  {
  }

  lemma AllTaken(f: Field, slot: Slot, j: nat)
    requires ItemsCome(f, slot) && f.form.Packable() && j <= |slot.items|
    ensures PackedFrom(f, slot, j) == [] <==> j == |slot.items|
    ensures j == |slot.items| ==> slot.items[..j] == slot.items
  {
    if j < |slot.items| {
      PackedStep(f, slot, j);
    }
  }

  /** All items of a packed array, as far as there is room; none may be left over. */
  method DecodePacked(s: IStream, f: Field, cur: seq<Datum>, max: nat, ghost slot: Slot, ghost rest: Bytes) returns (ok: bool, items: seq<Datum>)
    requires FormOk(f.form) && f.form.Packable()
    modifies s
    ensures |s.left| <= |old(s.left)| && (ok ==> |s.left| < |old(s.left)|)
    ensures ItemsCome(f, slot) && |PackedFrom(f, slot, 0)| < LIMIT32 && cur == [] && old(s.left) == Prefixed(PackedFrom(f, slot, 0)) + rest
      ==> (ok <==> |slot.items| <= max) && (ok ==> items == slot.items && s.left == rest)
    decreases |s.left|, 2, 0
  {
    hide EncodeDatum, Comes, FormOk, Prefixed, PackedFrom;
    ghost var good := ItemsCome(f, slot) && |PackedFrom(f, slot, 0)| < LIMIT32 && cur == [] && s.left == Prefixed(PackedFrom(f, slot, 0)) + rest;
    items := cur;
    var b := ReadString(s, if good then PackedFrom(f, slot, 0) else [], rest);
    if b.None? {
      return false, items;
    }
    var substream := new IStream(b.value);
    ok := true;
    ghost var j := 0;
    while ok && substream.left != [] && |items| < max
      invariant |substream.left| <= |b.value| && |s.left| < |old(s.left)|
      invariant good ==> ok && |items| <= max && j <= |slot.items| && items == slot.items[..j] && substream.left == PackedFrom(f, slot, j) && s.left == rest
      decreases |substream.left|, ok
    {
      if good {
        NotAtEnd(f, slot, j);
        PackedStep(f, slot, j);
      }
      var r;
      ok, r := DecodeDatum(substream, f.form, DefaultDatum(f.form), true, if good then slot.items[j] else Number(0),
        if good then PackedFrom(f, slot, j + 1) else []);
      if ok {
        items := items + [r];
        if good {
          assert slot.items[..j + 1] == slot.items[..j] + [slot.items[j]];
          j := j + 1;
        }
      }
    }
    if good {
      AllTaken(f, slot, j);
    }
    ok := ok && substream.left == [];
  }

  // ---------------------------------------------------------------- progress through a message

  predicate IsArray(f: Field) {
    f.presence.Repeated? || f.presence.FixedCount?
  }

  /** Arrays whose items come under tags of their own. */
  predicate InPieces(f: Field) {
    IsArray(f) && !f.form.Packable()
  }

  ghost predicate MessageComes(fields: seq<Field>, m: Datum) {
    m.Message? && |m.slots| == |fields| && TypedAll(fields, m) && SizedAll(fields, m)
  }

  /** `k` fields have been read, and `j` items of the next. */
  ghost predicate Standing(fields: seq<Field>, m: Datum, k: nat, j: nat) {
    && MessageComes(fields, m) && k <= |fields|
    && (j > 0 ==> k < |fields| && InPieces(fields[k]) && TypedItems(fields[k], m.slots[k]) && j < |m.slots[k].items|)
  }

  ghost function StillToCome(fields: seq<Field>, m: Datum, k: nat, j: nat): Bytes
    requires Standing(fields, m, k, j)
  {
    if j == 0 then EncodeFrom(fields, m, k)
    else ItemsFrom(fields[k], m.slots[k], j) + EncodeFrom(fields, m, k + 1)
  }

  ghost function ReadSoFar(fields: seq<Field>, m: Datum, k: nat, j: nat): (slots: seq<Slot>)
    requires Standing(fields, m, k, j)
    ensures |slots| == |fields|
  {
    seq(|fields|, i requires 0 <= i < |fields| =>
      if i < k then m.slots[i] else if i == k && j > 0 then Many(m.slots[k].items[..j]) else DefaultSlot(fields[i]))
  }

  lemma ItemsAreWritten(f: Field, s: Slot)
    requires TypedItems(f, s)
    ensures EncodeItems(f, s) == [] <==> s.items == []
  {
  }

  /** A field that was not written is the default, and not required. */
  lemma UnwrittenIsDefault(f: Field, s: Slot)
    requires TypedSlot(f, s) && EncodeSlot(f, s) == []
    ensures s == DefaultSlot(f) && !f.presence.Required? && TerminatedSlot(f, s)
  {
    if f.presence.Singular? && IsZero(f.form, s.value) {
      ZeroIsDefault(f.form, s.value);
    }
    if IsArray(f) {
      ItemsAreWritten(f, s);
    }
  }

  /** Fields that were not written are passed over. */
  lemma {:induction false} PassUnwritten(fields: seq<Field>, m: Datum, k: nat) returns (k': nat)
    requires Standing(fields, m, k, 0)
    ensures k <= k' <= |fields| && Standing(fields, m, k', 0)
    ensures EncodeFrom(fields, m, k') == EncodeFrom(fields, m, k) && ReadSoFar(fields, m, k', 0) == ReadSoFar(fields, m, k, 0)
    ensures k' < |fields| ==> EncodeSlot(fields[k'], m.slots[k']) != []
    ensures forall i :: k <= i < k' ==> !fields[i].presence.Required?
    ensures TerminatedUpTo(fields, m, k, 0) ==> TerminatedUpTo(fields, m, k', 0)
    decreases |fields| - k
  {
    hide EncodeSlot, TypedSlot, Sized, SizedSlot, TerminatedSlot;
    k' := k;
    if k < |fields| && EncodeSlot(fields[k], m.slots[k]) == [] {
      assert TypedSlot(fields[k], m.slots[k]);
      UnwrittenIsDefault(fields[k], m.slots[k]);
      assert EncodeFrom(fields, m, k) == EncodeFrom(fields, m, k + 1);
      k' := PassUnwritten(fields, m, k + 1);
      assert ReadSoFar(fields, m, k + 1, 0) == ReadSoFar(fields, m, k, 0);
    }
  }

  // ---------------------------------------------------------------- the next field

  function WireFor(f: Field): nat {
    if IsArray(f) && f.form.Packable() then STRING else f.form.Wire()
  }

  /** Something of field `k` is still to come. */
  ghost predicate Pending(fields: seq<Field>, m: Datum, k: nat, j: nat) {
    && Standing(fields, m, k, j) && k < |fields| && TypedSlot(fields[k], m.slots[k]) && SizedSlot(fields[k], m.slots[k])
    && (j == 0 ==> EncodeSlot(fields[k], m.slots[k]) != [])
  }

  /** Where reading the next piece leads. */
  ghost function NextField(fields: seq<Field>, m: Datum, k: nat, j: nat): nat
    requires Pending(fields, m, k, j)
  {
    if InPieces(fields[k]) && j + 1 < |m.slots[k].items| then k else k + 1
  }

  ghost function NextItem(fields: seq<Field>, m: Datum, k: nat, j: nat): nat
    requires Pending(fields, m, k, j)
  {
    if InPieces(fields[k]) && j + 1 < |m.slots[k].items| then j + 1 else 0
  }

  ghost function AfterPiece(fields: seq<Field>, m: Datum, k: nat, j: nat): Bytes
    requires Pending(fields, m, k, j)
  {
    StillToCome(fields, m, NextField(fields, m, k, j), NextItem(fields, m, k, j))
  }

  ghost function ReadAfterPiece(fields: seq<Field>, m: Datum, k: nat, j: nat): seq<Slot>
    requires Pending(fields, m, k, j)
  {
    ReadSoFar(fields, m, NextField(fields, m, k, j), NextItem(fields, m, k, j))
  }

  lemma PendingItem(fields: seq<Field>, m: Datum, k: nat, j: nat)
    requires Pending(fields, m, k, j)
    ensures m.Message? && k < |fields| == |m.slots| && (j > 0 ==> InPieces(fields[k]))
    ensures IsArray(fields[k]) ==> ItemsCome(fields[k], m.slots[k]) && j < |m.slots[k].items|
    ensures !IsArray(fields[k]) ==> j == 0 && m.slots[k].One? && Comes(fields[k].form, m.slots[k].value)
  {
    hide EncodeDatum, FieldTag, TagBytes, TypedAll, SizedAll;
    if IsArray(fields[k]) {
      ItemsAreWritten(fields[k], m.slots[k]);
    }
  }

  /** The piece without its tag. */
  ghost function Piece(fields: seq<Field>, m: Datum, k: nat, j: nat): Bytes
    requires Pending(fields, m, k, j)
  {
    PendingItem(fields, m, k, j);
    var f, slot := fields[k], m.slots[k];
    if !IsArray(f) then EncodeDatum(f.form, slot.value)
    else if f.form.Packable() then Prefixed(PackedFrom(f, slot, 0))
    else EncodeDatum(f.form, slot.items[j])
  }

  /** The texts in the piece leave room for their terminators. */
  ghost predicate PieceTerminated(fields: seq<Field>, m: Datum, k: nat, j: nat)
    requires Pending(fields, m, k, j)
  {
    PendingItem(fields, m, k, j);
    var f, slot := fields[k], m.slots[k];
    if !IsArray(f) then Terminated(f.form, slot.value) else ElementTerminated(f, slot, j)
  }

  /** Everything before item `j` of field `k` does. */
  ghost predicate TerminatedUpTo(fields: seq<Field>, m: Datum, k: nat, j: nat)
    requires Standing(fields, m, k, j)
  {
    && (forall i :: 0 <= i < k ==> TypedSlot(fields[i], m.slots[i]) && TerminatedSlot(fields[i], m.slots[i]))
    && (j > 0 ==> forall x :: 0 <= x < j ==> Terminated(fields[k].form, m.slots[k].items[x]))
  }

  /** A tag, a piece, and the rest. */
  lemma TagThenPiece(fields: seq<Field>, m: Datum, k: nat, j: nat)
    requires Pending(fields, m, k, j)
    ensures StillToCome(fields, m, k, j)
      == TagBytes(fields[k].tag, WireFor(fields[k])) + (Piece(fields, m, k, j) + AfterPiece(fields, m, k, j))
  {
    hide EncodeDatum, TagBytes, TypedAll, SizedAll, Prefixed, PackedFrom, EncodeFrom, Comes, ItemsCome;
    PendingItem(fields, m, k, j);
    var f, slot, more := fields[k], m.slots[k], EncodeFrom(fields, m, k + 1);
    FieldThenRest(fields, m, k);
    if InPieces(f) {
      ItemThenRest(f, slot, j);
    }
  }

  lemma FieldThenRest(fields: seq<Field>, m: Datum, k: nat)
    requires m.Message? && TypedAll(fields, m) && k < |fields|
    ensures TypedSlot(fields[k], m.slots[k])
    ensures EncodeFrom(fields, m, k) == EncodeSlot(fields[k], m.slots[k]) + EncodeFrom(fields, m, k + 1)
  {
  }

  lemma ItemThenRest(f: Field, slot: Slot, j: nat)
    requires TypedItems(f, slot) && j < |slot.items|
    ensures ItemsFrom(f, slot, j) == FieldTag(f) + EncodeDatum(f.form, slot.items[j]) + ItemsFrom(f, slot, j + 1)
    ensures ItemsFrom(f, slot, |slot.items|) == []
  {
  }

  /** The slot of field `k` before and after the piece. */
  lemma PieceFillsSlot(fields: seq<Field>, m: Datum, k: nat, j: nat)
    requires Pending(fields, m, k, j)
    ensures IsArray(fields[k]) ==> m.slots[k].Many? && j < |m.slots[k].items|
    ensures ReadSoFar(fields, m, k, j)[k] == if j == 0 then DefaultSlot(fields[k]) else Many(m.slots[k].items[..j])
    ensures ReadAfterPiece(fields, m, k, j) == ReadSoFar(fields, m, k, j)[k :=
      if InPieces(fields[k]) then Many(m.slots[k].items[..j + 1]) else m.slots[k]]
    ensures fields[k].presence.OneOf? ==>
      ReadAfterPiece(fields, m, k, j) == Chosen(fields, k, ReadSoFar(fields, m, k, j), m.slots[k])
  {
    hide EncodeDatum, TagBytes, Prefixed, PackedFrom, EncodeFrom, Comes, ItemsCome, EncodeSlot, DefaultDatum, SizedAll, Sized;
    PendingItem(fields, m, k, j);
    var slot := m.slots[k];
    if InPieces(fields[k]) && j + 1 == |slot.items| {
      assert slot.items[..j + 1] == slot.items;
    }
    if fields[k].presence.OneOf? {
      OthersAreAbsent(fields, m, k);
    }
  }

  /** Of a union only the member that comes is there. */
  lemma OthersAreAbsent(fields: seq<Field>, m: Datum, k: nat)
    requires m.Message? && TypedAll(fields, m) && k < |fields| && m.slots[k].One?
    ensures forall i :: 0 <= i < |fields| && i != k && SameUnion(fields[i], fields[k]) ==> m.slots[i].Absent? && DefaultSlot(fields[i]).Absent?
  {
  }

  /** One member of a union displaces the others. */
  function Chosen(fields: seq<Field>, i: nat, slots: seq<Slot>, slot: Slot): (r: seq<Slot>)
    requires i < |fields| == |slots|
    ensures |r| == |slots|
  {
    seq(|slots|, x requires 0 <= x < |slots| =>
      if x == i then slot else if SameUnion(fields[x], fields[i]) then Absent else slots[x])
  }

  method DecodeField(s: IStream, wire: nat, fields: seq<Field>, i: nat, dest0: seq<Slot>, ghost m: Datum, ghost k: nat, ghost j: nat)
    returns (ok: bool, dest: seq<Slot>)
    requires TableOk(fields) && i < |fields| && Shaped(fields, dest0)
    modifies s
    ensures |s.left| <= |old(s.left)| && Shaped(fields, dest)
    ensures Pending(fields, m, k, j) && i == k && wire == WireFor(fields[k]) && dest0 == ReadSoFar(fields, m, k, j)
        && old(s.left) == Piece(fields, m, k, j) + AfterPiece(fields, m, k, j)
      ==> (ok <==> PieceTerminated(fields, m, k, j)) && (ok ==> s.left == AfterPiece(fields, m, k, j) && dest == ReadAfterPiece(fields, m, k, j))
    decreases |s.left|, 3
  {
    hide EncodeDatum, Comes, Prefixed, PackedFrom, AfterPiece, ReadAfterPiece, ReadSoFar, Standing, Chosen, DefaultDatum;
    ghost var good := Pending(fields, m, k, j) && i == k && wire == WireFor(fields[k]) && dest0 == ReadSoFar(fields, m, k, j)
      && s.left == Piece(fields, m, k, j) + AfterPiece(fields, m, k, j);
    ghost var rest: Bytes := [];
    if good {
      PendingItem(fields, m, k, j);
      PieceFillsSlot(fields, m, k, j);
      rest := AfterPiece(fields, m, k, j);
    }
    var f := fields[i];
    if IsArray(f) {
      ok, dest := DecodeElements(s, wire, f, i, dest0, if good then m.slots[k] else Absent, j, rest);
    } else {
      var slot;
      ok, slot := DecodeSingle(s, f, dest0[i], if good then m.slots[k].value else Number(0), rest);
      dest := if f.presence.OneOf? then Chosen(fields, i, dest0, slot) else dest0[i := slot];
      ChosenIsShaped(fields, i, dest0, slot);
    }
  }

  lemma ChosenIsShaped(fields: seq<Field>, i: nat, slots: seq<Slot>, slot: Slot)
    requires i < |fields| && Shaped(fields, slots) && !IsArray(fields[i])
    ensures Shaped(fields, Chosen(fields, i, slots, slot)) && Shaped(fields, slots[i := slot])
  {
  }

  ghost predicate ElementTerminated(f: Field, slot: Slot, j: nat)
    requires ItemsCome(f, slot) && j < |slot.items|
  {
    f.form.Packable() || Terminated(f.form, slot.items[j])
  }

  /** The items there are once the next piece has been read. */
  function Elements(f: Field, slot: Slot, j: nat): Slot
    requires slot.Many? && j < |slot.items|
  {
    if f.form.Packable() then slot else Many(slot.items[..j + 1])
  }

  /** Items for an array: a packed string of them, or one. */
  method DecodeElements(s: IStream, wire: nat, f: Field, i: nat, dest0: seq<Slot>, ghost slot: Slot, ghost j: nat, ghost rest: Bytes)
    returns (ok: bool, dest: seq<Slot>)
    requires FormOk(f.form) && IsArray(f) && i < |dest0| && dest0[i].Many?
    modifies s
    ensures |s.left| <= |old(s.left)| && |dest| == |dest0| && dest[i].Many? && dest == dest0[i := dest[i]]
    ensures ItemsCome(f, slot) && TypedSlot(f, slot) && SizedSlot(f, slot) && j < |slot.items| && wire == WireFor(f)
        && dest0[i].items == (if f.form.Packable() then [] else slot.items[..j])
        && old(s.left) == (if f.form.Packable() then Prefixed(PackedFrom(f, slot, 0)) else EncodeDatum(f.form, slot.items[j])) + rest
      ==> (ok <==> ElementTerminated(f, slot, j)) && (ok ==> s.left == rest && dest[i] == Elements(f, slot, j))
    decreases |s.left|, 2, 1
  {
    hide EncodeDatum, Prefixed, PackedFrom, FormOk;
    var max := if f.presence.Repeated? then f.presence.max else f.presence.count;
    var items;
    if wire == STRING && f.form.Packable() {
      ok, items := DecodePacked(s, f, dest0[i].items, max, slot, rest);
    } else {
      ghost var come := ItemsCome(f, slot) && j < |slot.items|;
      if come {
        assert slot.items[..j + 1] == slot.items[..j] + [slot.items[j]];
      }
      ok, items := DecodeItem(s, f, dest0[i].items, max, if come then slot.items[j] else Number(0), rest);
    }
    dest := dest0[i := Many(items)];
  }

  // ---------------------------------------------------------------- messages

  /** The field with this tag, looked for from `pos` on and then from the start; none is |fields|. */
  method Find(fields: seq<Field>, pos: nat, tag: nat) returns (i: nat)
    requires pos <= |fields|
    ensures i <= |fields| && (i < |fields| ==> fields[i].tag == tag)
    ensures i == |fields| ==> forall x :: 0 <= x < |fields| ==> fields[x].tag != tag
  {
    i := pos;
    while i < |fields| && fields[i].tag != tag
      invariant pos <= i <= |fields|
      invariant forall x :: pos <= x < i ==> fields[x].tag != tag
    {
      i := i + 1;
    }
    if i < |fields| {
      return;
    }
    i := 0;
    while i < pos && fields[i].tag != tag
      invariant i <= pos
      invariant forall x :: 0 <= x < i ==> fields[x].tag != tag
    {
      i := i + 1;
    }
    if i == pos {
      i := |fields|;
    }
  }

  lemma TagIsUnique(fields: seq<Field>, i: nat, k: nat)
    requires TableOk(fields) && i < |fields| && k < |fields| && fields[i].tag == fields[k].tag
    ensures i == k
  {
  }

  /** How many required fields come before field `i`. */
  function RequiredBefore(fields: seq<Field>, i: nat): nat
    requires i <= |fields|
  {
    if i == 0 then 0 else RequiredBefore(fields, i - 1) + (if fields[i - 1].presence.Required? then 1 else 0)
  }

  /** The required fields before `k` have been seen, as far as they are kept track of. */
  ghost predicate SeenUpTo(fields: seq<Field>, seen: set<nat>, k: nat)
    requires k <= |fields|
  {
    forall r :: 0 <= r < RequiredBefore(fields, k) && r < MAX_REQUIRED_FIELDS ==> r in seen
  }

  lemma SeenOneMore(fields: seq<Field>, seen: set<nat>, k: nat)
    requires k < |fields| && SeenUpTo(fields, seen, k)
    ensures SeenUpTo(fields, Noted(fields, seen, k), k + 1)
  {
  }

  lemma {:induction false} SeenPassing(fields: seq<Field>, seen: set<nat>, k: nat, k': nat)
    requires k <= k' <= |fields| && SeenUpTo(fields, seen, k) && forall i :: k <= i < k' ==> !fields[i].presence.Required?
    ensures SeenUpTo(fields, seen, k')
    decreases k' - k
  {
    if k < k' {
      SeenOneMore(fields, seen, k);
      SeenPassing(fields, seen, k + 1, k');
    }
  }

  /** Have all required fields been seen, as far as they are kept track of? */
  predicate AllSeen(fields: seq<Field>, seen: set<nat>) {
    forall r :: 0 <= r < (if RequiredBefore(fields, |fields|) < MAX_REQUIRED_FIELDS then RequiredBefore(fields, |fields|) else MAX_REQUIRED_FIELDS)
      ==> r in seen
  }

  predicate Full(fields: seq<Field>, slots: seq<Slot>, fixed: Option<nat>)
    requires |slots| == |fields|
  {
    fixed.None? || (fixed.value < |fields| && fields[fixed.value].presence.FixedCount? && slots[fixed.value].Many?
                    && |slots[fixed.value].items| == fields[fixed.value].presence.count)
  }

  /** The array of fixed length being filled is the one just read, or a full one before it. */
  ghost predicate FixedInStep(fields: seq<Field>, slots: seq<Slot>, fixed: Option<nat>, k: nat, j: nat)
    requires |slots| == |fields|
  {
    && (fixed.Some? ==> fixed.value < |fields| && fields[fixed.value].presence.FixedCount? && (fixed.value < k || (fixed.value == k && j > 0)))
    && (fixed.Some? && fixed.value < k ==> Full(fields, slots, fixed))
    && (j > 0 && k < |fields| && fields[k].presence.FixedCount? ==> fixed == Some(k))
  }

  lemma AtTheStart(fields: seq<Field>, m: Datum)
    requires MessageComes(fields, m)
    ensures Standing(fields, m, 0, 0) && StillToCome(fields, m, 0, 0) == EncodeFrom(fields, m, 0)
    ensures ReadSoFar(fields, m, 0, 0) == Defaults(fields) && SeenUpTo(fields, {}, 0)
  {
  }

  lemma TagsFit(fields: seq<Field>, k: nat)
    requires TableOk(fields) && k < |fields|
    ensures 0 < fields[k].tag < LIMIT32 / 8 && WireFor(fields[k]) < 8
  {
  }

  /** What is still to come begins with a field that was written. */
  lemma PassToPending(fields: seq<Field>, m: Datum, k: nat, j: nat, seen: set<nat>, dest: seq<Slot>, fixed: Option<nat>) returns (k': nat)
    requires Standing(fields, m, k, j) && StillToCome(fields, m, k, j) != [] && dest == ReadSoFar(fields, m, k, j)
    requires SeenUpTo(fields, seen, k) && FixedInStep(fields, dest, fixed, k, j)
    ensures k' < |fields| && Pending(fields, m, k', j) && StillToCome(fields, m, k', j) == StillToCome(fields, m, k, j)
    ensures dest == ReadSoFar(fields, m, k', j) && SeenUpTo(fields, seen, k') && FixedInStep(fields, dest, fixed, k', j)
    ensures TerminatedUpTo(fields, m, k, j) ==> TerminatedUpTo(fields, m, k', j)
  {
    hide EncodeSlot, TypedSlot, SizedSlot, Sized, ReadSoFar, SeenUpTo;
    k' := k;
    if j == 0 {
      k' := PassUnwritten(fields, m, k);
      SeenPassing(fields, seen, k, k');
    }
    if k' < |fields| {
      assert TypedSlot(fields[k'], m.slots[k']) && SizedSlot(fields[k'], m.slots[k']);
    }
  }

  /** Required fields seen once field `k` has been met. */
  function Noted(fields: seq<Field>, seen: set<nat>, k: nat): set<nat>
    requires k < |fields|
  {
    if fields[k].presence.Required? && RequiredBefore(fields, k) < MAX_REQUIRED_FIELDS then seen + {RequiredBefore(fields, k)} else seen
  }

  lemma PieceDone(fields: seq<Field>, m: Datum, k: nat, j: nat, seen: set<nat>, fixed: Option<nat>)
    requires Pending(fields, m, k, j) && SeenUpTo(fields, seen, k) && FixedInStep(fields, ReadSoFar(fields, m, k, j), fixed, k, j)
    ensures var k', j', slots := NextField(fields, m, k, j), NextItem(fields, m, k, j), ReadAfterPiece(fields, m, k, j);
      && Standing(fields, m, k', j') && AfterPiece(fields, m, k, j) == StillToCome(fields, m, k', j') && slots == ReadSoFar(fields, m, k', j')
      && SeenUpTo(fields, Noted(fields, seen, k), k')
      && FixedInStep(fields, slots, if fields[k].presence.FixedCount? then Some(k) else fixed, k', j')
  {
    hide EncodeDatum, EncodeSlot, Sized, ReadSoFar, StillToCome, TagBytes, Comes, Standing;
    PendingItem(fields, m, k, j);
    PieceFillsSlot(fields, m, k, j);
    assert Standing(fields, m, NextField(fields, m, k, j), NextItem(fields, m, k, j)) by { StandsAfter(fields, m, k, j); }
    SeenOneMore(fields, seen, k);
    SeenMore(fields, seen, k);
  }

  /** A piece with a text that fills its storage is in a message with one; otherwise go on. */
  lemma TerminatedOnward(fields: seq<Field>, m: Datum, k: nat, j: nat)
    requires Pending(fields, m, k, j) && TerminatedUpTo(fields, m, k, j)
    ensures !PieceTerminated(fields, m, k, j) ==> !TerminatedAll(fields, m)
    ensures Standing(fields, m, NextField(fields, m, k, j), NextItem(fields, m, k, j))
    ensures PieceTerminated(fields, m, k, j) ==> TerminatedUpTo(fields, m, NextField(fields, m, k, j), NextItem(fields, m, k, j))
  {
    hide EncodeDatum, Sized, SizedSlot, EncodeFrom;
    PendingItem(fields, m, k, j);
    StandsAfter(fields, m, k, j);
    WrittenIsNotZero(fields[k], m.slots[k], j);
    if !PieceTerminated(fields, m, k, j) {
      assert !TerminatedSlot(fields[k], m.slots[k]);
    } else if NextField(fields, m, k, j) == k + 1 {
      LastPieceTerminated(fields[k], m.slots[k], j);
    }
  }

  lemma LastPieceTerminated(f: Field, s: Slot, j: nat)
    requires TypedSlot(f, s) && (if IsArray(f) then ItemsCome(f, s) && j < |s.items| && ElementTerminated(f, s, j) else s.One? && Terminated(f.form, s.value))
    requires InPieces(f) ==> j + 1 == |s.items| && forall x :: 0 <= x < j ==> Terminated(f.form, s.items[x])
    ensures TerminatedSlot(f, s)
  {
    if IsArray(f) {
      forall x | 0 <= x < |s.items| ensures Terminated(f.form, s.items[x]) {
        assert x == j || x < j || f.form.Packable();
      }
    }
  }

  lemma WrittenIsNotZero(f: Field, s: Slot, j: nat)
    requires TypedSlot(f, s) && (j == 0 ==> EncodeSlot(f, s) != [])
    ensures j == 0 && f.presence.Singular? ==> !IsZero(f.form, s.value)
  {
  }

  lemma StandsAfter(fields: seq<Field>, m: Datum, k: nat, j: nat)
    requires Pending(fields, m, k, j)
    ensures Standing(fields, m, NextField(fields, m, k, j), NextItem(fields, m, k, j))
  {
    PendingItem(fields, m, k, j);
  }

  lemma SeenMore(fields: seq<Field>, seen: set<nat>, k: nat)
    requires k < |fields| && SeenUpTo(fields, seen, k)
    ensures SeenUpTo(fields, Noted(fields, seen, k), k)
  {
  }

  lemma AtTheEnd(fields: seq<Field>, m: Datum, k: nat, j: nat, seen: set<nat>, fixed: Option<nat>)
    requires Standing(fields, m, k, j) && StillToCome(fields, m, k, j) == [] && SeenUpTo(fields, seen, k)
    requires FixedInStep(fields, ReadSoFar(fields, m, k, j), fixed, k, j)
    ensures ReadSoFar(fields, m, k, j) == m.slots && AllSeen(fields, seen) && Full(fields, m.slots, fixed)
    ensures TerminatedUpTo(fields, m, k, j) ==> TerminatedAll(fields, m)
  {
    hide EncodeDatum, EncodeSlot, TypedSlot, Sized, SizedSlot, TerminatedSlot;
    if j == 0 {
      var k' := PassUnwritten(fields, m, k);
      if k' == |fields| {
        SeenPassing(fields, seen, k, k');
        assert ReadSoFar(fields, m, k', 0) == m.slots;
      }
    }
  }

  /** Reads fields until the stream ends: unknown ones are skipped, arrays of fixed length must
    * be complete, required fields must have come. What was encoded is read back if and only if
    * every text in it leaves room for its terminator. */
  method DecodeNoInit(s: IStream, fields: seq<Field>, dest0: seq<Slot>, ghost m: Datum) returns (ok: bool, dest: seq<Slot>)
    requires TableOk(fields) && Shaped(fields, dest0)
    modifies s
    ensures |s.left| <= |old(s.left)| && Shaped(fields, dest)
    ensures MessageComes(fields, m) && old(s.left) == EncodeFrom(fields, m, 0) && dest0 == Defaults(fields)
      ==> (ok <==> TerminatedAll(fields, m)) && (ok ==> dest == m.slots && s.left == [])
    decreases |s.left|, 4
  {
    hide EncodeFrom, ReadSoFar, StillToCome, Pending, Standing, Piece, AfterPiece, ReadAfterPiece, TypedAll, SizedAll, SeenUpTo, TagBytes, FormOk, AllSeen;
    ghost var good := MessageComes(fields, m) && s.left == EncodeFrom(fields, m, 0) && dest0 == Defaults(fields);
    dest := dest0;
    var pos: nat := 0;
    var fixed: Option<nat> := None;
    var seen: set<nat> := {};
    ghost var k: nat, j: nat := 0, 0;
    if good {
      AtTheStart(fields, m);
    }
    while s.left != []
      invariant |s.left| <= |old(s.left)| && Shaped(fields, dest) && pos <= |fields|
      invariant good ==> Standing(fields, m, k, j) && s.left == StillToCome(fields, m, k, j) && dest == ReadSoFar(fields, m, k, j)
      invariant good ==> k <= |fields| && SeenUpTo(fields, seen, k) && FixedInStep(fields, dest, fixed, k, j)
      invariant good ==> TerminatedUpTo(fields, m, k, j)
      decreases |s.left|
    {
      ghost var rest: Bytes := [];
      if good {
        k := PassToPending(fields, m, k, j, seen, dest, fixed);
        TagThenPiece(fields, m, k, j);
        TagsFit(fields, k);
        rest := Piece(fields, m, k, j) + AfterPiece(fields, m, k, j);
      }
      var tag := DecodeTag(s, if good then fields[k].tag else 0, if good then WireFor(fields[k]) else 0, rest);
      if tag.Eof? {
        break;
      }
      if tag.NoTag? {
        return false, dest;
      }
      var i := Find(fields, pos, tag.number);
      if i == |fields| {
        var skipped := SkipField(s, tag.wire);
        if !skipped {
          return false, dest;
        }
        continue;
      }
      if good {
        TagIsUnique(fields, i, k);
        PendingItem(fields, m, k, j);
        PieceFillsSlot(fields, m, k, j);
      }
      ghost var seenBefore, fixedBefore := seen, fixed;
      pos := i;
      if fields[i].presence.FixedCount? && fixed != Some(i) {
        if !Full(fields, dest, fixed) {
          return false, dest;
        }
        fixed := Some(i);
        dest := dest[i := Many([])];
      }
      seen := Noted(fields, seen, i);
      ok, dest := DecodeField(s, tag.wire, fields, i, dest, m, k, j);
      if good {
        TerminatedOnward(fields, m, k, j);
      }
      if !ok {
        return false, dest;
      }
      if good {
        PieceDone(fields, m, k, j, seenBefore, fixedBefore);
        k, j := NextField(fields, m, k, j), NextItem(fields, m, k, j);
      }
    }
    if good {
      AtTheEnd(fields, m, k, j, seen, fixed);
    }
    ok := Full(fields, dest, fixed) && AllSeen(fields, seen);
  }

  method Decode(s: IStream, fields: seq<Field>, ghost m: Datum) returns (ok: bool, slots: seq<Slot>)
    requires TableOk(fields)
    modifies s
    ensures |s.left| <= |old(s.left)|
    ensures MessageComes(fields, m) && old(s.left) == EncodeFrom(fields, m, 0)
      ==> (ok <==> TerminatedAll(fields, m)) && (ok ==> slots == m.slots && s.left == [])
  {
    hide EncodeFrom, MessageComes;
    DefaultsAreShaped(fields);
    ok, slots := DecodeNoInit(s, fields, Defaults(fields), m);
  }

  // ---------------------------------------------------------------- both ways

  /** What fits 32 bits as a whole has no part that does not. */
  lemma {:induction false} ShortIsSized(form: Form, d: Datum)
    requires Typed(form, d) && Encodable(form, d) && |EncodeDatum(form, d)| < LIMIT32
    ensures Sized(form, d)
    decreases d, 1
  {
    if form.Submessage? {
      ShortMessageIsSized(form.fields, d);
    }
  }

  lemma {:induction false} ShortMessageIsSized(fields: seq<Field>, m: Datum)
    requires m.Message? && TypedAll(fields, m) && EncodableAll(fields, m) && |EncodeFrom(fields, m, 0)| < LIMIT32
    ensures SizedAll(fields, m)
    decreases m, 0
  {
    forall i | 0 <= i < |fields| ensures SizedSlot(fields[i], m.slots[i]) {
      assert TypedSlot(fields[i], m.slots[i]) && EncodableSlot(fields[i], m.slots[i]);
      SlotIsShorter(fields, m, 0, i);
      ShortSlotIsSized(fields[i], m.slots[i]);
    }
  }

  lemma {:induction false} SlotIsShorter(fields: seq<Field>, m: Datum, k: nat, i: nat)
    requires m.Message? && TypedAll(fields, m) && k <= i < |fields|
    ensures TypedSlot(fields[i], m.slots[i]) && |EncodeSlot(fields[i], m.slots[i])| <= |EncodeFrom(fields, m, k)|
    decreases i - k
  {
    FieldThenRest(fields, m, k);
    if k < i {
      SlotIsShorter(fields, m, k + 1, i);
    }
  }

  lemma {:induction false} ShortSlotIsSized(f: Field, s: Slot)
    requires TypedSlot(f, s) && EncodableSlot(f, s) && |EncodeSlot(f, s)| < LIMIT32
    ensures SizedSlot(f, s)
    decreases s, 1
  {
    hide EncodeDatum, Encodable, Sized, Typed, TagBytes, IsZero;
    match s
    case Absent =>
    case One(d) =>
      if !(f.presence.Singular? && IsZero(f.form, d)) {
        ShortIsSized(f.form, d);
      }
    case Many(items) =>
      if f.form.Packable() {
        PackedIsShorter(f, s);
      }
      forall i | 0 <= i < |items| ensures Sized(f.form, items[i]) {
        if f.form.Packable() {
          PackedItemIsShorter(f, s, 0, i);
        } else {
          ItemIsShorter(f, s, 0, i);
        }
        ShortIsSized(f.form, items[i]);
      }
  }

  lemma PackedIsShorter(f: Field, s: Slot)
    requires TypedItems(f, s) && f.form.Packable() && |EncodeItems(f, s)| < LIMIT32
    ensures |PackedFrom(f, s, 0)| < LIMIT32
  {
    hide EncodeDatum, TagBytes;
  }

  lemma {:induction false} PackedItemIsShorter(f: Field, s: Slot, j: nat, i: nat)
    requires TypedItems(f, s) && j <= i < |s.items|
    ensures |EncodeDatum(f.form, s.items[i])| <= |PackedFrom(f, s, j)|
    decreases i - j
  {
    hide EncodeDatum;
    if j < i {
      PackedItemIsShorter(f, s, j + 1, i);
    }
  }

  lemma {:induction false} ItemIsShorter(f: Field, s: Slot, j: nat, i: nat)
    requires TypedItems(f, s) && j <= i < |s.items|
    ensures |EncodeDatum(f.form, s.items[i])| <= |ItemsFrom(f, s, j)|
    decreases i - j
  {
    hide EncodeDatum;
    ItemThenRest(f, s, j);
    if j < i {
      ItemIsShorter(f, s, j + 1, i);
    }
  }

  /** Everything fits, and every text leaves room for its terminator. */
  ghost predicate ReadableAll(fields: seq<Field>, m: Datum)
    requires m.Message? && TypedAll(fields, m)
  {
    SizedAll(fields, m) && TerminatedAll(fields, m)
  }

  /** Encoding into a buffer and decoding what is in it gives the message back if and only if every
    * text in it leaves room for its terminator; otherwise decoding fails. */
  method EncodeAndDecode(fields: seq<Field>, m: Datum, bufferSize: nat) returns (encoded: bool, decoded: bool, slots: seq<Slot>)
    requires m.Message? && TypedAll(fields, m) && TableOk(fields)
    ensures encoded <==> EncodableAll(fields, m) && |EncodeFrom(fields, m, 0)| <= bufferSize
    ensures encoded && |EncodeFrom(fields, m, 0)| < LIMIT32 ==> (decoded <==> TerminatedAll(fields, m)) && (decoded ==> slots == m.slots)
    ensures encoded && SizedAll(fields, m) ==> (decoded <==> TerminatedAll(fields, m)) && (decoded ==> slots == m.slots)
    ensures encoded && ReadableAll(fields, m) ==> decoded && slots == m.slots
  {
    hide EncodableAll, EncodeFrom, FormOk, SizedAll, TerminatedAll;
    var o := new OStream(true, bufferSize);
    encoded := Encode(o, fields, m);
    decoded, slots := false, [];
    if encoded {
      if |EncodeFrom(fields, m, 0)| < LIMIT32 {
        ShortMessageIsSized(fields, m);
      }
      var s := new IStream(o.out);
      decoded, slots := Decode(s, fields, m);
    }
  }

  // ---------------------------------------------------------------- a message that is lost

  function TextTable(size: nat): seq<Field> {
    [Field(1, Required, Text(size))]
  }

  function TextMessage(b: Bytes): Datum {
    Message([One(Raw(b))])
  }

  lemma TextIsWritten(b: Bytes)
    requires 0 !in b
    ensures TypedAll(TextTable(|b|), TextMessage(b)) && TableOk(TextTable(|b|)) && EncodableAll(TextTable(|b|), TextMessage(b))
    ensures EncodeFrom(TextTable(|b|), TextMessage(b), 0) == TagBytes(1, STRING) + Prefixed(b)
    ensures !TerminatedAll(TextTable(|b|), TextMessage(b))
  {
    hide TagBytes, Prefixed;
    var fields, m := TextTable(|b|), TextMessage(b);
    assert Typed(Text(|b|), Raw(b));
    assert TypedSlot(fields[0], m.slots[0]);
    assert FormOk(fields[0].form) && EncodableSlot(fields[0], m.slots[0]);
    assert EncodeDatum(Text(|b|), Raw(b)) == Prefixed(b) && FieldTag(fields[0]) == TagBytes(1, STRING);
    assert TypedAll(fields, m);
    assert EncodeFrom(fields, m, 1) == [];
    assert EncodeFrom(fields, m, 0) == EncodeSlot(fields[0], m.slots[0]) + EncodeFrom(fields, m, 1);
    assert !TerminatedSlot(fields[0], m.slots[0]);
  }

  /** A text that fills its storage is written, and then refused. */
  method FullTextIsLost(b: Bytes, bufferSize: nat) returns (encoded: bool, decoded: bool)
    requires 0 !in b && |TagBytes(1, STRING) + Prefixed(b)| <= bufferSize < LIMIT32
    ensures encoded && !decoded
  {
    hide TypedAll, EncodableAll, EncodeFrom, FormOk, TerminatedAll, SizedAll, TagBytes, Prefixed, TextTable, TextMessage;
    TextIsWritten(b);
    IsMessage(b);
    var slots;
    encoded, decoded, slots := EncodeAndDecode(TextTable(|b|), TextMessage(b), bufferSize);
  }

  lemma IsMessage(b: Bytes)
    ensures TextMessage(b).Message?
  {
  }
}
