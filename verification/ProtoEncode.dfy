/** Encoding messages: every submessage is sized by a run that writes nothing, then written.
  * Both runs are the same code; both produce the number of bytes the format says. */
module ProtoEncode {
  import opened ByteNumbers
  import opened Coding
  import opened ProtoFormat

  /** Does a stream have room for `n` more bytes? Streams that only count always do. */
  predicate Room(writes: bool, maxSize: nat, written: nat, n: nat) {
    writes ==> written + n <= maxSize
  }

  function Emitted(writes: bool, b: Bytes): Bytes {
    if writes then b else []
  }

  class OStream {
    const writes: bool
    const maxSize: nat
    var out: Bytes
    var bytesWritten: nat

    ghost predicate Ok()
      reads this
    {
      writes ==> bytesWritten <= maxSize
    }

    predicate HasRoom(n: nat)
      reads this
    {
      Room(writes, maxSize, bytesWritten, n)
    }

    /** These bytes have been counted and, if the stream writes, written. */
    ghost predicate Grew(written: nat, before: Bytes, b: Bytes)
      reads this
    {
      bytesWritten == written + |b| && out == before + Emitted(writes, b)
    }

    constructor (writes: bool, maxSize: nat)
      ensures Ok() && this.writes == writes && this.maxSize == maxSize && out == [] && bytesWritten == 0
    {
      this.writes, this.maxSize, out, bytesWritten := writes, maxSize, [], 0;
    }

    method Write(buf: Bytes) returns (ok: bool)
      requires Ok()
      modifies this
      ensures Ok() && ok == old(HasRoom(|buf|))
      ensures ok ==> Grew(old(bytesWritten), old(out), buf)
    {
      if |buf| > 0 && writes {
        if bytesWritten + |buf| > maxSize {
          return false;
        }
        out := out + buf;
      }
      bytesWritten := bytesWritten + |buf|;
      return true;
    }

    /** Counts bytes that a writing stream would get. */
    method Count(n: nat)
      requires Ok() && !writes
      modifies this
      ensures Ok() && bytesWritten == old(bytesWritten) + n && out == old(out)
    {
      bytesWritten := bytesWritten + n;
    }
  }

  // ---------------------------------------------------------------- varints

  function Groups(n: nat): Bytes {
    if n == 0 then [] else [Continued(n)] + Groups(n / 128)
  }

  /** Without its top bit, the last group ends the number. */
  lemma {:induction false} LastGroupEnds(n: nat)
    requires n > 0
    ensures var g := Groups(n);
      g != [] && EncodeVarint(n) == g[..|g| - 1] + [Final(Low7(g[|g| - 1]))]
  {
    hide Continued, Low7, Final, Groups, EncodeVarint;
    GroupRoundTrip(n);
    OneMoreGroup([], n);
    FirstOfVarint(n);
    var g := Groups(n / 128);
    assert Groups(n) == [Continued(n)] + g;
    if n < 128 {
      NoGroups();
    } else {
      LastGroupEnds(n / 128);
      assert ([Continued(n)] + g)[..|g|] == [Continued(n)] + g[..|g| - 1];
    }
  }

  lemma FirstOfVarint(n: nat)
    ensures EncodeVarint(n) == if n < 128 then [Final(n)] else [Continued(n)] + EncodeVarint(n / 128)
  {
    hide Continued, Final;
  }

  lemma GroupsBegin(v: nat)
    requires v > 0
    ensures Groups(v) == [Continued(v)] + Groups(v / 128)
  {
    hide Continued;
  }

  lemma OneMoreGroup(buffer: Bytes, v: nat)
    requires v > 0
    ensures buffer + Groups(v) == buffer + [Continued(v)] + Groups(v / 128)
    ensures Groups(v) == [Continued(v)] + Groups(v / 128)
  {
    hide Continued, Groups;
    GroupsBegin(v);
  }

  /** Seven bits a byte, lowest first, each with its top bit set but the last. */
  method VarintBytes(value: nat) returns (buffer: Bytes)
    requires value > 0
    ensures buffer == EncodeVarint(value)
  {
    hide Continued, Final, Groups, EncodeVarint;
    buffer := [];
    var v := value;
    while v > 0
      invariant buffer + Groups(v) == Groups(value)
    {
      OneMoreGroup(buffer, v);
      buffer := buffer + [Continued(v)];
      v := v / 128;
    }
    NoGroups();
    assert buffer == Groups(value);
    LastGroupEnds(value);
    // the top bit of the last byte is taken away
    buffer := buffer[..|buffer| - 1] + [Final(Low7(buffer[|buffer| - 1]))];
  }

  lemma NoGroups()
    ensures Groups(0) == []
  {
  }

  method EncodeVarintTo(s: OStream, value: nat) returns (ok: bool)
    requires s.Ok()
    modifies s
    ensures s.Ok() && ok == old(s.HasRoom(|EncodeVarint(value)|))
    ensures ok ==> s.Grew(old(s.bytesWritten), old(s.out), EncodeVarint(value))
  {
    hide Continued, Final;
    var buffer: Bytes := [];
    if value <= 0x7F {
      buffer := [Final(value)];
    } else {
      buffer := VarintBytes(value);
    }
    ok := s.Write(buffer);
  }

  method EncodeTag(s: OStream, wire: nat, tag: nat) returns (ok: bool)
    requires s.Ok()
    modifies s
    ensures s.Ok() && ok == old(s.HasRoom(|TagBytes(tag, wire)|))
    ensures ok ==> s.Grew(old(s.bytesWritten), old(s.out), TagBytes(tag, wire))
  {
    ok := EncodeVarintTo(s, tag * 8 + wire);
  }

  method EncodeString(s: OStream, buffer: Bytes) returns (ok: bool)
    requires s.Ok()
    modifies s
    ensures s.Ok() && ok == old(s.HasRoom(|Prefixed(buffer)|))
    ensures ok ==> s.Grew(old(s.bytesWritten), old(s.out), Prefixed(buffer))
  {
    hide EncodeVarint;
    ok := EncodeVarintTo(s, |buffer|);
    if ok {
      ok := s.Write(buffer);
    }
  }

  // ---------------------------------------------------------------- values

  /** A submessage: its size from a counting run, then its bytes from a writing one. The second
    * run never disagrees with the first. */
  method EncodeSubmessage(s: OStream, fields: seq<Field>, d: Datum) returns (ok: bool)
    requires s.Ok() && d.Message? && TypedAll(fields, d) && TableOk(fields)
    modifies s
    ensures s.Ok() && (ok <==> EncodableAll(fields, d) && old(s.HasRoom(|Prefixed(EncodeFrom(fields, d, 0))|)))
    ensures ok ==> s.Grew(old(s.bytesWritten), old(s.out), Prefixed(EncodeFrom(fields, d, 0)))
    decreases d, 2
  {
    hide TypedAll, EncodableAll, EncodeVarint, EncodeFrom;
    ghost var inner := EncodeFrom(fields, d, 0);
    var sizing := new OStream(false, 0);
    ok := Encode(sizing, fields, d);
    if !ok {
      return;
    }
    var size := sizing.bytesWritten;
    ok := EncodeVarintTo(s, size);
    if !ok {
      return;
    }
    if !s.writes {
      s.Count(size);
      return;
    }
    if s.bytesWritten + size > s.maxSize {
      return false;
    }
    // the second run goes into a stream that ends where the first said
    var substream := new OStream(true, size);
    ok := Encode(substream, fields, d);
    s.bytesWritten := s.bytesWritten + substream.bytesWritten;
    s.out := s.out + substream.out;
    if substream.bytesWritten != size {
      return false;
    }
  }

  method EncodeDatumTo(s: OStream, form: Form, d: Datum) returns (ok: bool)
    requires s.Ok() && Typed(form, d) && FormOk(form)
    modifies s
    ensures s.Ok() && (ok <==> Encodable(form, d) && old(s.HasRoom(|EncodeDatum(form, d)|)))
    ensures ok ==> s.Grew(old(s.bytesWritten), old(s.out), EncodeDatum(form, d))
    decreases d, 3
  {
    hide EncodeVarint, EncodeLength, EncodeFixed64, Prefixed, EncodeFrom;
    match form {
      case Boolean => ok := EncodeVarintTo(s, d.n);
      case Signed(_) => ok := EncodeVarintTo(s, TwosComplement(d.n));
      case Unsigned(_) => ok := EncodeVarintTo(s, d.n);
      case ZigZag(_) => ok := EncodeVarintTo(s, ZigZagged(d.n));
      case Fixed32 => ok := s.Write(EncodeLength(d.n));
      case Fixed64 => ok := s.Write(EncodeFixed64(d.n));
      case ByteArray(max) =>
        if |d.bytes| > max {
          return false;
        }
        ok := EncodeString(s, d.bytes);
      case Text(_) => ok := EncodeString(s, d.bytes);
      case FixedBytes(_) => ok := EncodeString(s, d.bytes);
      case Submessage(fields) => ok := EncodeSubmessage(s, fields, d);
    }
  }

  // ---------------------------------------------------------------- fields

  /** Tag and value. */
  method EncodeTagged(s: OStream, f: Field, d: Datum) returns (ok: bool)
    requires s.Ok() && Typed(f.form, d) && FormOk(f.form)
    modifies s
    ensures s.Ok() && (ok <==> Encodable(f.form, d) && old(s.HasRoom(|FieldTag(f) + EncodeDatum(f.form, d)|)))
    ensures ok ==> s.Grew(old(s.bytesWritten), old(s.out), FieldTag(f) + EncodeDatum(f.form, d))
    decreases d, 4
  {
    hide TagBytes, EncodeDatum, Encodable, Typed;
    ok := EncodeTag(s, f.form.Wire(), f.tag);
    if ok {
      ok := EncodeDatumTo(s, f.form, d);
    }
  }

  /** The size of a packed array: known for fixed widths, otherwise from a counting run. */
  method PackedSize(f: Field, slot: Slot) returns (size: nat)
    requires TypedItems(f, slot) && FormOk(f.form) && f.form.Packable()
    ensures size == |PackedFrom(f, slot, 0)|
    decreases slot, 0
  {
    if f.form.Fixed32? {
      FixedWidth(f, slot, 0, 4);
      size := 4 * |slot.items|;
    } else if f.form.Fixed64? {
      FixedWidth(f, slot, 0, 8);
      size := 8 * |slot.items|;
    } else {
      var sizing := new OStream(false, 0);
      var ok := WriteItems(sizing, f, slot);
      size := sizing.bytesWritten;
    }
  }

  lemma {:induction false} FixedWidth(f: Field, slot: Slot, j: nat, width: nat)
    requires TypedItems(f, slot) && j <= |slot.items|
    requires (f.form.Fixed32? && width == 4) || (f.form.Fixed64? && width == 8)
    ensures |PackedFrom(f, slot, j)| == width * (|slot.items| - j)
    decreases |slot.items| - j
  {
    if j < |slot.items| {
      FixedWidth(f, slot, j + 1, width);
    }
  }

  /** The items of a packed array, one behind the other. */
  method WriteItems(s: OStream, f: Field, slot: Slot) returns (ok: bool)
    requires s.Ok() && TypedItems(f, slot) && FormOk(f.form) && f.form.Packable()
    modifies s
    ensures s.Ok() && ok == old(s.HasRoom(|PackedFrom(f, slot, 0)|))
    ensures ok ==> s.Grew(old(s.bytesWritten), old(s.out), PackedFrom(f, slot, 0))
    decreases slot, 0, 0
  {
    hide EncodeDatum;
    ghost var done: Bytes, all := [], PackedFrom(f, slot, 0);
    var j := 0;
    while j < |slot.items|
      invariant j <= |slot.items| && s.Ok() && s.Grew(old(s.bytesWritten), old(s.out), done)
      invariant done + PackedFrom(f, slot, j) == all
    {
      ok := EncodeDatumTo(s, f.form, slot.items[j]);
      if !ok {
        return;
      }
      assert done + PackedFrom(f, slot, j) == done + EncodeDatum(f.form, slot.items[j]) + PackedFrom(f, slot, j + 1);
      done := done + EncodeDatum(f.form, slot.items[j]);
      j := j + 1;
    }
    assert done == all;
    return true;
  }

  method EncodePacked(s: OStream, f: Field, slot: Slot) returns (ok: bool)
    requires s.Ok() && TypedItems(f, slot) && FormOk(f.form) && f.form.Packable()
    modifies s
    ensures s.Ok() && ok == old(s.HasRoom(|TagBytes(f.tag, STRING) + Prefixed(PackedFrom(f, slot, 0))|))
    ensures ok ==> s.Grew(old(s.bytesWritten), old(s.out), TagBytes(f.tag, STRING) + Prefixed(PackedFrom(f, slot, 0)))
    decreases slot, 1
  {
    hide TagBytes, EncodeVarint, PackedFrom, TypedItems;
    ok := EncodeTag(s, STRING, f.tag);
    if !ok {
      return;
    }
    var size := PackedSize(f, slot);
    ok := EncodeVarintTo(s, size);
    if !ok {
      return;
    }
    if !s.writes {
      s.Count(size);
      return;
    }
    ok := WriteItems(s, f, slot);
  }

  method EncodeArray(s: OStream, f: Field, slot: Slot) returns (ok: bool)
    requires s.Ok() && TypedItems(f, slot) && FormOk(f.form)
    modifies s
    ensures s.Ok() && (ok <==> EncodableSlot(f, slot) && old(s.HasRoom(|EncodeItems(f, slot)|)))
    ensures ok ==> s.Grew(old(s.bytesWritten), old(s.out), EncodeItems(f, slot))
    decreases slot, 2
  {
    hide EncodeDatum, TagBytes, PackedFrom;
    if slot.items == [] {
      return true;
    }
    if f.presence.Repeated? && |slot.items| > f.presence.max {
      return false;
    }
    if f.form.Packable() {
      ok := EncodePacked(s, f, slot);
      return;
    }
    ghost var done: Bytes, all := [], ItemsFrom(f, slot, 0);
    var j := 0;
    while j < |slot.items|
      invariant j <= |slot.items| && s.Ok() && s.Grew(old(s.bytesWritten), old(s.out), done)
      invariant done + ItemsFrom(f, slot, j) == all
      invariant forall i :: 0 <= i < j ==> Encodable(f.form, slot.items[i])
    {
      ghost var one := FieldTag(f) + EncodeDatum(f.form, slot.items[j]);
      assert done + ItemsFrom(f, slot, j) == done + one + ItemsFrom(f, slot, j + 1);
      ok := EncodeTagged(s, f, slot.items[j]);
      if !ok {
        return;
      }
      done := done + one;
      j := j + 1;
    }
    assert done == all;
    return true;
  }

  /** A field that is there, with its tag; nothing for one that is not. */
  method EncodeField(s: OStream, f: Field, slot: Slot) returns (ok: bool)
    requires s.Ok() && TypedSlot(f, slot) && FormOk(f.form)
    modifies s
    ensures s.Ok() && (ok <==> EncodableSlot(f, slot) && old(s.HasRoom(|EncodeSlot(f, slot)|)))
    ensures ok ==> s.Grew(old(s.bytesWritten), old(s.out), EncodeSlot(f, slot))
    decreases slot, 3
  {
    hide EncodeDatum, TagBytes, EncodeItems, Encodable, IsZero;
    match f.presence {
      case Required => ok := EncodeTagged(s, f, slot.value);
      case Repeated(_) => ok := EncodeArray(s, f, slot);
      case FixedCount(_) => ok := EncodeArray(s, f, slot);
      case Singular =>
        ok := true;
        if !IsZero(f.form, slot.value) {
          ok := EncodeTagged(s, f, slot.value);
        }
      case _ =>
        ok := true;
        if slot.One? {
          ok := EncodeTagged(s, f, slot.value);
        }
    }
  }

  /** All fields, in the order of the table. */
  method Encode(s: OStream, fields: seq<Field>, d: Datum) returns (ok: bool)
    requires s.Ok() && d.Message? && TypedAll(fields, d) && TableOk(fields)
    modifies s
    ensures s.Ok() && (ok <==> EncodableAll(fields, d) && old(s.HasRoom(|EncodeFrom(fields, d, 0)|)))
    ensures ok ==> s.Grew(old(s.bytesWritten), old(s.out), EncodeFrom(fields, d, 0))
    decreases d, 1
  {
    hide EncodeSlot, EncodableSlot, TypedSlot, Exclusive;
    ghost var done: Bytes, all := [], EncodeFrom(fields, d, 0);
    var k := 0;
    while k < |fields|
      invariant k <= |fields| && s.Ok() && s.Grew(old(s.bytesWritten), old(s.out), done)
      invariant done + EncodeFrom(fields, d, k) == all
      invariant forall i :: 0 <= i < k ==> EncodableSlot(fields[i], d.slots[i])
    {
      ghost var one := EncodeSlot(fields[k], d.slots[k]);
      assert done + EncodeFrom(fields, d, k) == done + one + EncodeFrom(fields, d, k + 1);
      ok := EncodeField(s, fields[k], d.slots[k]);
      if !ok {
        return;
      }
      done := done + one;
      k := k + 1;
    }
    assert done == all;
    return true;
  }

  /** The size a message will take, without writing it. */
  method GetEncodedSize(fields: seq<Field>, d: Datum) returns (ok: bool, size: nat)
    requires d.Message? && TypedAll(fields, d) && TableOk(fields)
    ensures ok <==> EncodableAll(fields, d)
    ensures ok ==> size == |EncodeFrom(fields, d, 0)|
  {
    hide TypedAll, EncodableAll, EncodeFrom, FormOk;
    var sizing := new OStream(false, 0);
    ok := Encode(sizing, fields, d);
    size := sizing.bytesWritten;
  }
}
