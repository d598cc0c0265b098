/** One small message for each way of writing a field, byte by byte. */
module KnownMessages {
  import opened ByteNumbers
  import opened Coding
  import opened ProtoFormat
  import opened KnownBytes

  /** The bytes of a message with this one field. */
  function Alone(f: Field, s: Slot): Bytes
    requires TypedAll([f], Message([s]))
  {
    EncodeFrom([f], Message([s]), 0)
  }

  lemma AloneIs(f: Field, s: Slot)
    requires TypedSlot(f, s)
    ensures TypedAll([f], Message([s])) && Alone(f, s) == EncodeSlot(f, s)
  {
    hide EncodeSlot, TypedSlot;
    assert EncodeFrom([f], Message([s]), 1) == [];
    assert EncodeFrom([f], Message([s]), 0) == EncodeSlot(f, s) + [];
  }

  /** A required value is its tag and its bytes. */
  lemma OneValue(f: Field, d: Datum)
    requires f.presence.Required? && Typed(f.form, d)
    ensures TypedAll([f], Message([One(d)])) && Alone(f, One(d)) == FieldTag(f) + EncodeDatum(f.form, d)
  {
    hide EncodeDatum, FieldTag, Typed;
    assert TypedSlot(f, One(d));
    AloneIs(f, One(d));
  }

  lemma TagOf(tag: nat, wire: nat)
    requires wire < 8 && tag * 8 + wire < 128
    ensures TagBytes(tag, wire) == [(tag * 8 + wire) as Byte]
  {
    hide EncodeVarint;
    LastGroup(tag * 8 + wire);
  }

  // ---------------------------------------------------------------- numbers

  lemma BooleanBytes()
    ensures TypedAll([Field(1, Required, Boolean)], Message([One(Number(1))]))
    ensures Alone(Field(1, Required, Boolean), One(Number(1))) == [0x08, 0x01]
  {
    hide TagBytes, EncodeVarint, TypedAll, Alone;
    OneValue(Field(1, Required, Boolean), Number(1));
    TagOf(1, 0);
    LastGroup(1);
  }

  /** A negative number takes ten bytes. */
  lemma SignedBytes()
    ensures TypedAll([Field(2, Required, Signed(4))], Message([One(Number(-1))]))
    ensures Alone(Field(2, Required, Signed(4)), One(Number(-1))) == [0x10, 0xff, 0xff, 0xff, 0xff, 0xff, 0xff, 0xff, 0xff, 0xff, 0x01]
  {
    hide TagBytes, EncodeVarint, TypedAll, Alone;
    OneValue(Field(2, Required, Signed(4)), Number(-1));
    TagOf(2, 0);
    AllOnes();
  }

  lemma AllOnes()
    ensures EncodeVarint(0xffff_ffff_ffff_ffff) == [0xff, 0xff, 0xff, 0xff, 0xff, 0xff, 0xff, 0xff, 0xff, 0x01]
  {
    hide EncodeVarint;
    LastGroup(1);
    FirstGroup(127, 0x1);
    FirstGroup(127, 0xff);
    FirstGroup(127, 0x7fff);
    FirstGroup(127, 0x3f_ffff);
    FirstGroup(127, 0x1fff_ffff);
    FirstGroup(127, 0xf_ffff_ffff);
    FirstGroup(127, 0x7ff_ffff_ffff);
    FirstGroup(127, 0x3_ffff_ffff_ffff);
    FirstGroup(127, 0x1ff_ffff_ffff_ffff);
  }

  lemma UnsignedBytes()
    ensures TypedAll([Field(3, Required, Unsigned(8))], Message([One(Number(300))]))
    ensures Alone(Field(3, Required, Unsigned(8)), One(Number(300))) == [0x18, 0xac, 0x02]
  {
    hide TagBytes, EncodeVarint, TypedAll, Alone;
    OneValue(Field(3, Required, Unsigned(8)), Number(300));
    TagOf(3, 0);
    Varints();
  }

  /** A time zone three hours ahead. */
  lemma ZigZagBytes()
    ensures TypedAll([Field(15, Required, ZigZag(8))], Message([One(Number(10800))]))
    ensures Alone(Field(15, Required, ZigZag(8)), One(Number(10800))) == [0x78, 0xe0, 0xa8, 0x01]
  {
    hide TagBytes, EncodeVarint, TypedAll, Alone;
    OneValue(Field(15, Required, ZigZag(8)), Number(10800));
    TagOf(15, 0);
    LastGroup(1);
    FirstGroup(40, 1);
    FirstGroup(96, 168);
  }

  /** And three hours behind. */
  lemma NegativeZigZagBytes()
    ensures TypedAll([Field(15, Required, ZigZag(8))], Message([One(Number(-10800))]))
    ensures Alone(Field(15, Required, ZigZag(8)), One(Number(-10800))) == [0x78, 0xdf, 0xa8, 0x01]
  {
    hide TagBytes, EncodeVarint, TypedAll, Alone;
    OneValue(Field(15, Required, ZigZag(8)), Number(-10800));
    TagOf(15, 0);
    LastGroup(1);
    FirstGroup(40, 1);
    FirstGroup(95, 168);
  }

  lemma FixedBytesOf()
    ensures TypedAll([Field(5, Required, Fixed32)], Message([One(Number(0x0102_0304))]))
    ensures Alone(Field(5, Required, Fixed32), One(Number(0x0102_0304))) == [0x2d, 0x04, 0x03, 0x02, 0x01]
    ensures TypedAll([Field(6, Required, Fixed64)], Message([One(Number(0x0102_0304_0506_0708))]))
    ensures Alone(Field(6, Required, Fixed64), One(Number(0x0102_0304_0506_0708))) == [0x31, 0x08, 0x07, 0x06, 0x05, 0x04, 0x03, 0x02, 0x01]
  {
    hide TagBytes, EncodeLength, EncodeFixed64;
    OneValue(Field(5, Required, Fixed32), Number(0x0102_0304));
    OneValue(Field(6, Required, Fixed64), Number(0x0102_0304_0506_0708));
    TagOf(5, 5);
    TagOf(6, 1);
    FixedWidths();
  }

  // ---------------------------------------------------------------- strings and messages

  lemma StringBytes(form: Form)
    requires form == ByteArray(9) || form == Text(9) || form == FixedBytes(2)
    ensures TypedAll([Field(7, Required, form)], Message([One(Raw([0x62, 0x63]))]))
    ensures Alone(Field(7, Required, form), One(Raw([0x62, 0x63]))) == [0x3a, 0x02, 0x62, 0x63]
  {
    SmallStrings();
    hide TagBytes, Prefixed, TypedAll, Alone;
    OneValue(Field(7, Required, form), Raw([0x62, 0x63]));
    TagOf(7, 2);
  }

  const INNER: seq<Field> := [Field(1, Required, Boolean)]

  /** A message in a message comes behind its length. */
  lemma SubmessageBytes()
    ensures TypedAll([Field(10, Required, Submessage(INNER))], Message([One(Message([One(Number(1))]))]))
    ensures Alone(Field(10, Required, Submessage(INNER)), One(Message([One(Number(1))]))) == [0x52, 0x02, 0x08, 0x01]
  {
    BooleanBytes();
    LastGroup(2);
    hide TagBytes, EncodeVarint, EncodeFrom, TypedAll;
    OneValue(Field(10, Required, Submessage(INNER)), Message([One(Number(1))]));
    TagOf(10, 2);
  }

  // ---------------------------------------------------------------- arrays

  lemma PackedTwo(f: Field, s: Slot)
    requires s.Many? && |s.items| == 2 && TypedItems(f, s)
    ensures PackedFrom(f, s, 0) == EncodeDatum(f.form, s.items[0]) + EncodeDatum(f.form, s.items[1])
    ensures ItemsFrom(f, s, 0) == FieldTag(f) + EncodeDatum(f.form, s.items[0]) + (FieldTag(f) + EncodeDatum(f.form, s.items[1]))
  {
    hide EncodeDatum, FieldTag, Typed;
    assert PackedFrom(f, s, 2) == [] && PackedFrom(f, s, 1) == EncodeDatum(f.form, s.items[1]) + [];
    assert ItemsFrom(f, s, 2) == [] && ItemsFrom(f, s, 1) == FieldTag(f) + EncodeDatum(f.form, s.items[1]) + [];
  }

  lemma PackedSlot(f: Field, s: Slot)
    requires f.presence.Repeated? && f.form.Packable() && TypedItems(f, s) && s.items != []
    ensures TypedSlot(f, s) && EncodeSlot(f, s) == TagBytes(f.tag, 2) + Prefixed(PackedFrom(f, s, 0))
  {
    hide EncodeDatum, Typed, PackedFrom, TagBytes;
  }

  lemma PackedNumbers(f: Field, s: Slot)
    requires f.form == Unsigned(4) && s == Many([Number(1), Number(300)])
    ensures TypedItems(f, s) && PackedFrom(f, s, 0) == [0x01, 0xac, 0x02]
  {
    hide EncodeVarint, PackedFrom;
    PackedTwo(f, s);
    Varints();
  }

  /** Numbers are packed under one tag and one length. */
  lemma PackedBytes()
    ensures var f, s := Field(11, Repeated(3), Unsigned(4)), Many([Number(1), Number(300)]);
      TypedAll([f], Message([s])) && Alone(f, s) == [0x5a, 0x03, 0x01, 0xac, 0x02]
  {
    var f, s := Field(11, Repeated(3), Unsigned(4)), Many([Number(1), Number(300)]);
    hide TagBytes, EncodeVarint, PackedFrom, EncodeSlot, TypedSlot, TypedItems, TypedAll, Alone;
    PackedNumbers(f, s);
    PackedSlot(f, s);
    AloneIs(f, s);
    TagOf(11, 2);
    LastGroup(3);
  }

  /** Strings come each under a tag of its own. */
  lemma UnpackedBytes()
    ensures var f, s := Field(12, Repeated(3), Text(9)), Many([Raw([0x61]), Raw([0x62, 0x63])]);
      TypedAll([f], Message([s])) && Alone(f, s) == [0x62, 0x01, 0x61, 0x62, 0x02, 0x62, 0x63]
  {
    SmallStrings();
    var f, s := Field(12, Repeated(3), Text(9)), Many([Raw([0x61]), Raw([0x62, 0x63])]);
    hide TagBytes, Prefixed, ItemsFrom;
    AloneIs(f, s);
    PackedTwo(f, s);
    TagOf(12, 2);
  }

  /** Fields come in the order of the table. */
  lemma TwoFields(f: Field, g: Field, s: Slot, t: Slot)
    requires TypedAll([f, g], Message([s, t]))
    ensures TypedSlot(f, s) && TypedSlot(g, t) && EncodeFrom([f, g], Message([s, t]), 0) == EncodeSlot(f, s) + EncodeSlot(g, t)
  {
    hide EncodeSlot, TypedSlot;
    var fields, m := [f, g], Message([s, t]);
    assert TypedSlot(fields[0], m.slots[0]) && TypedSlot(fields[1], m.slots[1]);
    assert EncodeFrom(fields, m, 2) == [] && EncodeFrom(fields, m, 1) == EncodeSlot(g, t) + [];
  }

  // ---------------------------------------------------------------- what is not written

  /** Nothing is written for what is absent, for empty arrays, and for singular fields that hold
    * the default. */
  lemma NotWritten(tag: nat, form: Form)
    requires Typed(form, DefaultDatum(form)) && !form.FixedBytes? && !form.Submessage?
    ensures TypedSlot(Field(tag, Singular, form), One(DefaultDatum(form)))
    ensures EncodeSlot(Field(tag, Singular, form), One(DefaultDatum(form))) == []
    ensures EncodeSlot(Field(tag, Optional, form), Absent) == [] && EncodeSlot(Field(tag, OneOf(1), form), Absent) == []
    ensures EncodeSlot(Field(tag, Repeated(3), form), Many([])) == []
  {
  }

  /** Everything else is: what the value says has a tag in front of it. */
  lemma IsWritten(tag: nat, form: Form, d: Datum)
    requires Typed(form, d) && !IsZero(form, d)
    ensures TypedSlot(Field(tag, Singular, form), One(d)) && TypedSlot(Field(tag, Optional, form), One(d))
    ensures EncodeSlot(Field(tag, Singular, form), One(d)) == FieldTag(Field(tag, Singular, form)) + EncodeDatum(form, d)
    ensures EncodeSlot(Field(tag, Optional, form), One(d)) == FieldTag(Field(tag, Optional, form)) + EncodeDatum(form, d)
  {
  }
}
