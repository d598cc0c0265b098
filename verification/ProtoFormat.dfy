/** Protocol buffer messages described by field tables, and the bytes they stand for.
  *
  * A message is what its reader can observe: an optional field or a member of a union is there
  * or not, an array has its items. Numbers are written as sections "Base 128 Varints" and "Signed
  * Integers" of the Protocol Buffers Encoding specification say.
  */
module ProtoFormat {
  import opened ByteNumbers
  import opened Coding

  /** How a field's values are stored and written. Sizes are in bytes. */
  datatype Form =
    | Boolean
    | Signed(size: nat)
    | Unsigned(size: nat)
    | ZigZag(size: nat)
    | Fixed32
    | Fixed64
    | ByteArray(max: nat)
    | Text(size: nat)
    | FixedBytes(size: nat)
    | Submessage(fields: seq<Field>)
  {
    predicate Packable() {
      Boolean? || Signed? || Unsigned? || ZigZag? || Fixed32? || Fixed64?
    }

    function Wire(): nat {
      match this
      case Boolean => VARINT
      case Signed(_) => VARINT
      case Unsigned(_) => VARINT
      case ZigZag(_) => VARINT
      case Fixed32 => BITS32
      case Fixed64 => BITS64
      case _ => STRING
    }
  }

  const VARINT: nat := 0
  const BITS64: nat := 1
  const STRING: nat := 2
  const BITS32: nat := 5

  /** When a field is there. Singular fields have no mark of their own: a zero value is not
    * written. */
  datatype Presence = Required | Optional | Singular | Repeated(max: nat) | FixedCount(count: nat) | OneOf(group: nat)

  datatype Field = Field(tag: nat, presence: Presence, form: Form)

  datatype Datum = Number(n: int) | Raw(bytes: Bytes) | Message(slots: seq<Slot>)

  datatype Slot = Absent | One(value: Datum) | Many(items: seq<Datum>)

  // ---------------------------------------------------------------- well-formed messages

  predicate IntegerSize(size: nat) {
    size == 1 || size == 2 || size == 4 || size == 8
  }

  /** Half the range of an integer of that many bytes. */
  function Half(size: nat): nat {
    if size == 1 then 0x80 else if size == 2 then 0x8000 else if size == 4 then 0x8000_0000 else 0x8000_0000_0000_0000
  }

  ghost predicate Typed(form: Form, d: Datum)
    decreases d, 1
  {
    match form
    case Boolean => d.Number? && 0 <= d.n <= 1
    case Signed(size) => d.Number? && -(Half(size) as int) <= d.n < Half(size)
    case Unsigned(size) => d.Number? && 0 <= d.n < 2 * Half(size)
    case ZigZag(size) => d.Number? && -(Half(size) as int) <= d.n < Half(size)
    case Fixed32 => d.Number? && 0 <= d.n < LIMIT32
    case Fixed64 => d.Number? && 0 <= d.n < LIMIT64
    case ByteArray(_) => d.Raw?
    case Text(size) => d.Raw? && |d.bytes| <= size && 0 !in d.bytes
    case FixedBytes(size) => d.Raw? && |d.bytes| == size
    case Submessage(fields) => d.Message? && TypedAll(fields, d)
  }

  ghost predicate TypedSlot(f: Field, s: Slot)
    decreases s, 1
  {
    match f.presence
    case Required => s.One? && Typed(f.form, s.value)
    case Singular => s.One? && Typed(f.form, s.value)
    case Optional => s.Absent? || (s.One? && Typed(f.form, s.value))
    case OneOf(_) => s.Absent? || (s.One? && Typed(f.form, s.value))
    case Repeated(_) => s.Many? && forall i :: 0 <= i < |s.items| ==> Typed(f.form, s.items[i])
    case FixedCount(count) => s.Many? && |s.items| == count && forall i :: 0 <= i < |s.items| ==> Typed(f.form, s.items[i])
  }

  /** Every slot fits its field, and of a union one member at most is there. */
  ghost predicate TypedAll(fields: seq<Field>, m: Datum)
    requires m.Message?
    decreases m, 0
  {
    && |fields| == |m.slots|
    && (forall i :: 0 <= i < |fields| ==> TypedSlot(fields[i], m.slots[i]))
    && Exclusive(fields, m.slots)
  }

  predicate SameUnion(f: Field, g: Field) {
    f.presence.OneOf? && g.presence.OneOf? && f.presence.group == g.presence.group
  }

  ghost predicate Exclusive(fields: seq<Field>, slots: seq<Slot>)
    requires |fields| == |slots|
  {
    forall i, k :: 0 <= i < k < |fields| && SameUnion(fields[i], fields[k]) ==> slots[i].Absent? || slots[k].Absent?
  }

  ghost predicate TableOk(fields: seq<Field>) {
    FormOk(Submessage(fields))
  }

  /** Integers of known size; in field tables, tags that fit 32 bits with the wire type, each once. */
  ghost predicate FormOk(form: Form)
    decreases form
  {
    match form
    case Signed(size) => IntegerSize(size)
    case Unsigned(size) => IntegerSize(size)
    case ZigZag(size) => IntegerSize(size)
    case Submessage(fields) =>
      && (forall i :: 0 <= i < |fields| ==> 0 < fields[i].tag < LIMIT32 / 8 && FormOk(fields[i].form))
      && (forall i, k :: 0 <= i < k < |fields| ==> fields[i].tag != fields[k].tag)
    case _ => true
  }

  // ---------------------------------------------------------------- zero values

  /** Is the value the one that need not be written? */
  predicate IsZero(form: Form, d: Datum)
    decreases d, 0
  {
    match form
    case ByteArray(_) => d == Raw([])
    case Text(_) => d == Raw([])
    case FixedBytes(size) => size == 0
    case Submessage(fields) =>
      d.Message? && |d.slots| == |fields| && forall i :: 0 <= i < |fields| ==> ZeroSlot(fields[i], d.slots[i])
    case _ => d == Number(0)
  }

  predicate ZeroSlot(f: Field, s: Slot)
    decreases s, 1
  {
    match f.presence
    case Required => false
    case FixedCount(_) => false
    case Repeated(_) => s == Many([])
    case Optional => s.Absent?
    case OneOf(_) => s.Absent?
    case Singular => s.One? && IsZero(f.form, s.value)
  }

  function DefaultDatum(form: Form): Datum
    decreases form
  {
    match form
    case ByteArray(_) => Raw([])
    case Text(_) => Raw([])
    case FixedBytes(size) => Raw(Zeroes(size))
    case Submessage(fields) => Message(seq(|fields|, i requires 0 <= i < |fields| => DefaultSlot(fields[i])))
    case _ => Number(0)
  }

  function DefaultSlot(f: Field): Slot
    decreases f
  {
    match f.presence
    case Required => One(DefaultDatum(f.form))
    case Singular => One(DefaultDatum(f.form))
    case Optional => Absent
    case OneOf(_) => Absent
    case Repeated(_) => Many([])
    case FixedCount(_) => Many([])
  }

  /** What a message holds before anything is read into it. */
  function Defaults(fields: seq<Field>): (slots: seq<Slot>)
    ensures |slots| == |fields|
  {
    seq(|fields|, i requires 0 <= i < |fields| => DefaultSlot(fields[i]))
  }

  /** A value that is not written is the default. */
  lemma {:induction false} ZeroIsDefault(form: Form, d: Datum)
    requires Typed(form, d) && IsZero(form, d)
    ensures d == DefaultDatum(form)
    decreases d, 0
  {
    if form.Submessage? {
      var fields := form.fields;
      forall i | 0 <= i < |fields| ensures d.slots[i] == DefaultSlot(fields[i]) {
        assert TypedSlot(fields[i], d.slots[i]) && ZeroSlot(fields[i], d.slots[i]);
        ZeroSlotIsDefault(fields[i], d.slots[i]);
      }
      assert d.slots == Defaults(fields);
    } else if form.FixedBytes? {
      assert d.bytes == Zeroes(form.size);
    }
  }

  lemma {:induction false} ZeroSlotIsDefault(f: Field, s: Slot)
    requires TypedSlot(f, s) && ZeroSlot(f, s)
    ensures s == DefaultSlot(f)
    decreases s, 1
  {
    if f.presence.Singular? {
      ZeroIsDefault(f.form, s.value);
    }
  }

  // ---------------------------------------------------------------- bytes

  /** Negative numbers are written as 64-bit two's complement. */
  function TwosComplement(n: int): nat
    requires -0x8000_0000_0000_0000 <= n < LIMIT64
  {
    if n < 0 then n + LIMIT64 else n
  }

  function ZigZagged(n: int): nat {
    if n < 0 then -2 * n - 1 else 2 * n
  }

  /** Zero, minus one, one, minus two, two and so on are numbered from zero up. */
  lemma ZigZagNumbers(n: nat)
    ensures ZigZagged(0) == 0
    ensures ZigZagged(-(n as int) - 1) == ZigZagged(n) + 1 && ZigZagged(n + 1) == ZigZagged(n) + 2
  {
  }

  /** A negative number stands for what 64 bits leave of it. */
  lemma TwosComplementIs(n: int)
    requires -0x8000_0000_0000_0000 <= n < 0x8000_0000_0000_0000
    ensures TwosComplement(n) % LIMIT64 == n % LIMIT64 && 0 <= TwosComplement(n) < LIMIT64
  {
  }

  function TagBytes(tag: nat, wire: nat): Bytes {
    EncodeVarint(tag * 8 + wire)
  }

  function FieldTag(f: Field): Bytes {
    TagBytes(f.tag, f.form.Wire())
  }

  function EncodeDatum(form: Form, d: Datum): Bytes
    requires Typed(form, d)
    decreases d, 1
  {
    match form
    case Boolean => EncodeVarint(d.n)
    case Signed(_) => EncodeVarint(TwosComplement(d.n))
    case Unsigned(_) => EncodeVarint(d.n)
    case ZigZag(_) => EncodeVarint(ZigZagged(d.n))
    case Fixed32 => EncodeLength(d.n)
    case Fixed64 => EncodeFixed64(d.n)
    case Submessage(fields) => Prefixed(EncodeFrom(fields, d, 0))
    case _ => Prefixed(d.bytes)
  }

  function EncodeSlot(f: Field, s: Slot): Bytes
    requires TypedSlot(f, s)
    decreases s, 1
  {
    match f.presence
    case Required => FieldTag(f) + EncodeDatum(f.form, s.value)
    case Singular => if IsZero(f.form, s.value) then [] else FieldTag(f) + EncodeDatum(f.form, s.value)
    case Repeated(_) => EncodeItems(f, s)
    case FixedCount(_) => EncodeItems(f, s)
    case _ => if s.Absent? then [] else FieldTag(f) + EncodeDatum(f.form, s.value)
  }

  ghost predicate TypedItems(f: Field, s: Slot) {
    s.Many? && forall i :: 0 <= i < |s.items| ==> Typed(f.form, s.items[i])
  }

  /** Items of a packable form go together, others each under a tag of its own. */
  function EncodeItems(f: Field, s: Slot): Bytes
    requires TypedItems(f, s)
    decreases s, 0
  {
    if s.items == [] then []
    else if f.form.Packable() then TagBytes(f.tag, STRING) + Prefixed(PackedFrom(f, s, 0))
    else ItemsFrom(f, s, 0)
  }

  function PackedFrom(f: Field, s: Slot, j: nat): Bytes
    requires TypedItems(f, s) && j <= |s.items|
    decreases s, 0, |s.items| - j
  {
    if j == |s.items| then [] else EncodeDatum(f.form, s.items[j]) + PackedFrom(f, s, j + 1)
  }

  function ItemsFrom(f: Field, s: Slot, j: nat): Bytes
    requires TypedItems(f, s) && j <= |s.items|
    decreases s, 0, |s.items| - j
  {
    if j == |s.items| then [] else FieldTag(f) + EncodeDatum(f.form, s.items[j]) + ItemsFrom(f, s, j + 1)
  }

  /** Fields from the k-th on, in the order of the table. */
  function EncodeFrom(fields: seq<Field>, m: Datum, k: nat): Bytes
    requires m.Message? && TypedAll(fields, m) && k <= |fields|
    decreases m, 0, |fields| - k
  {
    if k == |fields| then [] else EncodeSlot(fields[k], m.slots[k]) + EncodeFrom(fields, m, k + 1)
  }

  // ---------------------------------------------------------------- sizes the tables allow

  /** The encoder refuses arrays and byte strings longer than their storage. */
  ghost predicate Encodable(form: Form, d: Datum)
    decreases d, 0
  {
    match form
    case ByteArray(max) => d.Raw? && |d.bytes| <= max
    case Submessage(fields) =>
      d.Message? && |d.slots| == |fields| && forall i :: 0 <= i < |fields| ==> EncodableSlot(fields[i], d.slots[i])
    case _ => true
  }

  ghost predicate EncodableSlot(f: Field, s: Slot)
    decreases s, 1
  {
    match s
    case Absent => true
    case One(d) => (f.presence.Singular? && IsZero(f.form, d)) || Encodable(f.form, d)
    case Many(items) =>
      (f.presence.Repeated? ==> |items| <= f.presence.max) && forall i :: 0 <= i < |items| ==> Encodable(f.form, items[i])
  }

  ghost predicate EncodableAll(fields: seq<Field>, m: Datum)
    requires m.Message?
  {
    |m.slots| == |fields| && forall i :: 0 <= i < |fields| ==> EncodableSlot(fields[i], m.slots[i])
  }
}
