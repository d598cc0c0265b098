/** Descriptor records: version edits as tagged fields, and reading them back. */
module EditCodec {
  import opened ByteNumbers
  import opened Keys
  import opened Coding
  import Layers

  const COMPARATOR: nat := 1
  const LOG_NUMBER: nat := 2
  const NEXT_FILE_NUMBER: nat := 3
  const LAST_SEQUENCE: nat := 4
  const COMPACT_POINTER: nat := 5
  const DELETED_FILE: nat := 6
  const NEW_FILE: nat := 7
  const PREV_LOG_NUMBER: nat := 9

  datatype FileMetaData = FileMetaData(number: nat, size: nat, smallest: Bytes, largest: Bytes)

  datatype Field =
    | Comparator(name: Bytes)
    | LogNumber(number: nat)
    | PrevLogNumber(number: nat)
    | NextFileNumber(number: nat)
    | LastSequence(number: nat)
    | CompactPointer(level: nat, key: Bytes)
    | DeletedFile(level: nat, number: nat)
    | NewFile(level: nat, file: FileMetaData)
  {
    /** The widths the encoding has room for. */
    predicate Fits() {
      match this
      case Comparator(name) => |name| < LIMIT32
      case CompactPointer(level, key) => level < Layers.NUM_LEVELS && |key| < LIMIT32
      case DeletedFile(level, n) => level < Layers.NUM_LEVELS && n < LIMIT64
      case NewFile(level, f) =>
        level < Layers.NUM_LEVELS && f.number < LIMIT64 && f.size < LIMIT64 && |f.smallest| < LIMIT32 && |f.largest| < LIMIT32
      case _ => this.number < LIMIT64
    }
  }

  // ---------------------------------------------------------------- encoding

  function EncodeField(f: Field): Bytes {
    match f
    case Comparator(name) => EncodeVarint(COMPARATOR) + Prefixed(name)
    case LogNumber(n) => EncodeVarint(LOG_NUMBER) + EncodeVarint(n)
    case PrevLogNumber(n) => EncodeVarint(PREV_LOG_NUMBER) + EncodeVarint(n)
    case NextFileNumber(n) => EncodeVarint(NEXT_FILE_NUMBER) + EncodeVarint(n)
    case LastSequence(n) => EncodeVarint(LAST_SEQUENCE) + EncodeVarint(n)
    case CompactPointer(level, key) => EncodeVarint(COMPACT_POINTER) + EncodeVarint(level) + Prefixed(key)
    case DeletedFile(level, n) => EncodeVarint(DELETED_FILE) + EncodeVarint(level) + EncodeVarint(n)
    case NewFile(level, f) =>
      EncodeVarint(NEW_FILE) + EncodeVarint(level) + EncodeVarint(f.number) + EncodeVarint(f.size) + Prefixed(f.smallest) + Prefixed(f.largest)
  }

  function EncodeFields(fields: seq<Field>): Bytes {
    if fields == [] then [] else EncodeFields(fields[..|fields| - 1]) + EncodeField(fields[|fields| - 1])
  }

  // ---------------------------------------------------------------- decoding

  function GetLevel(input: Bytes): (r: Read<nat>)
    ensures r.Some? ==> |r.value.1| < |input| && r.value.0 < Layers.NUM_LEVELS
  {
    var v := GetVarint32(input);
    if v.None? || v.value.0 >= Layers.NUM_LEVELS then None else v
  }

  datatype Parsed = NoTag | Bad(msg: string) | Got(field: Field, rest: Bytes)

  function NumberField(tag: nat, n: nat): Field {
    if tag == LOG_NUMBER then LogNumber(n) else if tag == PREV_LOG_NUMBER then PrevLogNumber(n)
    else if tag == NEXT_FILE_NUMBER then NextFileNumber(n) else LastSequence(n)
  }

  function NumberName(tag: nat): string {
    if tag == LOG_NUMBER then "log number" else if tag == PREV_LOG_NUMBER then "previous log number"
    else if tag == NEXT_FILE_NUMBER then "next file number" else "last sequence number"
  }

  function GetNewFile(input: Bytes): (r: Read<Field>)
    ensures r.Some? ==> |r.value.1| < |input|
  {
    var level := GetLevel(input);
    if level.None? then None else
      var number := GetVarint64(level.value.1);
      if number.None? then None else
        var size := GetVarint64(number.value.1);
        if size.None? then None else
          var smallest := GetLengthPrefixedSlice(size.value.1);
          if smallest.None? then None else
            var largest := GetLengthPrefixedSlice(smallest.value.1);
            if largest.None? then None else
              Some((NewFile(level.value.0, FileMetaData(number.value.0, size.value.0, smallest.value.0, largest.value.0)), largest.value.1))
  }

  function ParseField(input: Bytes): (r: Parsed)
    ensures r.Got? ==> |r.rest| < |input|
  {
    hide GetVarint32, GetVarint64, GetLengthPrefixedSlice, GetLevel, GetNewFile;
    var t := GetVarint32(input);
    if t.None? then NoTag else
      var (tag, rest) := t.value;
      if tag == COMPARATOR then
        var s := GetLengthPrefixedSlice(rest);
        if s.None? then Bad("comparator name") else Got(Comparator(s.value.0), s.value.1)
      else if tag == LOG_NUMBER || tag == PREV_LOG_NUMBER || tag == NEXT_FILE_NUMBER || tag == LAST_SEQUENCE then
        var n := GetVarint64(rest);
        if n.None? then Bad(NumberName(tag)) else Got(NumberField(tag, n.value.0), n.value.1)
      else if tag == COMPACT_POINTER then
        var level := GetLevel(rest);
        var key := if level.None? then None else GetLengthPrefixedSlice(level.value.1);
        if key.None? then Bad("compaction pointer") else Got(CompactPointer(level.value.0, key.value.0), key.value.1)
      else if tag == DELETED_FILE then
        var level := GetLevel(rest);
        var number := if level.None? then None else GetVarint64(level.value.1);
        if number.None? then Bad("deleted file") else Got(DeletedFile(level.value.0, number.value.0), number.value.1)
      else if tag == NEW_FILE then
        var f := GetNewFile(rest);
        if f.None? then Bad("new-file entry") else Got(f.value.0, f.value.1)
      else Bad("unknown tag")
  }

  /** All fields of a record, if it is made of fields only. */
  function ParseFields(input: Bytes): (r: Option<seq<Field>>)
    decreases |input|
  {
    match ParseField(input)
    case NoTag => if input == [] then Some([]) else None
    case Bad(_) => None
    case Got(f, rest) =>
      var more := ParseFields(rest);
      if more.None? then None else Some([f] + more.value)
  }

  // ---------------------------------------------------------------- round trip

  lemma NewFileRoundTrip(level: nat, f: FileMetaData, rest: Bytes)
    requires NewFile(level, f).Fits()
    ensures GetNewFile(EncodeVarint(level) + EncodeVarint(f.number) + EncodeVarint(f.size) + Prefixed(f.smallest) + Prefixed(f.largest) + rest)
      == Some((NewFile(level, f), rest))
  {
    hide GetVarint32, GetVarint64, GetLengthPrefixedSlice, EncodeVarint, Prefixed;
    var r5 := rest;
    var r4 := Prefixed(f.largest) + r5;
    var r3 := Prefixed(f.smallest) + r4;
    var r2 := EncodeVarint(f.size) + r3;
    var r1 := EncodeVarint(f.number) + r2;
    assert EncodeVarint(level) + EncodeVarint(f.number) + EncodeVarint(f.size) + Prefixed(f.smallest) + Prefixed(f.largest) + rest == EncodeVarint(level) + r1;
    Varint32RoundTrip(level, r1);
    Varint64RoundTrip(f.number, r2);
    Varint64RoundTrip(f.size, r3);
    PrefixedRoundTrip(f.smallest, r4);
    PrefixedRoundTrip(f.largest, r5);
  }

  /** What follows the tag. */
  function Body(f: Field): Bytes {
    match f
    case Comparator(name) => Prefixed(name)
    case CompactPointer(level, key) => EncodeVarint(level) + Prefixed(key)
    case DeletedFile(level, n) => EncodeVarint(level) + EncodeVarint(n)
    case NewFile(level, f) =>
      EncodeVarint(level) + EncodeVarint(f.number) + EncodeVarint(f.size) + Prefixed(f.smallest) + Prefixed(f.largest)
    case _ => EncodeVarint(f.number)
  }

  function TagOf(f: Field): nat {
    match f
    case Comparator(_) => COMPARATOR
    case LogNumber(_) => LOG_NUMBER
    case PrevLogNumber(_) => PREV_LOG_NUMBER
    case NextFileNumber(_) => NEXT_FILE_NUMBER
    case LastSequence(_) => LAST_SEQUENCE
    case CompactPointer(_, _) => COMPACT_POINTER
    case DeletedFile(_, _) => DELETED_FILE
    case NewFile(_, _) => NEW_FILE
  }

  lemma FieldIsTagAndBody(f: Field)
    ensures EncodeField(f) == EncodeVarint(TagOf(f)) + Body(f)
  {
    hide EncodeVarint, Prefixed;
  }

  lemma FieldRoundTrip(f: Field, rest: Bytes)
    requires f.Fits()
    ensures ParseField(EncodeField(f) + rest) == Got(f, rest)
  {
    hide EncodeVarint, Prefixed, GetVarint32, GetVarint64, GetLengthPrefixedSlice, GetNewFile, EncodeField;
    FieldIsTagAndBody(f);
    assert EncodeField(f) + rest == EncodeVarint(TagOf(f)) + (Body(f) + rest);
    Varint32RoundTrip(TagOf(f), Body(f) + rest);
    match f {
      case Comparator(name) =>
        PrefixedRoundTrip(name, rest);
      case CompactPointer(level, key) =>
        assert Body(f) + rest == EncodeVarint(level) + (Prefixed(key) + rest);
        Varint32RoundTrip(level, Prefixed(key) + rest);
        PrefixedRoundTrip(key, rest);
      case DeletedFile(level, n) =>
        assert Body(f) + rest == EncodeVarint(level) + (EncodeVarint(n) + rest);
        Varint32RoundTrip(level, EncodeVarint(n) + rest);
        Varint64RoundTrip(n, rest);
      case NewFile(level, file) =>
        NewFileRoundTrip(level, file, rest);
      case _ =>
        Varint64RoundTrip(f.number, rest);
    }
  }

  lemma {:induction false} FieldsRoundTrip(fields: seq<Field>)
    requires forall f :: f in fields ==> f.Fits()
    ensures ParseFields(EncodeFields(fields)) == Some(fields)
  {
    if fields == [] {
      assert ParseField([]) == NoTag;
    } else {
      hide ParseField, EncodeField;
      EncodeFieldsFront(fields);
      FieldRoundTrip(fields[0], EncodeFields(fields[1..]));
      FieldsRoundTrip(fields[1..]);
      assert [fields[0]] + fields[1..] == fields;
    }
  }

  lemma {:induction false} EncodeFieldsFront(fields: seq<Field>)
    requires fields != []
    ensures EncodeFields(fields) == EncodeField(fields[0]) + EncodeFields(fields[1..])
  {
    hide EncodeField;
    var n := |fields| - 1;
    if n > 0 {
      EncodeFieldsFront(fields[..n]);
      assert fields[1..][..n - 1] == fields[..n][1..];
    } else {
      assert fields[..0] == [] && fields[1..] == [];
    }
  }

  // ---------------------------------------------------------------- edits

  /** What an edit says; absent fields say nothing. */
  datatype Contents = Contents(
    comparator: Option<Bytes>,
    logNumber: Option<nat>,
    prevLogNumber: Option<nat>,
    nextFileNumber: Option<nat>,
    lastSequence: Option<nat>,
    compactPointers: seq<(nat, Bytes)>,
    deletedFiles: set<(nat, nat)>,
    newFiles: seq<(nat, FileMetaData)>)

  /** Clearing forgets everything but the compaction pointers. */
  function Cleared(c: Contents): Contents {
    Contents(None, None, None, None, None, c.compactPointers, {}, [])
  }

  function Applied(c: Contents, f: Field): Contents {
    match f
    case Comparator(name) => c.(comparator := Some(name))
    case LogNumber(n) => c.(logNumber := Some(n))
    case PrevLogNumber(n) => c.(prevLogNumber := Some(n))
    case NextFileNumber(n) => c.(nextFileNumber := Some(n))
    case LastSequence(n) => c.(lastSequence := Some(n))
    case CompactPointer(level, key) => c.(compactPointers := c.compactPointers + [(level, key)])
    case DeletedFile(level, n) => c.(deletedFiles := c.deletedFiles + {(level, n)})
    case NewFile(level, f) => c.(newFiles := c.newFiles + [(level, f)])
  }

  function ApplyAll(c: Contents, fields: seq<Field>): Contents {
    if fields == [] then c else Applied(ApplyAll(c, fields[..|fields| - 1]), fields[|fields| - 1])
  }

  function Given(o: Option<Field>): (fields: seq<Field>)
    ensures |fields| <= 1
  {
    if o.Some? then [o.value] else []
  }

  function ComparatorField(c: Contents): Option<Field> {
    if c.comparator.Some? then Some(Comparator(c.comparator.value)) else None
  }

  function LogNumberField(c: Contents): Option<Field> {
    if c.logNumber.Some? then Some(LogNumber(c.logNumber.value)) else None
  }

  function PrevLogNumberField(c: Contents): Option<Field> {
    if c.prevLogNumber.Some? then Some(PrevLogNumber(c.prevLogNumber.value)) else None
  }

  function NextFileNumberField(c: Contents): Option<Field> {
    if c.nextFileNumber.Some? then Some(NextFileNumber(c.nextFileNumber.value)) else None
  }

  function LastSequenceField(c: Contents): Option<Field> {
    if c.lastSequence.Some? then Some(LastSequence(c.lastSequence.value)) else None
  }

  function Pointers(ps: seq<(nat, Bytes)>): seq<Field> {
    seq(|ps|, i requires 0 <= i < |ps| => CompactPointer(ps[i].0, ps[i].1))
  }

  function Deletions(ds: seq<(nat, nat)>): seq<Field> {
    seq(|ds|, i requires 0 <= i < |ds| => DeletedFile(ds[i].0, ds[i].1))
  }

  function Additions(fs: seq<(nat, FileMetaData)>): seq<Field> {
    seq(|fs|, i requires 0 <= i < |fs| => NewFile(fs[i].0, fs[i].1))
  }

  /** The five single fields an edit writes first. */
  function Singles(c: Contents): seq<Field> {
    Given(ComparatorField(c)) + Given(LogNumberField(c)) + Given(PrevLogNumberField(c)) + Given(NextFileNumberField(c)) + Given(LastSequenceField(c))
  }

  /** All fields in the order they are written; `order` is that of the deleted files. */
  function FieldsOf(c: Contents, order: seq<(nat, nat)>): seq<Field> {
    Singles(c) + Pointers(c.compactPointers) + Deletions(order) + Additions(c.newFiles)
  }

  lemma {:induction false} ApplyConcat(c: Contents, a: seq<Field>, b: seq<Field>)
    ensures ApplyAll(c, a + b) == ApplyAll(ApplyAll(c, a), b)
  {
    if b == [] {
      assert a + b == a;
    } else {
      var n := |b| - 1;
      assert (a + b)[..|a| + n] == a + b[..n];
      ApplyConcat(c, a, b[..n]);
    }
  }

  lemma {:induction false} ApplyPointers(c: Contents, ps: seq<(nat, Bytes)>)
    ensures ApplyAll(c, Pointers(ps)) == c.(compactPointers := c.compactPointers + ps)
  {
    if ps != [] {
      var n := |ps| - 1;
      ApplyPointers(c, ps[..n]);
      assert Pointers(ps)[..n] == Pointers(ps[..n]);
      assert c.compactPointers + ps == c.compactPointers + ps[..n] + [(ps[n].0, ps[n].1)];
    } else {
      assert c.compactPointers + ps == c.compactPointers;
    }
  }

  function Members(ds: seq<(nat, nat)>): set<(nat, nat)> {
    set d | d in ds
  }

  lemma MembersAppend(ds: seq<(nat, nat)>, d: (nat, nat))
    ensures Members(ds + [d]) == Members(ds) + {d} && Members([]) == {}
  {
  }

  lemma {:induction false} ApplyDeletions(c: Contents, ds: seq<(nat, nat)>)
    ensures ApplyAll(c, Deletions(ds)) == c.(deletedFiles := c.deletedFiles + Members(ds))
  {
    hide Members;
    if ds != [] {
      var n := |ds| - 1;
      ApplyDeletions(c, ds[..n]);
      assert Deletions(ds)[..n] == Deletions(ds[..n]);
      assert ds == ds[..n] + [(ds[n].0, ds[n].1)];
      MembersAppend(ds[..n], (ds[n].0, ds[n].1));
    } else {
      MembersAppend([], (0, 0));
      assert c.deletedFiles + {} == c.deletedFiles;
    }
  }

  lemma {:induction false} ApplyAdditions(c: Contents, fs: seq<(nat, FileMetaData)>)
    ensures ApplyAll(c, Additions(fs)) == c.(newFiles := c.newFiles + fs)
  {
    if fs != [] {
      var n := |fs| - 1;
      ApplyAdditions(c, fs[..n]);
      assert Additions(fs)[..n] == Additions(fs[..n]);
      assert c.newFiles + fs == c.newFiles + fs[..n] + [(fs[n].0, fs[n].1)];
    } else {
      assert c.newFiles + fs == c.newFiles;
    }
  }

  function AppliedIf(c: Contents, o: Option<Field>): Contents {
    if o.Some? then Applied(c, o.value) else c
  }

  lemma ApplyGiven(c: Contents, before: seq<Field>, o: Option<Field>)
    ensures ApplyAll(c, before + Given(o)) == AppliedIf(ApplyAll(c, before), o)
  {
    if o.Some? {
      assert (before + [o.value])[..|before|] == before;
    } else {
      assert before + [] == before;
    }
  }

  lemma ApplySingles(c: Contents, e: Contents)
    requires c == Cleared(c)
    ensures ApplyAll(c, Singles(e))
      == Contents(e.comparator, e.logNumber, e.prevLogNumber, e.nextFileNumber, e.lastSequence, c.compactPointers, {}, [])
  {
    assert ApplyAll(c, []) == c;
    var s1 := Given(ComparatorField(e));
    var s2 := s1 + Given(LogNumberField(e));
    var s3 := s2 + Given(PrevLogNumberField(e));
    var s4 := s3 + Given(NextFileNumberField(e));
    assert [] + s1 == s1;
    hide ApplyAll, Given;
    ApplyGiven(c, [], ComparatorField(e));
    assert ApplyAll(c, s1) == c.(comparator := e.comparator);
    ApplyGiven(c, s1, LogNumberField(e));
    assert ApplyAll(c, s2) == c.(comparator := e.comparator, logNumber := e.logNumber);
    ApplyGiven(c, s2, PrevLogNumberField(e));
    assert ApplyAll(c, s3) == c.(comparator := e.comparator, logNumber := e.logNumber, prevLogNumber := e.prevLogNumber);
    ApplyGiven(c, s3, NextFileNumberField(e));
    ApplyGiven(c, s4, LastSequenceField(e));
  }

  /** Reading an edit back into a cleared one restores it, behind whatever compaction pointers
    * were there before. */
  lemma DecodeRestores(into: Contents, e: Contents, order: seq<(nat, nat)>)
    requires Members(order) == e.deletedFiles
    requires forall f :: f in FieldsOf(e, order) ==> f.Fits()
    ensures ParseFields(EncodeFields(FieldsOf(e, order))) == Some(FieldsOf(e, order))
    ensures ApplyAll(Cleared(into), FieldsOf(e, order)) == e.(compactPointers := into.compactPointers + e.compactPointers)
    ensures ApplyAll(Cleared(into), FieldsOf(e, order)) == e <==> into.compactPointers == []
  {
    hide ApplyAll, Singles, ParseFields, EncodeFields;
    FieldsRoundTrip(FieldsOf(e, order));
    var c := Cleared(into);
    var s, p, d, n := Singles(e), Pointers(e.compactPointers), Deletions(order), Additions(e.newFiles);
    ApplyConcat(c, s + p + d, n);
    ApplyConcat(c, s + p, d);
    ApplyConcat(c, s, p);
    ApplySingles(c, e);
    var c1 := ApplyAll(c, s);
    ApplyPointers(c1, e.compactPointers);
    var c2 := ApplyAll(c1, p);
    ApplyDeletions(c2, order);
    ApplyAdditions(ApplyAll(c2, d), e.newFiles);
    assert {} + e.deletedFiles == e.deletedFiles && [] + e.newFiles == e.newFiles;
    if into.compactPointers == [] {
      assert into.compactPointers + e.compactPointers == e.compactPointers;
    } else {
      assert |into.compactPointers + e.compactPointers| > |e.compactPointers|;
    }
  }

  class VersionEdit {
    var comparator: Option<Bytes>
    var logNumber: Option<nat>
    var prevLogNumber: Option<nat>
    var nextFileNumber: Option<nat>
    var lastSequence: Option<nat>
    var compactPointers: seq<(nat, Bytes)>
    var deletedFiles: set<(nat, nat)>
    var newFiles: seq<(nat, FileMetaData)>

    function View(): Contents
      reads this
    {
      Contents(comparator, logNumber, prevLogNumber, nextFileNumber, lastSequence, compactPointers, deletedFiles, newFiles)
    }

    constructor ()
      ensures View() == Contents(None, None, None, None, None, [], {}, [])
    {
      comparator, logNumber, prevLogNumber, nextFileNumber, lastSequence := None, None, None, None, None;
      compactPointers, deletedFiles, newFiles := [], {}, [];
    }

    method Clear()
      modifies this
      ensures View() == Cleared(old(View()))
    {
      comparator, logNumber, prevLogNumber, nextFileNumber, lastSequence := None, None, None, None, None;
      deletedFiles, newFiles := {}, [];
    }

    /** Appends the edit's fields; `order` lists the deleted files by level and number. */
    method EncodeTo(dst: Bytes) returns (r: Bytes, ghost order: seq<(nat, nat)>)
      ensures Members(order) == deletedFiles && Rising(order)
      ensures r == dst + EncodeFields(FieldsOf(View(), order))
    {
      hide EncodeFields, Singles, Pointers, Deletions, Additions;
      ghost var done: seq<Field>;
      r, done := EncodeSingles(dst);
      r, done := EncodePointers(r, compactPointers, dst, done);
      r, done, order := EncodeDeletions(r, deletedFiles, dst, done);
      r, done := EncodeAdditions(r, newFiles, dst, done);
    }

    method EncodeSingles(dst: Bytes) returns (r: Bytes, ghost done: seq<Field>)
      ensures done == Singles(View()) && r == dst + EncodeFields(done)
    {
      r, done := dst, [];
      NothingEncoded(dst);
      hide EncodeField, EncodeFields, Given;
      r, done := AppendGiven(r, Given(ComparatorField(View())), dst, done);
      r, done := AppendGiven(r, Given(LogNumberField(View())), dst, done);
      r, done := AppendGiven(r, Given(PrevLogNumberField(View())), dst, done);
      r, done := AppendGiven(r, Given(NextFileNumberField(View())), dst, done);
      r, done := AppendGiven(r, Given(LastSequenceField(View())), dst, done);
      NothingBefore(Given(ComparatorField(View())));
    }

    /** Replaces the edit by the one encoded in `src`; nothing when all of it could be read. */
    method DecodeFrom(src: Bytes) returns (msg: Option<string>)
      modifies this
      ensures msg.None? <==> ParseFields(src).Some?
      ensures msg.None? ==> View() == ApplyAll(Cleared(old(View())), ParseFields(src).value)
    {
      hide ParseField, ApplyAll;
      Clear();
      ghost var cleared, done: seq<Field> := View(), [];
      var input := src;
      NothingApplied(cleared);
      NothingFollowed(ParseFields(src));
      while true
        invariant View() == ApplyAll(cleared, done)
        invariant ParseFields(src) == Following(done, ParseFields(input))
        decreases |input|
      {
        var parsed := ParseField(input);
        match parsed {
          case NoTag =>
            if input != [] {
              return Some("invalid tag");
            }
            assert done + [] == done;
            return None;
          case Bad(m) =>
            return Some(m);
          case Got(f, rest) =>
            FollowingStep(done, f, ParseFields(rest));
            ApplyOneMore(cleared, done, f);
            TakeField(f);
            done := done + [f];
            input := rest;
        }
      }
    }

    method TakeField(f: Field)
      modifies this
      ensures View() == Applied(old(View()), f)
    {
      match f {
        case Comparator(name) => comparator := Some(name);
        case LogNumber(n) => logNumber := Some(n);
        case PrevLogNumber(n) => prevLogNumber := Some(n);
        case NextFileNumber(n) => nextFileNumber := Some(n);
        case LastSequence(n) => lastSequence := Some(n);
        case CompactPointer(level, key) => compactPointers := compactPointers + [(level, key)];
        case DeletedFile(level, n) => deletedFiles := deletedFiles + {(level, n)};
        case NewFile(level, meta) => newFiles := newFiles + [(level, meta)];
      }
    }
  }

  lemma NothingBefore(fields: seq<Field>)
    ensures [] + fields == fields
  {
  }

  /** Writes a field if the edit has it. */
  method AppendGiven(r0: Bytes, given: seq<Field>, ghost dst: Bytes, ghost done0: seq<Field>) returns (r: Bytes, ghost done: seq<Field>)
    requires r0 == dst + EncodeFields(done0) && |given| <= 1
    ensures done == done0 + given && r == dst + EncodeFields(done)
  {
    hide EncodeFields;
    r, done := r0, done0;
    if given != [] {
      r, done := AppendField(r, given[0], dst, done);
    }
  }

  method EncodePointers(r0: Bytes, ps: seq<(nat, Bytes)>, ghost dst: Bytes, ghost done0: seq<Field>) returns (r: Bytes, ghost done: seq<Field>)
    requires r0 == dst + EncodeFields(done0)
    ensures done == done0 + Pointers(ps) && r == dst + EncodeFields(done)
  {
    hide EncodeFields;
    r, done := r0, done0;
    for i := 0 to |ps|
      invariant r == dst + EncodeFields(done) && done == done0 + Pointers(ps[..i])
    {
      r, done := AppendField(r, CompactPointer(ps[i].0, ps[i].1), dst, done);
    }
    assert ps[..|ps|] == ps;
  }

  /** By level, then by number. */
  predicate ComesBefore(a: (nat, nat), b: (nat, nat)) {
    a.0 < b.0 || (a.0 == b.0 && a.1 < b.1)
  }

  ghost predicate Rising(order: seq<(nat, nat)>) {
    forall i, k :: 0 <= i < k < |order| ==> ComesBefore(order[i], order[k])
  }

  lemma NothingRises()
    ensures Rising([])
  {
  }

  lemma RisesOn(order: seq<(nat, nat)>, d: (nat, nat))
    requires Rising(order) && forall o :: o in Members(order) ==> ComesBefore(o, d)
    ensures Rising(order + [d])
  {
    forall i | 0 <= i < |order| ensures ComesBefore(order[i], d) {
      assert order[i] in Members(order);
    }
  }

  /** The file that comes first. */
  method FirstOf(files: set<(nat, nat)>) returns (first: (nat, nat))
    requires files != {}
    ensures first in files && forall d :: d in files && d != first ==> ComesBefore(first, d)
  {
    first :| first in files;
    var rest := files - {first};
    while rest != {}
      invariant first in files && rest <= files && first !in rest
      invariant forall d :: d in files && d !in rest && d != first ==> ComesBefore(first, d)
      decreases rest
    {
      var d :| d in rest;
      rest := rest - {d};
      if ComesBefore(d, first) {
        first := d;
      }
    }
  }

  method EncodeDeletions(r0: Bytes, deleted: set<(nat, nat)>, ghost dst: Bytes, ghost done0: seq<Field>)
    returns (r: Bytes, ghost done: seq<Field>, ghost order: seq<(nat, nat)>)
    requires r0 == dst + EncodeFields(done0)
    ensures Members(order) == deleted && done == done0 + Deletions(order) && r == dst + EncodeFields(done)
    ensures Rising(order)
  {
    hide EncodeFields, Members, Rising;
    MembersAppend([], (0, 0));
    NothingRises();
    r, done, order := r0, done0, [];
    var todo := deleted;
    while todo != {}
      invariant todo <= deleted && Members(order) == deleted - todo
      invariant Rising(order) && forall o, d :: o in Members(order) && d in todo ==> ComesBefore(o, d)
      invariant r == dst + EncodeFields(done) && done == done0 + Deletions(order)
      decreases todo
    {
      var d := FirstOf(todo);
      r, done := AppendField(r, DeletedFile(d.0, d.1), dst, done);
      MembersAppend(order, d);
      RisesOn(order, d);
      assert deleted - (todo - {d}) == (deleted - todo) + {d};
      order := order + [d];
      todo := todo - {d};
    }
  }

  method EncodeAdditions(r0: Bytes, fs: seq<(nat, FileMetaData)>, ghost dst: Bytes, ghost done0: seq<Field>) returns (r: Bytes, ghost done: seq<Field>)
    requires r0 == dst + EncodeFields(done0)
    ensures done == done0 + Additions(fs) && r == dst + EncodeFields(done)
  {
    hide EncodeFields;
    r, done := r0, done0;
    for i := 0 to |fs|
      invariant r == dst + EncodeFields(done) && done == done0 + Additions(fs[..i])
    {
      r, done := AppendField(r, NewFile(fs[i].0, fs[i].1), dst, done);
    }
    assert fs[..|fs|] == fs;
  }

  lemma NothingEncoded(dst: Bytes)
    ensures dst == dst + EncodeFields([])
  {
  }

  lemma NothingApplied(c: Contents)
    ensures ApplyAll(c, []) == c
  {
  }

  lemma ApplyOneMore(c: Contents, done: seq<Field>, f: Field)
    ensures ApplyAll(c, done + [f]) == Applied(ApplyAll(c, done), f)
  {
    assert (done + [f])[..|done|] == done;
  }

  method AppendField(r: Bytes, f: Field, ghost dst: Bytes, ghost done: seq<Field>) returns (r': Bytes, ghost done': seq<Field>)
    requires r == dst + EncodeFields(done)
    ensures done' == done + [f] && r' == dst + EncodeFields(done')
  {
    hide EncodeField;
    done' := done + [f];
    assert done'[..|done|] == done;
    r' := r + EncodeField(f);
  }
}
