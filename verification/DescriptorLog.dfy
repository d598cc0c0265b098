/** From the bytes of a descriptor to the version it describes. */
module DescriptorLog {
  import opened Keys
  import opened ByteNumbers
  import opened Layers
  import opened Descriptor
  import opened VersionSet
  import opened DescriptorReplay
  import TableFormat
  import LogFormat
  import LogReader
  import EditCodec

  // ---------------------------------------------------------------- internal keys

  /** An encoded internal key, as the engine sees it. */
  function KeyFrom(b: Bytes): InternalKey {
    TableFormat.KeyOf(b).Ranked()
  }

  // ---------------------------------------------------------------- records

  function MetaFrom(f: EditCodec.FileMetaData): FileMeta {
    FileMeta(f.number, f.size, KeyFrom(f.smallest), KeyFrom(f.largest))
  }

  function RecordFrom(c: EditCodec.Contents): EditRecord {
    EditRecord(c.deletedFiles,
               seq(|c.newFiles|, i requires 0 <= i < |c.newFiles| => (c.newFiles[i].0, MetaFrom(c.newFiles[i].1))),
               c.logNumber, c.nextFileNumber, c.lastSequence)
  }

  function RecordsFrom(contents: seq<EditCodec.Contents>): (edits: seq<EditRecord>)
    ensures |edits| == |contents|
  {
    seq(|contents|, i requires 0 <= i < |contents| => RecordFrom(contents[i]))
  }

  /** The bytes are an encoding of the edit; deleted files may come in any order. */
  ghost predicate Encodes(rep: Bytes, c: EditCodec.Contents) {
    exists order ::
      && EditCodec.Members(order) == c.deletedFiles
      && (forall f :: f in EditCodec.FieldsOf(c, order) ==> f.Fits())
      && rep == EditCodec.EncodeFields(EditCodec.FieldsOf(c, order))
  }

  ghost predicate EncodesAll(reps: seq<Bytes>, contents: seq<EditCodec.Contents>) {
    |reps| == |contents| && forall i :: 0 <= i < |reps| ==> Encodes(reps[i], contents[i])
  }

  ghost predicate AllFit(c: EditCodec.Contents) {
    forall order :: EditCodec.Members(order) == c.deletedFiles ==> forall f :: f in EditCodec.FieldsOf(c, order) ==> f.Fits()
  }

  /** Appends an edit to the descriptor. */
  method LogRecord(w: LogFormat.Writer, e: EditCodec.VersionEdit, ghost reps: seq<Bytes>, ghost contents: seq<EditCodec.Contents>) returns (ghost rep: Bytes)
    requires w.Ok() && AllFit(e.View())
    requires EncodesAll(reps, contents) && w.dest == LogFormat.Written(0, reps)
    modifies w
    ensures w.Ok() && EncodesAll(reps + [rep], contents + [e.View()]) && w.dest == LogFormat.Written(0, reps + [rep])
  {
    hide LogFormat.Frames, EditCodec.FieldsOf, EditCodec.EncodeFields;
    var bytes, order := e.EncodeTo([]);
    rep := bytes;
    assert rep == EditCodec.EncodeFields(EditCodec.FieldsOf(e.View(), order));
    assert Encodes(rep, e.View());
    w.AddRecord(bytes);
    LogFormat.WrittenAppend(0, reps, [rep]);
    LogFormat.WrittenOne(|LogFormat.Written(0, reps)|, rep);
  }

  /** An empty edit decodes into exactly what was encoded. */
  lemma EncodedDecodes(rep: Bytes, c: EditCodec.Contents)
    requires Encodes(rep, c)
    ensures EditCodec.ParseFields(rep).Some?
    ensures EditCodec.ApplyAll(NO_EDIT, EditCodec.ParseFields(rep).value) == c
  {
    hide EditCodec.FieldsOf, EditCodec.EncodeFields, EditCodec.ApplyAll, EditCodec.ParseFields;
    var order :|
      && EditCodec.Members(order) == c.deletedFiles
      && (forall f :: f in EditCodec.FieldsOf(c, order) ==> f.Fits())
      && rep == EditCodec.EncodeFields(EditCodec.FieldsOf(c, order));
    EditCodec.DecodeRestores(NO_EDIT, c, order);
    assert EditCodec.Cleared(NO_EDIT) == NO_EDIT;
  }

  const NO_EDIT := EditCodec.Contents(None, None, None, None, None, [], {}, [])

  /** Reads a descriptor back. Of one cut off anywhere it finds exactly the edits wholly inside. */
  method DecodeDescriptor(file: Bytes, comparator: Bytes, ghost reps: seq<Bytes>, ghost contents: seq<EditCodec.Contents>)
    returns (edits: seq<EditRecord>, ok: bool)
    requires EncodesAll(reps, contents)
    ensures file <= LogFormat.Written(0, reps) && (forall c :: c in contents ==> c.comparator.Some? ==> c.comparator.value == comparator)
      ==> ok && edits == RecordsFrom(contents)[..LogReader.WhollyInside(0, reps, |file|)]
  {
    hide LogFormat.Written, LogReader.WhollyInside, EditCodec.ApplyAll, EditCodec.ParseFields, EditCodec.Cleared, Encodes, RecordFrom;
    var read, drops := LogReader.ReadLog(file, true, reps);
    edits, ok := [], drops == 0;
    ghost var whole := file <= LogFormat.Written(0, reps) && forall c :: c in contents ==> c.comparator.Some? ==> c.comparator.value == comparator;
    for i := 0 to |read|
      invariant whole ==> ok && edits == RecordsFrom(contents)[..i]
    {
      var edit := new EditCodec.VersionEdit();
      ClearedIsEmpty();
      if whole {
        EncodedDecodes(reps[i], contents[i]);
        assert contents[i] in contents;
        assert RecordsFrom(contents)[..i + 1] == RecordsFrom(contents)[..i] + [RecordFrom(contents[i])];
      }
      var msg := edit.DecodeFrom(read[i]);
      if msg.Some? || (edit.comparator.Some? && edit.comparator.value != comparator) {
        return edits, false;
      }
      edits := edits + [RecordFrom(edit.View())];
    }
  }

  lemma ClearedIsEmpty()
    ensures EditCodec.Cleared(NO_EDIT) == NO_EDIT
  {
  }

  /** Opening a database from the bytes of its descriptor and its table files rebuilds the
    * version the descriptor describes. */
  method RecoverVersion(file: Bytes, comparator: Bytes, files: TableFiles, ghost reps: seq<Bytes>, ghost contents: seq<EditCodec.Contents>,
                        ghost levels: seq<set<Table>>, ghost next: nat)
    returns (r: Option<Replayed>)
    requires EncodesAll(reps, contents) && file == LogFormat.Written(0, reps)
    requires forall c :: c in contents ==> c.comparator.Some? ==> c.comparator.value == comparator
    requires Describes(RecordsFrom(contents), files, levels, next)
    ensures r.Some? <==> Manifest(RecordsFrom(contents)).Complete()
    ensures r.Some? ==> Sets(r.value.version) == levels
    ensures r.Some? ==> var m := Manifest(RecordsFrom(contents));
      r.value.logNumber == m.LogNumber() && r.value.nextFile == m.NextFile() && r.value.last == m.Last()
  {
    hide LogFormat.Written, EncodesAll, Described, OneFileANumber, NumbersBelow, RecordLevels;
    var edits, ok := DecodeDescriptor(file, comparator, reps, contents);
    EverythingInside(reps);
    assert EncodesAll(reps, contents) ==> |reps| == |contents| by { SameCount(reps, contents); }
    assert edits == RecordsFrom(contents);
    ReplayIsDescribed(edits, files, levels, next);
    r := ReplayDescriptor(edits, files);
  }

  lemma SameCount(reps: seq<Bytes>, contents: seq<EditCodec.Contents>)
    requires EncodesAll(reps, contents)
    ensures |reps| == |contents|
  {
  }

  lemma EverythingInside(reps: seq<Bytes>)
    ensures LogReader.WhollyInside(0, reps, |LogFormat.Written(0, reps)|) == |reps|
  {
    LogReader.WhollyInsideIs(0, reps, |LogFormat.Written(0, reps)|, |reps|);
    assert reps[..|reps|] == reps;
  }
}
