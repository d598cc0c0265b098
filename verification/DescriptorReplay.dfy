/** Reading a descriptor back: every record goes through one builder, which saves once. */
module DescriptorReplay {
  import opened Keys
  import opened Layers
  import opened VersionEdits
  import opened Descriptor
  import opened VersionSet
  import opened VersionBuilder

  datatype Replayed = Replayed(version: seq<Files>, logNumber: nat, nextFile: nat, last: nat)

  /** A file number names one file also among those a builder already holds. */
  lemma NextEditAgrees(edits: seq<EditRecord>, files: TableFiles, i: nat, l: nat, added: Files)
    requires OneFileANumber(edits) && i < |edits|
    requires SetOf(added) == AccumulateAll(NOTHING, l, AsEdits(edits, files)[..i]).added
    ensures SameFileSameNumber(added, AsEdit(edits[i], files))
  {
    hide Names;
    var e := AsEdit(edits[i], files);
    forall f, a | f in added && a in e.added && f.number == a.1.number ensures f == a.1 {
      assert f in SetOf(added) && a.1 in AddedAt(e, a.0);
      var m := AccumulatedWasNamed(edits, i, l, files, f);
      var o := AddedWasNamed(edits, i, a.0, files, a.1);
    }
    forall a, b | a in e.added && b in e.added && a.1.number == b.1.number ensures a.1 == b.1 {
      assert a.1 in AddedAt(e, a.0) && b.1 in AddedAt(e, b.0);
      var m := AddedWasNamed(edits, i, a.0, files, a.1);
      var o := AddedWasNamed(edits, i, b.0, files, b.1);
    }
  }

  lemma EditLevelsOf(r: EditRecord, files: TableFiles)
    requires RecordLevels(r)
    ensures forall a :: a in AsEdit(r, files).added ==> a.0 < NUM_LEVELS
  {
    forall a | a in AsEdit(r, files).added ensures a.0 < NUM_LEVELS {
      var i :| 0 <= i < |r.added| && LoadAll(r.added, files)[i] == a;
      assert r.added[i] in r.added;
    }
  }

  /** The version of all records together, and the last value given for each counter. */
  method ReplayDescriptor(edits: seq<EditRecord>, files: TableFiles) returns (r: Option<Replayed>)
    requires OneFileANumber(edits) && forall x :: x in edits ==> RecordLevels(x)
    ensures r.Some? <==> Manifest(edits).Complete()
    ensures r.Some? ==> Sets(r.value.version) == ReplayedLevels(edits, files)
    ensures r.Some? ==> forall l :: 0 <= l < |r.value.version| ==> Ascending(r.value.version[l])
    ensures r.Some? ==> var m := Manifest(edits);
      r.value.logNumber == m.LogNumber() && r.value.nextFile == m.NextFile() && r.value.last == m.Last()
  {
    hide OneFileANumber, RecordLevels, SameFileSameNumber, Ascending, AsEdit;
    ghost var all := AsEdits(edits, files);
    var empty: seq<Files> := seq(NUM_LEVELS, _ => []);
    NothingAscends();
    var builder := new Builder(empty);
    var logNumber, nextFile, last := None, None, None;
    var i := 0;
    while i < |edits|
      invariant i <= |edits| && builder.Ok() && builder.base == empty
      invariant forall l :: 0 <= l < NUM_LEVELS ==> builder.At(l) == AccumulateAll(NOTHING, l, all[..i])
      invariant logNumber == GivenLogNumber(edits[..i])
      invariant nextFile == GivenNextFile(edits[..i])
      invariant last == GivenLast(edits[..i])
    {
      var e := AsEdit(edits[i], files);
      assert edits[i] in edits;
      EditLevelsOf(edits[i], files);
      RecordDeletes(edits[i], files);
      forall l | 0 <= l < NUM_LEVELS ensures SameFileSameNumber(builder.added[l], e) {
        assert builder.At(l) == AccumulateAll(NOTHING, l, all[..i]);
        NextEditAgrees(edits, files, i, l, builder.added[l]);
      }
      builder.Apply(e);
      assert all[..i + 1][..i] == all[..i] && edits[..i + 1][..i] == edits[..i];
      logNumber, nextFile, last := Later(logNumber, edits[i].logNumber), Later(nextFile, edits[i].nextFile), Later(last, edits[i].last);
      i := i + 1;
    }
    assert all[..|edits|] == all && edits[..|edits|] == edits;
    if logNumber.None? || nextFile.None? || last.None? {
      return None;
    }
    var version := builder.SaveTo();
    ReplayedSets(edits, files, version);
    r := Some(Replayed(version, logNumber.value, nextFile.value, last.value));
  }

  lemma ReplayedSets(edits: seq<EditRecord>, files: TableFiles, version: seq<Files>)
    requires |version| == NUM_LEVELS
    requires forall l :: 0 <= l < NUM_LEVELS ==> SetOf(version[l]) == ReplayedLevel(edits, l, files)
    ensures Sets(version) == ReplayedLevels(edits, files)
  {
  }

  lemma RecordDeletes(r: EditRecord, files: TableFiles)
    requires RecordLevels(r)
    ensures forall d :: d in AsEdit(r, files).deleted ==> d.0 < NUM_LEVELS
  {
  }

  lemma NothingAscends()
    ensures Ascending([])
  {
  }
}
