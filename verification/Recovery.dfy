/** A crash followed by recovery keeps the invariant, every entry and the last sequence number. */
module Recovery {
  import opened Keys
  import opened Layers
  import opened Compaction
  import opened VersionEdits
  import opened Descriptor
  import opened History
  import opened Engine
  import opened EngineInvariant

  ghost predicate RisingNumbers(recovered: Files, lo: nat) {
    && (forall i :: 0 <= i < |recovered| ==> lo <= recovered[i].number)
    && (forall i, k :: 0 <= i < k < |recovered| ==> recovered[i].number < recovered[k].number)
  }

  lemma RecoveredContents(levels: seq<set<Table>>, recovered: Files, ends: seq<nat>, history: seq<Op>, from: nat)
    requires |levels| == NUM_LEVELS && from <= |history| && Partition(history, recovered, ends, from)
    ensures InLevels(WithRecovered(levels, recovered)) == InLevels(levels) + EntriesOf(history, from, |history|)
  {
    var levels' := WithRecovered(levels, recovered);
    forall e | e in InLevels(levels')
      ensures e in InLevels(levels) || e in EntriesOf(history, from, |history|)
    {
      var l, t: Table :| 0 <= l < |levels'| && t in levels'[l] && e in t.entries;
      if t !in levels[l] {
        var i :| 0 <= i < |recovered| && recovered[i] == t;
        assert PartAt(history, t, ends, i) && e in Elements(t.entries);
        EntriesWithin(history, ends[i], ends[i + 1], from);
      }
    }
    forall e | e in InLevels(levels)
      ensures e in InLevels(levels')
    {
      var l, t: Table :| 0 <= l < |levels| && t in levels[l] && e in t.entries;
      assert t in levels'[l];
    }
    forall n | from < n <= |history|
      ensures EntryOf(history, n) in InLevels(levels')
    {
      var i := PartOf(history, recovered, ends, from, n);
      assert PartAt(history, recovered[i], ends, i);
      assert EntryOf(history, n) in Elements(recovered[i].entries);
      assert recovered[i] in levels'[0];
    }
  }

  lemma EntriesWithin(history: seq<Op>, i: nat, j: nat, from: nat)
    requires from <= i <= j <= |history|
    ensures EntriesOf(history, i, j) <= EntriesOf(history, from, |history|)
  {
  }

  /** Every operation after `from` falls in some part. */
  lemma {:induction false} PartOf(history: seq<Op>, recovered: Files, ends: seq<nat>, from: nat, n: nat) returns (i: nat)
    requires Partition(history, recovered, ends, from) && from < n <= |history|
    ensures i < |recovered| && ends[i] < n <= ends[i + 1]
  {
    i := 0;
    while ends[i + 1] < n
      invariant i < |recovered| && ends[i] < n
      decreases |recovered| - i
    {
      i := i + 1;
    }
  }

  lemma RecoveredKeepShape(levels: seq<set<Table>>, recovered: Files, lo: nat)
    requires Shaped(levels) && NumbersUnique(levels) && RisingNumbers(recovered, lo)
    requires forall i :: 0 <= i < |recovered| ==> recovered[i].Valid()
    requires forall l, t :: 0 <= l < |levels| && t in levels[l] ==> t.number < lo
    ensures Shaped(WithRecovered(levels, recovered)) && NumbersUnique(WithRecovered(levels, recovered))
  {
    var levels' := WithRecovered(levels, recovered);
    forall l, k, f: Table, g: Table | 0 <= l < |levels'| && 0 <= k < |levels'| && f in levels'[l] && g in levels'[k] && f.number == g.number
      ensures l == k && f == g
    {
      assert f in levels[l] || (l == 0 && f in recovered);
      assert g in levels[k] || (k == 0 && g in recovered);
    }
  }

  /** An entry found after recovery was in a table before, or was replayed from a log. */
  lemma PlacesAfterRecovery(levels: seq<set<Table>>, recovered: Files, p: Place, e: Entry) returns (i: nat)
    requires |levels| == NUM_LEVELS
    requires At(Store({}, {}, WithRecovered(levels, recovered)), p, e)
    ensures At(Store({}, {}, levels), p, e)
      || (i < |recovered| && p == Level0(recovered[i].number) && e in recovered[i].entries)
  {
    i := 0;
    if !At(Store({}, {}, levels), p, e) {
      assert p.Level0?;
      var t :| t in WithRecovered(levels, recovered)[0] && t.number == p.number && e in t.entries;
      i :| 0 <= i < |recovered| && recovered[i] == t;
    }
  }

  lemma PartSequences(history: seq<Op>, recovered: Files, ends: seq<nat>, from: nat, i: nat, e: Entry)
    requires Partition(history, recovered, ends, from) && i < |recovered| && e in recovered[i].entries
    ensures from <= ends[i] < e.key.seqno <= ends[i + 1]
  {
    assert PartAt(history, recovered[i], ends, i);
    assert e in Elements(recovered[i].entries);
  }

  lemma RecoveredPair(levels: seq<set<Table>>, recovered: Files, lo: nat, history: seq<Op>, ends: seq<nat>, from: nat,
                      p: Place, q: Place, a: Entry, b: Entry)
    requires |levels| == NUM_LEVELS && Layered(Store({}, {}, levels)) && RisingNumbers(recovered, lo)
    requires forall t :: t in levels[0] ==> t.number < lo
    requires from <= |history| && InLevels(levels) <= EntriesOf(history, 0, from) && Partition(history, recovered, ends, from)
    requires At(Store({}, {}, WithRecovered(levels, recovered)), p, a) && At(Store({}, {}, WithRecovered(levels, recovered)), q, b)
    requires Above(p, q) && a.key.user == b.key.user
    ensures a.key.seqno > b.key.seqno
  {
    var past := Store({}, {}, levels);
    var i := PlacesAfterRecovery(levels, recovered, p, a);
    var k := PlacesAfterRecovery(levels, recovered, q, b);
    if At(past, p, a) && At(past, q, b) {
    } else if At(past, q, b) {
      AtIsSomewhere(past, q, b);
      PartSequences(history, recovered, ends, from, i, a);
    } else if !At(past, p, a) {
      PartSequences(history, recovered, ends, from, i, a);
      PartSequences(history, recovered, ends, from, k, b);
      assert i > k;
    }
  }

  lemma RecoveredLayers(levels: seq<set<Table>>, recovered: Files, lo: nat, history: seq<Op>, ends: seq<nat>, from: nat)
    requires |levels| == NUM_LEVELS && Layered(Store({}, {}, levels)) && RisingNumbers(recovered, lo)
    requires forall t :: t in levels[0] ==> t.number < lo
    requires from <= |history| && InLevels(levels) <= EntriesOf(history, 0, from) && Partition(history, recovered, ends, from)
    ensures Layered(Store({}, {}, WithRecovered(levels, recovered)))
  {
    var st := Store({}, {}, WithRecovered(levels, recovered));
    forall p, q, a, b | At(st, p, a) && At(st, q, b) && Above(p, q) && a.key.user == b.key.user
      ensures a.key.seqno > b.key.seqno
    {
      RecoveredPair(levels, recovered, lo, history, ends, from, p, q, a, b);
    }
  }

  lemma TablesAloneLayered(st: Store)
    requires Layered(st)
    ensures Layered(Store({}, {}, st.levels))
  {
    forall p, q, a, b | At(Store({}, {}, st.levels), p, a) && At(Store({}, {}, st.levels), q, b) && Above(p, q) && a.key.user == b.key.user
      ensures a.key.seqno > b.key.seqno
    {
      assert At(st, p, a) && At(st, q, b);
    }
  }

  /** Replaying the descriptor gives the version that was live before the crash. */
  lemma ReplayIsLive(s: State)
    requires StoreInv(s) && DiskInv(s)
    ensures ReplayedLevels(s.disk.manifest.edits, s.disk.tables) == s.store.levels
  {
    hide Describes, LogsDurable, TablesDurable, WellFormed, EntriesOf;
    ReplayIsDescribed(s.disk.manifest.edits, s.disk.tables, s.store.levels, s.disk.manifest.NextFile());
  }

  lemma ReopenKeepsStore(s: State, listed: seq<(nat, Table)>, recovered: Files, cuts: seq<nat>, newLog: nat)
    requires StoreInv(s) && DiskInv(s) && Enabled(s, Reopen(listed, recovered, cuts, newLog))
    ensures var s' := Reopened(s, listed, recovered, newLog);
      StoreInv(s') && s'.last == s.last && All(s'.store) == All(s.store)
  {
    hide Describes;
    var s' := Reopened(s, listed, recovered, newLog);
    ReplayIsLive(s);
    var levels, records, lo := s.store.levels, ReplayedRecords(s.disk, newLog), s.disk.manifest.NextFile() + 1;
    ReplayedRecordsHold(s, newLog);
    MaxSequenceIs(records, s.history, s.immStart, s.last, s.disk.manifest.Last());
    var ends := RecoveredPartition(records, recovered, cuts, lo, newLog, s.history, s.immStart);
    forall i | 0 <= i < |recovered| ensures recovered[i].Valid() {
      assert RecoveredTable(recovered[i], records, cuts, i);
    }
    RecoveredContents(levels, recovered, ends, s.history, s.immStart);
    RecoveredKeepShape(levels, recovered, lo);
    TablesAloneLayered(s.store);
    RecoveredLayers(levels, recovered, lo, s.history, ends, s.immStart);
    Provenance(s);
  }

  lemma RecoveredDurable(levels: seq<set<Table>>, nextFile: nat, tables: TableFiles, recovered: Files, next: nat)
    requires |levels| == NUM_LEVELS && TablesDurable(levels, nextFile, tables) && nextFile <= next
    requires RisingNumbers(recovered, nextFile)
    requires forall i :: 0 <= i < |recovered| ==> recovered[i].number < next
    ensures TablesDurable(WithRecovered(levels, recovered), next, tables + RecoveredFiles(recovered))
  {
    var levels' := WithRecovered(levels, recovered);
    var added := RecoveredFiles(recovered);
    forall l, t: Table | 0 <= l < |levels'| && t in levels'[l]
      ensures t.number < next && t.number in tables + added && (tables + added)[t.number] == t.entries
    {
      assert t in levels[l] || t in recovered;
    }
  }

  /** The new descriptor: a snapshot and one edit. */
  lemma NewDescriptor(levels: seq<set<Table>>, next: nat, files: TableFiles, listed: seq<(nat, Table)>, recovered: Files, newLog: nat, last: nat)
    requires |levels| == NUM_LEVELS && NumbersUnique(levels) && TablesDurable(levels, next, files)
    requires Lists(listed, levels) && RisingNumbers(recovered, next) && next <= newLog
    requires forall i :: 0 <= i < |recovered| ==> recovered[i].number < newLog
    ensures Describes(LogEdit(Manifest([Snapshot(listed)]), AddedFiles(0, recovered), newLog, newLog + 1, last).edits,
      files + RecoveredFiles(recovered), WithRecovered(levels, recovered), newLog + 1)
  {
    var all, e := files + RecoveredFiles(recovered), AddedFiles(0, recovered);
    RecoveredKnown(levels, next, files, recovered, newLog);
    hide Describes, AddedFiles, AddsKnown, AddsWritten, Edited, WithRecovered, NumbersUnique, Lists, Holding, RecoveredFiles, TablesDurable;
    SnapshotDescribes(listed, all, levels, next);
    EditedByRecovery(levels, recovered);
    DescribesAfterEdit([Snapshot(listed)], RecordOf(e, newLog, newLog + 1, last), e, all, levels, next, newLog + 1);
  }

  /** The recovered tables are on disk under new numbers, and the old ones still are. */
  lemma RecoveredKnown(levels: seq<set<Table>>, next: nat, files: TableFiles, recovered: Files, newLog: nat)
    requires |levels| == NUM_LEVELS && TablesDurable(levels, next, files) && RisingNumbers(recovered, next)
    requires forall i :: 0 <= i < |recovered| ==> recovered[i].number < newLog
    ensures Holding(levels, files + RecoveredFiles(recovered))
    ensures AddsKnown(AddedFiles(0, recovered), levels, next, newLog + 1) && AddsWritten(AddedFiles(0, recovered), files + RecoveredFiles(recovered))
    ensures forall l, t :: 0 <= l < |levels| && t in levels[l] ==> t.number < next
    ensures forall f, t :: f in levels[0] && t in recovered ==> f.number != t.number
  {
    hide AddedFiles, AddsKnown, AddsWritten, Holding;
    DurableIsHeld(levels, next, files, RecoveredFiles(recovered));
    AddedFilesKnown(levels, 0, recovered, files + RecoveredFiles(recovered), next, newLog + 1);
  }

  lemma ReopenKeepsDisk(s: State, listed: seq<(nat, Table)>, recovered: Files, newLog: nat)
    requires StoreInv(s) && DiskInv(s) && Lists(listed, s.store.levels)
    requires RisingNumbers(recovered, s.disk.manifest.NextFile() + 1) && s.disk.manifest.NextFile() < newLog
    requires forall i :: 0 <= i < |recovered| ==> recovered[i].number < newLog
    requires forall n :: n in s.disk.logs ==> n < newLog
    requires MaxSequence(ReplayedRecords(s.disk, newLog), s.disk.manifest.Last()) == |s.history|
    ensures DiskInv(Reopened(s, listed, recovered, newLog))
  {
    hide Describes, TablesDurable, MaxSequence, Concat, Layered, TablesValid, LevelsDisjoint, NumbersUnique, EntriesOf, InLevels, WithRecovered;
    var m := s.disk.manifest;
    ReplayIsLive(s);
    RecoveredDurable(s.store.levels, m.NextFile(), s.disk.tables, recovered, newLog + 1);
    NewDescriptor(s.store.levels, m.NextFile(), s.disk.tables, listed, recovered, newLog, |s.history|);
  }

  lemma ReopenKeepsFaithful(s: State, s': State)
    requires s.last == |s.history| == s'.last && s'.history == s.history && s'.snapshots == []
    requires SnapshotsInv(s) && Faithful(s) && All(s'.store) == All(s.store)
    ensures Faithful(s')
  {
    FaithfulBySameReads(s, s');
  }

  lemma ReopenKeepsInv(s: State, listed: seq<(nat, Table)>, recovered: Files, cuts: seq<nat>, newLog: nat)
    requires Inv(s) && Enabled(s, Reopen(listed, recovered, cuts, newLog))
    ensures Inv(Apply(s, Reopen(listed, recovered, cuts, newLog)))
  {
    ReplayIsLive(s);
    ReopenKeepsStore(s, listed, recovered, cuts, newLog);
    ReopenKeepsDisk(s, listed, recovered, newLog);
    ReopenKeepsFaithful(s, Reopened(s, listed, recovered, newLog));
  }
}
