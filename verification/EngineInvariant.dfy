/** Every action of the engine keeps its invariant. */
module EngineInvariant {
  import opened Keys
  import opened Layers
  import opened Compaction
  import opened VersionEdits
  import opened Descriptor
  import opened History
  import opened Engine

  /** Everything stored was committed. */
  lemma Provenance(s: State)
    requires StoreInv(s)
    ensures All(s.store) <= EntriesOf(s.history, 0, s.last)
    ensures All(s.store) == InLevels(s.store.levels) + EntriesOf(s.history, s.immStart, s.last)
    ensures UniqueSequences(All(s.store))
  {
    EntriesSplit(s.history, 0, s.immStart, s.last);
    EntriesSplit(s.history, s.immStart, s.memStart, s.last);
    HistoryIsUnique(s.history, All(s.store));
  }

  /** Same history and same contents above the oldest reader: still faithful. */
  lemma FaithfulBySameReads(s: State, s': State)
    requires s.last == |s.history| && Faithful(s)
    requires s'.history == s.history && s'.last == s.last && Oldest(s) <= Oldest(s')
    requires SameReads(All(s'.store), All(s.store), Oldest(s))
    ensures Faithful(s')
  {
  }

  lemma SameContentsSameReads(a: set<Entry>, b: set<Entry>, smallest: nat)
    requires a == b
    ensures SameReads(b, a, smallest)
  {
  }

  // ---------------------------------------------------------------- logs

  lemma {:induction false} HoldsAppend(records: seq<Record>, history: seq<Op>, from: nat, to: nat, r: Record)
    requires from <= to <= |history| && Holds(records, history, from, to) && r.first == to + 1
    ensures Holds(records + [r], history + r.ops, from, to + |r.ops|) || |history| != to
  {
    if |history| == to {
      var h := history + r.ops;
      if records == [] {
        assert ([] + [r])[1..] == [];
        assert h[from..from + |r.ops|] == r.ops;
      } else {
        var mid := from + |records[0].ops|;
        HoldsAppend(records[1..], history, mid, to, r);
        assert (records + [r])[1..] == records[1..] + [r];
        assert h[from..mid] == history[from..mid];
      }
    }
  }

  lemma {:induction false} HoldsExtend(records: seq<Record>, history: seq<Op>, more: seq<Op>, from: nat, to: nat)
    requires from <= to <= |history| && Holds(records, history, from, to)
    ensures Holds(records, history + more, from, to)
  {
    if records != [] {
      var mid := from + |records[0].ops|;
      HoldsExtend(records[1..], history, more, mid, to);
      assert (history + more)[from..mid] == history[from..mid];
    }
  }

  lemma {:induction false} HoldsConcat(a: seq<Record>, b: seq<Record>, history: seq<Op>, from: nat, mid: nat, to: nat)
    requires from <= mid <= to <= |history| && Holds(a, history, from, mid) && Holds(b, history, mid, to)
    ensures Holds(a + b, history, from, to)
  {
    if a == [] {
      assert a + b == b;
    } else {
      HoldsConcat(a[1..], b, history, from + |a[0].ops|, mid, to);
      assert (a + b)[1..] == a[1..] + b;
    }
  }

  function OpsBefore(records: seq<Record>, k: nat): nat
    requires k <= |records|
  {
    if k == 0 then 0 else |records[0].ops| + OpsBefore(records[1..], k - 1)
  }

  /** A prefix of the records ends between two operations; the rest goes on from there. */
  lemma {:induction false} HoldsSplit(records: seq<Record>, k: nat, history: seq<Op>, from: nat, to: nat)
    requires from <= to <= |history| && Holds(records, history, from, to) && k <= |records|
    ensures from + OpsBefore(records, k) <= to
    ensures Holds(records[..k], history, from, from + OpsBefore(records, k))
    ensures Holds(records[k..], history, from + OpsBefore(records, k), to)
  {
    if k == 0 {
      assert records[0..] == records;
    } else {
      HoldsSplit(records[1..], k - 1, history, from + |records[0].ops|, to);
      assert records[..k][1..] == records[1..][..k - 1];
      assert records[k..] == records[1..][k - 1..];
    }
  }

  lemma {:induction false} OpsBeforeAdds(records: seq<Record>, i: nat, j: nat)
    requires i <= j <= |records|
    ensures OpsBefore(records, j) == OpsBefore(records, i) + OpsBefore(records[i..], j - i)
  {
    if i == 0 {
      assert records[0..] == records;
    } else {
      OpsBeforeAdds(records[1..], i - 1, j - 1);
      assert records[1..][i - 1..] == records[i..];
    }
  }

  /** One record inserts exactly the operations it logged. */
  lemma RecordIs(r: Record, history: seq<Op>, from: nat)
    requires r.first == from + 1 && from + |r.ops| <= |history| && history[from..from + |r.ops|] == r.ops
    ensures RecordEntries(r) == EntriesOf(history, from, from + |r.ops|)
  {
    forall k | 0 <= k < |r.ops|
      ensures OpEntry(r, k) == EntryOf(history, from + 1 + k)
    {
      assert history[from..from + |r.ops|][k] == history[from + k];
    }
    forall n | from < n <= from + |r.ops|
      ensures EntryOf(history, n) in RecordEntries(r)
    {
      assert EntryOf(history, n) == OpEntry(r, n - from - 1);
    }
  }

  /** Replaying the records inserts exactly the operations they hold. */
  lemma {:induction false} ReplayedAre(records: seq<Record>, history: seq<Op>, from: nat, to: nat)
    requires from <= to <= |history| && Holds(records, history, from, to)
    ensures ReplayedEntries(records) == EntriesOf(history, from, to)
  {
    hide EntriesOf, RecordEntries;
    if records == [] {
      EntriesEmpty(history, from, to);
    } else {
      var r, mid := records[0], from + |records[0].ops|;
      RecordIs(r, history, from);
      ReplayedAre(records[1..], history, mid, to);
      EntriesSplit(history, from, mid, to);
    }
  }

  /** Recovery counts up to the last operation held. */
  lemma {:induction false} MaxSequenceIs(records: seq<Record>, history: seq<Op>, from: nat, to: nat, last: nat)
    requires from <= to <= |history| && Holds(records, history, from, to) && last <= to
    ensures last <= MaxSequence(records, last) <= to
    ensures from < to ==> MaxSequence(records, last) == to
  {
    if records != [] {
      var mid := from + |records[0].ops|;
      MaxSequenceIs(records[1..], history, mid, to, if mid > last then mid else last);
    }
  }

  // ---------------------------------------------------------------- write

  lemma WriteKeepsStore(s: State, ops: seq<Op>)
    requires StoreInv(s) && Enabled(s, Write(ops))
    ensures StoreInv(Apply(s, Write(ops)))
    ensures All(Apply(s, Write(ops)).store) == All(s.store) + EntriesOf(s.history + ops, s.last, s.last + |ops|)
  {
    var history := s.history + ops;
    Provenance(s);
    InsertKeepsLayers(s.store, EntriesOf(history, s.last, |history|), s.last);
    EntriesExtend(s.history, ops, s.memStart, s.last);
    EntriesExtend(s.history, ops, s.immStart, s.memStart);
    EntriesExtend(s.history, ops, 0, s.immStart);
    EntriesSplit(history, s.memStart, s.last, |history|);
  }

  lemma ReadsAfterWrite(history: seq<Op>, ops: seq<Op>, store: set<Entry>, u: UserKey, n: nat)
    requires store <= EntriesOf(history, 0, |history|) && n <= |history + ops|
    requires var k := if n <= |history| then n else |history|; Reads(store, u, k) == Replay(history, u, k)
    ensures Reads(store + EntriesOf(history + ops, |history|, |history + ops|), u, n) == Replay(history + ops, u, n)
  {
    var history', k := history + ops, if n <= |history| then n else |history|;
    var added := EntriesOf(history', |history|, |history'|);
    EntriesExtend(history, ops, 0, |history|);
    EntriesSplit(history', 0, |history|, |history'|);
    HistoryIsUnique(history', store + added);
    NewerEntriesInvisible(store, added, u, k);
    ReplayExtends(history, ops, u, k);
    if n > k {
      ReadsFollowReplay(history', store + added, k, u, n);
    }
  }

  lemma FaithfulAfterWrite(s: State, s': State, ops: seq<Op>)
    requires s.last == |s.history| && SnapshotsInv(s) && Faithful(s)
    requires s'.history == s.history + ops && s'.last == |s'.history| && s'.snapshots == s.snapshots
    requires All(s.store) <= EntriesOf(s.history, 0, |s.history|)
    requires All(s'.store) == All(s.store) + EntriesOf(s'.history, s.last, s'.last)
    ensures Faithful(s')
  {
    forall u, n | Oldest(s') <= n <= s'.last
      ensures Reads(All(s'.store), u, n) == Replay(s'.history, u, n)
    {
      ReadsAfterWrite(s.history, ops, All(s.store), u, n);
    }
  }

  lemma WriteKeepsDisk(s: State, ops: seq<Op>)
    requires StoreInv(s) && DiskInv(s) && Enabled(s, Write(ops))
    ensures DiskInv(Apply(s, Write(ops)))
  {
    var s' := Apply(s, Write(ops));
    var log := s.disk.logs[s.memLog];
    HoldsAppend(log, s.history, s.memStart, s.last, Record(s.last + 1, ops));
    if s.hasImm {
      HoldsExtend(s.disk.logs[s.disk.manifest.LogNumber()], s.history, ops, s.immStart, s.memStart);
    }
  }

  lemma WriteKeepsInv(s: State, ops: seq<Op>)
    requires Inv(s) && Enabled(s, Write(ops))
    ensures Inv(Apply(s, Write(ops)))
  {
    WriteKeepsStore(s, ops);
    Provenance(s);
    FaithfulAfterWrite(s, Apply(s, Write(ops)), ops);
    WriteKeepsDisk(s, ops);
  }

  // ---------------------------------------------------------------- the descriptor

  lemma DurableIsHeld(levels: seq<set<Table>>, next: nat, files: TableFiles, more: TableFiles)
    requires TablesDurable(levels, next, files) && forall n :: n in more ==> n >= next
    ensures Holding(levels, files + more)
  {
  }

  /** Logging an edit keeps the descriptor in step with the version. */
  lemma DescriptorAfterInstall(m: Manifest, files: TableFiles, more: TableFiles, levels: seq<set<Table>>, e: Edit, logNumber: nat, next: nat, last: nat)
    requires Describes(m.edits, files, levels, m.NextFile()) && m.NextFile() <= next
    requires TablesDurable(levels, m.NextFile(), files) && forall n :: n in more ==> n >= m.NextFile()
    requires AddsWritten(e, files + more) && AddsKnown(e, levels, m.NextFile(), next)
    ensures Describes(LogEdit(m, e, logNumber, next, last).edits, files + more, Edited(levels, e), next)
  {
    hide Describes, AddsWritten, AddsKnown, TablesDurable, Edited, Manifest.NextFile;
    DurableIsHeld(levels, m.NextFile(), files, more);
    DescribesAfterFileChange(m.edits, files, files + more, levels, m.NextFile(), m.NextFile());
    DescribesAfterEdit(m.edits, RecordOf(e, logNumber, next, last), e, files + more, levels, m.NextFile(), next);
  }

  lemma AddedFilesKnown(levels: seq<set<Table>>, l: nat, added: Files, files: TableFiles, next: nat, next': nat)
    requires l < NUM_LEVELS
    requires forall t :: t in added ==> t.number < next' && t.number in files && files[t.number] == t.entries
    requires forall t :: t in added ==> t.number >= next || exists k :: 0 <= k < |levels| && t in levels[k]
    requires forall t, u :: t in added && u in added && t.number == u.number ==> t == u
    ensures AddsKnown(AddedFiles(l, added), levels, next, next') && AddsWritten(AddedFiles(l, added), files)
  {
    forall a | a in AddedFiles(l, added).added ensures a.0 == l && a.1 in added {
      var i :| 0 <= i < |added| && AddedFiles(l, added).added[i] == a;
    }
  }

  lemma CompactionFilesKnown(levels: seq<set<Table>>, j: Job, added: Files, files: TableFiles, next: nat, next': nat)
    requires j.level + 1 < NUM_LEVELS
    requires AddsKnown(AddedFiles(j.level + 1, added), levels, next, next') && AddsWritten(AddedFiles(j.level + 1, added), files)
    ensures AddsKnown(CompactionEdit(j.level, j.upper, j.lower, added), levels, next, next')
    ensures AddsWritten(CompactionEdit(j.level, j.upper, j.lower, added), files)
  {
  }

  // ---------------------------------------------------------------- switch and flush

  lemma SwitchKeepsInv(s: State)
    requires Inv(s) && Enabled(s, Switch)
    ensures Inv(Apply(s, Switch))
  {
    var s' := Apply(s, Switch);
    assert s.store.imm == {};
    SwitchKeepsLayers(s.store);
    FaithfulBySameReads(s, s');
  }

  lemma FlushNothingKeepsInv(s: State)
    requires Inv(s) && Enabled(s, FlushNothing)
    ensures Inv(Apply(s, FlushNothing))
  {
    var s' := Apply(s, FlushNothing);
    assert s'.store == s.store;
    EntriesSplit(s.history, 0, s.immStart, s.memStart);
    FaithfulBySameReads(s, s');
    FlushNothingDescribed(s);
  }

  lemma FlushNothingDescribed(s: State)
    requires StoreInv(s) && DiskInv(s) && Enabled(s, FlushNothing)
    ensures var s' := Apply(s, FlushNothing);
      Describes(s'.disk.manifest.edits, s'.disk.tables, s'.store.levels, s'.nextFile)
  {
    hide Describes, TablesDurable, LogsDurable, WellFormed, EntriesOf, Edited;
    EditedByNothing(s.store.levels);
    DescriptorAfterInstall(s.disk.manifest, s.disk.tables, map[], s.store.levels, Edit({}, []), s.memLog, s.nextFile + 1, s.last);
    assert s.disk.tables + map[] == s.disk.tables;
  }

  lemma FlushKeepsStore(s: State, t: Table, l: nat)
    requires StoreInv(s) && Enabled(s, Flush(t, l))
    ensures StoreInv(Apply(s, Flush(t, l)))
    ensures All(Apply(s, Flush(t, l)).store) == All(s.store)
  {
    FlushKeepsLayers(s.store, t, l);
    AddedTableKeepsShape(s.store.levels, t, l);
    EntriesSplit(s.history, 0, s.immStart, s.memStart);
    assert Apply(s, Flush(t, l)).store == FlushTo(s.store, t, l);
  }

  lemma FlushKeepsTables(levels: seq<set<Table>>, nextFile: nat, tables: TableFiles, t: Table, l: nat)
    requires TablesDurable(levels, nextFile, tables) && t.number >= nextFile && l < |levels|
    ensures TablesDurable(AddTo(levels, l, t), t.number + 1, tables + map[t.number := t.entries])
  {
  }

  lemma FlushKeepsDisk(s: State, t: Table, l: nat)
    requires StoreInv(s) && DiskInv(s) && Enabled(s, Flush(t, l))
    ensures DiskInv(Apply(s, Flush(t, l)))
  {
    hide Layered, NumbersUnique, TablesValid, LevelsDisjoint, EntriesOf, InLevels, Describes, Table.Valid, Holds, TablesDurable, AddTo, AddedFiles, Elements;
    FlushKeepsTables(s.store.levels, s.disk.manifest.NextFile(), s.disk.tables, t, l);
    FlushDescribed(s, t, l);
  }

  lemma FlushKeepsInv(s: State, t: Table, l: nat)
    requires Inv(s) && Enabled(s, Flush(t, l))
    ensures Inv(Apply(s, Flush(t, l)))
  {
    hide WellFormed, Faithful, SameReads, MayFlushTo, EntriesOf, InLevels, All, DiskInv;
    FlushKeepsStore(s, t, l);
    SameContentsSameReads(All(s.store), All(Apply(s, Flush(t, l)).store), Oldest(s));
    FaithfulBySameReads(s, Apply(s, Flush(t, l)));
    FlushKeepsDisk(s, t, l);
  }

  lemma FlushDescribed(s: State, t: Table, l: nat)
    requires StoreInv(s) && DiskInv(s) && Enabled(s, Flush(t, l))
    ensures var s' := Apply(s, Flush(t, l));
      Describes(s'.disk.manifest.edits, s'.disk.tables, s'.store.levels, s'.nextFile)
  {
    hide Describes, LogsDurable, Layered, TablesValid, LevelsDisjoint, NumbersUnique, EntriesOf, AddedFiles, AddsKnown, AddsWritten, Edited, AddTo, Elements;
    hide TablesDurable, Table.Valid, MayFlushTo, InLevels;
    var files := map[t.number := t.entries];
    assert l < |s.store.levels| == NUM_LEVELS by { FlushLevel(s.store.levels, t, l); }
    NumbersOnDisk(s.store.levels, s.disk.manifest.NextFile(), s.disk.tables);
    AddedFilesKnown(s.store.levels, l, [t], s.disk.tables + files, s.disk.manifest.NextFile(), t.number + 1);
    EditedByFlush(s.store.levels, l, t);
    DescriptorAfterInstall(s.disk.manifest, s.disk.tables, files, s.store.levels, AddedFiles(l, [t]), s.memLog, t.number + 1, s.last);
  }

  lemma FlushLevel(levels: seq<set<Table>>, t: Table, l: nat)
    requires |levels| == NUM_LEVELS && MayFlushTo(levels, t, l)
    ensures l < NUM_LEVELS
  {
  }

  lemma NumbersOnDisk(levels: seq<set<Table>>, next: nat, files: TableFiles)
    requires TablesDurable(levels, next, files)
    ensures forall l, t :: 0 <= l < |levels| && t in levels[l] ==> t.number < next
  {
  }

  // ---------------------------------------------------------------- moves and compactions

  lemma MoveKeepsStore(st: Store, j: Job, t: Table)
    requires WellFormed(st) && Selected(st.levels, j) && NewerStays(st.levels[j.level], j.upper)
    requires j.upper == {t} && j.lower == {}
    ensures WellFormed(After(st, j, {t})) && All(After(st, j, {t})) == All(st)
    ensures InLevels(Compacted(st.levels, j, {t})) <= InLevels(st.levels)
  {
    assert t in st.levels[j.level];
    assert Inputs(j) == Contents({t});
    assert Outputs(j, {t});
    assert NumbersUnique(Compacted(st.levels, j, {t}));
    hide *;
    CompactionKeepsLayers(st, j, {t});
    AllAfter(st, j, {t});
    CompactedContents(st.levels, j, {t});
  }

  lemma CompactKeepsTables(levels: seq<set<Table>>, known: nat, nextFile: nat, tables: TableFiles, j: Job, outs: set<Table>, next: nat)
    requires TablesDurable(levels, known, tables) && known <= nextFile && j.level + 1 < |levels|
    requires nextFile <= next && NumberedFrom(outs, nextFile, next)
    ensures TablesDurable(Compacted(levels, j, outs), next, tables + FileOf(outs))
  {
    var levels' := Compacted(levels, j, outs);
    forall l, t: Table | 0 <= l < |levels'| && t in levels'[l]
      ensures t.number < next && t.number in tables + FileOf(outs) && (tables + FileOf(outs))[t.number] == t.entries
    {
      assert t in outs || t in levels[l];
    }
  }

  lemma MoveKeepsTables(levels: seq<set<Table>>, nextFile: nat, tables: TableFiles, j: Job, t: Table, next: nat)
    requires TablesDurable(levels, nextFile, tables) && j.level + 1 < |levels| && t in levels[j.level] && nextFile <= next
    ensures TablesDurable(Compacted(levels, j, {t}), next, tables)
  {
  }

  lemma MoveKeepsInv(s: State, j: Job, t: Table)
    requires Inv(s) && Enabled(s, Move(j, t))
    ensures Inv(Apply(s, Move(j, t)))
    ensures All(Apply(s, Move(j, t)).store) == All(s.store)
  {
    var s' := Apply(s, Move(j, t));
    MoveKeepsStore(s.store, j, t);
    FaithfulBySameReads(s, s');
    MoveKeepsTables(s.store.levels, s.disk.manifest.NextFile(), s.disk.tables, j, t, s.nextFile);
    MoveDescribed(s, j, t);
  }

  lemma MoveDescribed(s: State, j: Job, t: Table)
    requires StoreInv(s) && DiskInv(s) && Enabled(s, Move(j, t))
    ensures var s' := Apply(s, Move(j, t));
      Describes(s'.disk.manifest.edits, s'.disk.tables, s'.store.levels, s'.nextFile)
  {
    hide Describes, LogsDurable, Layered, EntriesOf, AddedFiles, AddsKnown, AddsWritten, Edited, CompactionEdit, Compacted, NewerStays;
    var m, levels := s.disk.manifest, s.store.levels;
    assert t in levels[j.level] && SetOf([t]) == {t};
    AddedFilesKnown(levels, j.level + 1, [t], s.disk.tables, m.NextFile(), s.nextFile);
    CompactionFilesKnown(levels, j, [t], s.disk.tables, m.NextFile(), s.nextFile);
    EditedByCompaction(levels, j, [t]);
    assert s.disk.tables + map[] == s.disk.tables;
    DescriptorAfterInstall(m, s.disk.tables, map[], levels, CompactionEdit(j.level, j.upper, j.lower, [t]), m.LogNumber(), s.nextFile, s.last);
  }

  lemma FreshNumbersStayUnique(levels: seq<set<Table>>, j: Job, outs: set<Table>, lo: nat, hi: nat)
    requires |levels| == NUM_LEVELS && j.level + 1 < NUM_LEVELS && NumbersUnique(levels)
    requires forall l, t :: 0 <= l < |levels| && t in levels[l] ==> t.number < lo
    requires NumberedFrom(outs, lo, hi)
    ensures NumbersUnique(Compacted(levels, j, outs))
  {
    var levels' := Compacted(levels, j, outs);
    forall l, k, f: Table, g: Table | 0 <= l < |levels'| && 0 <= k < |levels'| && f in levels'[l] && g in levels'[k] && f.number == g.number
      ensures l == k && f == g
    {
      assert f in levels[l] || (f in outs && l == j.level + 1);
      assert g in levels[k] || (g in outs && k == j.level + 1);
    }
  }

  lemma CompactKeepsStore(s: State, j: Job, outs: Files, next: nat)
    requires StoreInv(s) && Enabled(s, Compact(j, outs, next))
    requires forall l, t :: 0 <= l < |s.store.levels| && t in s.store.levels[l] ==> t.number < s.nextFile
    ensures StoreInv(Apply(s, Compact(j, outs, next)))
    ensures SameReads(All(Apply(s, Compact(j, outs, next)).store), All(s.store), Oldest(s))
  {
    Provenance(s);
    FreshNumbersStayUnique(s.store.levels, j, SetOf(outs), s.nextFile, next);
    CompactionKeepsLayers(s.store, j, SetOf(outs));
    CompactionPreservesReads(s.store, j, Oldest(s), SetOf(outs));
    AllAfter(s.store, j, SetOf(outs));
    CompactedContents(s.store.levels, j, SetOf(outs));
  }

  lemma CompactedContents(levels: seq<set<Table>>, j: Job, outs: set<Table>)
    requires |levels| == NUM_LEVELS && Selected(levels, j) && Contents(outs) <= Inputs(j)
    ensures InLevels(Compacted(levels, j, outs)) <= InLevels(levels)
  {
    AllAfter(Store({}, {}, levels), j, outs);
  }

  lemma CompactKeepsDisk(s: State, j: Job, outs: Files, next: nat)
    requires StoreInv(s) && DiskInv(s) && Enabled(s, Compact(j, outs, next))
    ensures Apply(s, Compact(j, outs, next)).last == s.last
    ensures DiskInv(Apply(s, Compact(j, outs, next)))
  {
    hide Layered, NumbersUnique, TablesValid, LevelsDisjoint, TablesDurable, NewerStays, Outputs, Kept, Resurrects, EntriesOf, InLevels;
    hide Describes, Holds, SetOf;
    CompactKeepsTables(s.store.levels, s.disk.manifest.NextFile(), s.nextFile, s.disk.tables, j, SetOf(outs), next);
    CompactDescribed(s, j, outs, next);
  }

  lemma CompactDescribed(s: State, j: Job, outs: Files, next: nat)
    requires StoreInv(s) && DiskInv(s) && Enabled(s, Compact(j, outs, next))
    ensures var s' := Apply(s, Compact(j, outs, next));
      Describes(s'.disk.manifest.edits, s'.disk.tables, s'.store.levels, s'.nextFile)
  {
    hide Describes, LogsDurable, EntriesOf, AddedFiles, AddsKnown, AddsWritten, Edited, CompactionEdit, Compacted, NewerStays;
    hide Layered, TablesValid, LevelsDisjoint, Outputs, Kept, Resurrects, InLevels;
    var m, levels, files := s.disk.manifest, s.store.levels, FileOf(SetOf(outs));
    NewFilesKnown(levels, j.level + 1, outs, s.disk.tables, s.nextFile, next);
    AddedFilesKnown(levels, j.level + 1, outs, s.disk.tables + files, m.NextFile(), next);
    CompactionFilesKnown(levels, j, outs, s.disk.tables + files, m.NextFile(), next);
    forall f: Table, t: Table | f in levels[j.level + 1] && t in outs ensures f.number != t.number {
      assert t in SetOf(outs);
    }
    EditedByCompaction(levels, j, outs);
    DescriptorAfterInstall(m, s.disk.tables, files, levels, CompactionEdit(j.level, j.upper, j.lower, outs), m.LogNumber(), next, s.last);
  }

  lemma NewFilesKnown(levels: seq<set<Table>>, l: nat, outs: Files, files: TableFiles, lo: nat, hi: nat)
    requires NumberedFrom(SetOf(outs), lo, hi)
    ensures forall t :: t in outs ==> lo <= t.number < hi
    ensures forall t :: t in outs ==> t.number in files + FileOf(SetOf(outs)) && (files + FileOf(SetOf(outs)))[t.number] == t.entries
    ensures forall t, u :: t in outs && u in outs && t.number == u.number ==> t == u
    ensures forall n :: n in FileOf(SetOf(outs)) ==> n >= lo
  {
    forall t | t in outs ensures t in SetOf(outs) {}
  }

  lemma CompactKeepsInv(s: State, j: Job, outs: Files, next: nat)
    requires Inv(s) && Enabled(s, Compact(j, outs, next))
    ensures Inv(Apply(s, Compact(j, outs, next)))
  {
    hide WellFormed, Faithful, SameReads, Outputs, Kept, Resurrects, NewerStays, DiskInv, EntriesOf, InLevels, NumberedFrom;
    hide Selected, Contents, SetOf, All, LogEdit, CompactionEdit, Compacted;
    var s' := Apply(s, Compact(j, outs, next));
    TablesHaveNumbers(s);
    CompactKeepsStore(s, j, outs, next);
    FaithfulBySameReads(s, s');
    CompactKeepsDisk(s, j, outs, next);
  }

  lemma TablesHaveNumbers(s: State)
    requires Inv(s)
    ensures forall l, t :: 0 <= l < |s.store.levels| && t in s.store.levels[l] ==> t.number < s.nextFile
  {
    hide StoreInv, Faithful, SnapshotsInv, LogsDurable;
  }

  // ---------------------------------------------------------------- snapshots and files

  lemma SnapshotKeepsInv(s: State)
    requires Inv(s)
    ensures Inv(Apply(s, TakeSnapshot))
  {
    FaithfulBySameReads(s, Apply(s, TakeSnapshot));
  }

  lemma ReleaseKeepsInv(s: State, i: nat)
    requires Inv(s) && Enabled(s, ReleaseSnapshot(i))
    ensures Inv(Apply(s, ReleaseSnapshot(i)))
  {
    var s' := Apply(s, ReleaseSnapshot(i));
    assert Oldest(s) <= Oldest(s');
    FaithfulBySameReads(s, s');
  }

  lemma OrphanKeepsInv(s: State, entries: seq<Entry>)
    requires Inv(s)
    ensures Inv(Apply(s, Orphan(entries)))
  {
    FaithfulBySameReads(s, Apply(s, Orphan(entries)));
    FilesMayChange(s, s.disk.tables + map[s.nextFile := entries]);
  }

  /** As long as live files stay as they are, the descriptor means the same. */
  lemma FilesMayChange(s: State, files: TableFiles)
    requires StoreInv(s) && DiskInv(s)
    requires forall l, t :: 0 <= l < |s.store.levels| && t in s.store.levels[l] ==> t.number in files && files[t.number] == t.entries
    ensures Describes(s.disk.manifest.edits, files, s.store.levels, s.disk.manifest.NextFile())
  {
    hide Describes, LogsDurable, WellFormed, EntriesOf;
    DescribesAfterFileChange(s.disk.manifest.edits, s.disk.tables, files, s.store.levels, s.disk.manifest.NextFile(), s.disk.manifest.NextFile());
  }

  /** Garbage collection removes no live table and no log recovery would replay. */
  lemma CollectKeepsInv(s: State, pinned: set<nat>)
    requires Inv(s)
    ensures Inv(Apply(s, Collect(pinned)))
  {
    var s' := Apply(s, Collect(pinned));
    assert s'.store == s.store;
    FaithfulBySameReads(s, s');
    forall l, t | 0 <= l < |s.store.levels| && t in s.store.levels[l]
      ensures t.number in s'.disk.tables
    {
      assert t.number in LiveNumbers(s.store.levels);
    }
    FilesMayChange(s, s'.disk.tables);
  }

  // ---------------------------------------------------------------- recovery

  lemma {:induction false} ConcatSkips(logs: map<nat, seq<Record>>, lo: nat, k: nat, hi: nat)
    requires lo <= k <= hi && forall n :: lo <= n < k ==> n !in logs
    ensures Concat(logs, lo, hi) == Concat(logs, k, hi)
    decreases k - lo
  {
    if lo < k {
      ConcatSkips(logs, lo + 1, k, hi);
    }
  }

  /** The logs recovery replays hold exactly the operations no table holds. */
  lemma ReplayedRecordsHold(s: State, newLog: nat)
    requires s.immStart <= s.memStart <= s.last == |s.history| && (!s.hasImm ==> s.immStart == s.memStart)
    requires LogsDurable(s)
    requires forall n :: n in s.disk.logs ==> n < newLog
    ensures Holds(ReplayedRecords(s.disk, newLog), s.history, s.immStart, s.last)
  {
    var logs, lo, mem := s.disk.logs, s.disk.manifest.LogNumber(), s.memLog;
    ConcatSkips(logs, mem + 1, newLog, newLog);
    assert Concat(logs, mem, newLog) == logs[mem] + [] == logs[mem];
    if s.hasImm {
      ConcatSkips(logs, lo + 1, mem, newLog);
      assert Concat(logs, lo, newLog) == logs[lo] + logs[mem];
      HoldsConcat(logs[lo], logs[mem], s.history, s.immStart, s.memStart, s.last);
    }
  }

  lemma ChunkHolds(records: seq<Record>, history: seq<Op>, from: nat, to: nat, i: nat, j: nat)
    requires from <= to <= |history| && Holds(records, history, from, to) && i <= j <= |records|
    ensures from + OpsBefore(records, i) <= from + OpsBefore(records, j) <= to
    ensures Holds(records[i..j], history, from + OpsBefore(records, i), from + OpsBefore(records, j))
  {
    hide Holds, OpsBefore;
    HoldsSplit(records, i, history, from, to);
    OpsBeforeAdds(records, i, j);
    HoldsSplit(records[i..], j - i, history, from + OpsBefore(records, i), to);
    assert records[i..][..j - i] == records[i..j];
  }

  /** What the records between two cuts insert. */
  lemma ChunkIs(records: seq<Record>, history: seq<Op>, from: nat, to: nat, i: nat, j: nat)
    requires from <= to <= |history| && Holds(records, history, from, to) && i <= j <= |records|
    ensures from + OpsBefore(records, i) <= from + OpsBefore(records, j) <= to
    ensures ReplayedEntries(records[i..j]) == EntriesOf(history, from + OpsBefore(records, i), from + OpsBefore(records, j))
  {
    hide Holds, OpsBefore, ReplayedEntries, EntriesOf;
    ChunkHolds(records, history, from, to, i, j);
    ReplayedAre(records[i..j], history, from + OpsBefore(records, i), from + OpsBefore(records, j));
  }

  /** Recovered tables partition the operations after `from`, in order of their numbers. */
  ghost predicate Partition(history: seq<Op>, recovered: Files, ends: seq<nat>, from: nat) {
    && |ends| == |recovered| + 1 && ends[0] == from && ends[|recovered|] == |history|
    && (forall i, k :: 0 <= i <= k < |ends| ==> ends[i] <= ends[k])
    && (forall i :: 0 <= i < |recovered| ==> PartAt(history, recovered[i], ends, i))
  }

  ghost predicate PartAt(history: seq<Op>, t: Table, ends: seq<nat>, i: nat) {
    && i + 1 < |ends| && ends[i] <= ends[i + 1] <= |history|
    && Elements(t.entries) == EntriesOf(history, ends[i], ends[i + 1])
  }

  lemma RecoveredPartition(records: seq<Record>, recovered: Files, cuts: seq<nat>, lo: nat, hi: nat, history: seq<Op>, from: nat)
    returns (ends: seq<nat>)
    requires from <= |history| && Holds(records, history, from, |history|)
    requires RecoveredTables(records, recovered, cuts, lo, hi)
    ensures Partition(history, recovered, ends, from)
  {
    CutsRise(records, recovered, cuts, lo, hi);
    ends := seq(|cuts|, i requires 0 <= i < |cuts| => from + OpsBefore(records, cuts[i]));
    forall i, k | 0 <= i <= k < |ends| ensures ends[i] <= ends[k] {
      ChunkIs(records, history, from, |history|, cuts[i], cuts[k]);
    }
    forall i | 0 <= i < |recovered| ensures PartAt(history, recovered[i], ends, i) {
      assert RecoveredTable(recovered[i], records, cuts, i);
      ChunkIs(records, history, from, |history|, cuts[i], cuts[i + 1]);
    }
    var n := |recovered|;
    HoldsSplit(records, cuts[n], history, from, |history|);
    ReplayedAre(records[cuts[n]..], history, ends[n], |history|);
    EntriesEmpty(history, ends[n], |history|);
  }

  lemma {:induction false} CutsRiseBetween(records: seq<Record>, recovered: Files, cuts: seq<nat>, lo: nat, hi: nat, i: nat, k: nat)
    requires RecoveredTables(records, recovered, cuts, lo, hi) && i <= k < |cuts|
    ensures cuts[i] <= cuts[k] <= |records|
    decreases |cuts| - i
  {
    if i < k {
      assert RecoveredTable(recovered[i], records, cuts, i);
      CutsRiseBetween(records, recovered, cuts, lo, hi, i + 1, k);
    } else if i < |recovered| {
      assert RecoveredTable(recovered[i], records, cuts, i);
    }
  }

  lemma CutsRise(records: seq<Record>, recovered: Files, cuts: seq<nat>, lo: nat, hi: nat)
    requires RecoveredTables(records, recovered, cuts, lo, hi)
    ensures forall i, k :: 0 <= i <= k < |cuts| ==> cuts[i] <= cuts[k] <= |records|
  {
    forall i, k | 0 <= i <= k < |cuts| ensures cuts[i] <= cuts[k] <= |records| {
      CutsRiseBetween(records, recovered, cuts, lo, hi, i, k);
    }
  }
}
