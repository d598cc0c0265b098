/** The database object: its methods perform the actions of the state machine. */
module Database {
  import opened Keys
  import opened Layers
  import opened Compaction
  import opened VersionEdits
  import opened Descriptor
  import opened History
  import opened Engine
  import opened EngineInvariant
  import opened EngineTheorems
  import opened Recovery
  import opened VersionSet
  import opened VersionBuilder
  import opened DescriptorReplay
  import opened PointLookup
  import opened Merging
  import opened CompactionWork
  import opened MergeInputs
  import opened MemTables
  import opened DbIter
  import opened UserIterator
  import opened LogRecovery

  // ---------------------------------------------------------------- installing versions

  method BuildVersion(version: seq<Files>, e: Edit) returns (v: seq<Files>)
    requires |version| == NUM_LEVELS && forall l :: 0 <= l < NUM_LEVELS ==> Ascending(version[l])
    requires forall d :: d in e.deleted ==> d.0 < NUM_LEVELS
    requires forall a :: a in e.added ==> a.0 < NUM_LEVELS
    requires forall a, b :: a in e.added && b in e.added && a.1.number == b.1.number ==> a.1 == b.1
    requires forall l, a, f :: 0 <= l < NUM_LEVELS && a in e.added && a.0 == l && f in version[l] ==> f.number != a.1.number
    ensures |v| == NUM_LEVELS && Sets(v) == Edited(Sets(version), e)
    ensures forall l :: 0 <= l < NUM_LEVELS ==> Ascending(v[l])
  {
    var builder := new Builder(version);
    builder.Apply(e);
    forall l | 0 <= l < NUM_LEVELS ensures Distinct(builder.base[l], builder.added[l]) {
      AddAllIs(Started(NOTHING, l, e), l, e.added);
      assert SetOf(builder.added[l]) == AddedAt(e, l) by { assert builder.At(l) == Accumulate(NOTHING, l, e); }
      forall f, g | f in builder.base[l] && g in builder.added[l] ensures Less(f, g) || Less(g, f) {
        assert g in SetOf(builder.added[l]);
      }
    }
    v := builder.SaveTo();
  }

  lemma BuiltIsOk(v: seq<Files>)
    requires |v| == NUM_LEVELS && forall l :: 0 <= l < NUM_LEVELS ==> Ascending(v[l])
    requires Shaped(Sets(v)) && UniqueSequences(InLevels(Sets(v)))
    ensures VersionOk(v)
  {
    forall l | 0 <= l < NUM_LEVELS
      ensures AllValid(v[l]) && Unique(v[l]) && (l > 0 ==> SortedFiles(v[l]))
    {
      forall f | f in v[l] ensures f.Valid() {
        assert f in Sets(v)[l];
      }
      forall e | e in Contents(SetOf(v[l])) ensures e in InLevels(Sets(v)) {
        var t :| t in SetOf(v[l]) && e in t.entries;
        assert t in Sets(v)[l];
      }
      if l > 0 {
        assert Sets(v)[l] == SetOf(v[l]) && Disjoint(Sets(v)[l]);
        AscendingIsSorted(v[l]);
      }
    }
    assert NoRepeats(v[0]) by {
      forall i, j | 0 <= i < j < |v[0]| ensures v[0][i] != v[0][j] {
        assert Less(v[0][i], v[0][j]);
      }
    }
  }

  lemma AscendingIsSorted(files: Files)
    requires AllValid(files) && Ascending(files) && Disjoint(SetOf(files))
    ensures SortedFiles(files)
  {
    forall i, j | 0 <= i < j < |files| ensures files[i].largest.Before(files[j].smallest) {
      var f, g := files[i], files[j];
      assert f in files && g in files && f in SetOf(files) && g in SetOf(files);
      assert Less(f, g);
      assert f != g;
      f.Bounds(f.entries[0]);
      g.Bounds(g.entries[0]);
    }
  }

  lemma DistinctNumbers(version: seq<Files>, l: nat)
    requires |version| == NUM_LEVELS && l < NUM_LEVELS && NumbersUnique(Sets(version)) && Ascending(version[l])
    ensures forall i, j :: 0 <= i < j < |version[l]| ==> version[l][i].number != version[l][j].number
  {
    var files := version[l];
    forall i, j | 0 <= i < j < |files| ensures files[i].number != files[j].number {
      assert files[i] in Sets(version)[l] && files[j] in Sets(version)[l];
      assert Less(files[i], files[j]);
    }
  }

  // ---------------------------------------------------------------- facts the invariant gives readers

  lemma ReaderFacts(s: State, n: nat)
    requires Inv(s) && (n == s.last || n in s.snapshots)
    ensures n <= |s.history|
    ensures forall u :: Reads(All(s.store), u, n) == Replay(s.history, u, n)
  {
    hide StoreInv, DiskInv;
    assert Faithful(s) && Oldest(s) <= n <= s.last by { OldestIsLeast(s, n); }
  }

  lemma OldestIsLeast(s: State, n: nat)
    requires Inv(s) && (n == s.last || n in s.snapshots)
    ensures s.last == |s.history| && Faithful(s) && Oldest(s) <= n <= s.last
  {
  }

  lemma StoreFacts(s: State)
    requires Inv(s)
    ensures WellFormed(s.store) && UniqueSequences(All(s.store))
    ensures UniqueSequences(s.store.mem) && UniqueSequences(s.store.imm)
  {
    Provenance(s);
  }

  // ---------------------------------------------------------------- facts each action needs

  lemma VersionFacts(s: State)
    requires Inv(s)
    ensures Shaped(s.store.levels) && UniqueSequences(InLevels(s.store.levels))
  {
    hide Layered, Faithful, DiskInv, SnapshotsInv;
    Provenance(s);
  }

  lemma WriteFacts(s: State, ops: seq<Op>)
    requires Inv(s) && s.last + |ops| < MAX_SEQUENCE
    ensures s.memLog in s.disk.logs && s.last == |s.history|
    ensures forall e :: e in s.store.mem ==> e.key.seqno < s.last + 1
    ensures RecordEntries(Record(s.last + 1, ops)) == EntriesOf(s.history + ops, s.last, |s.history + ops|)
    ensures StoreInv(s) && Inv(Apply(s, Action.Write(ops)))
  {
    hide WellFormed, Faithful, SnapshotsInv;
    WriteKeepsInv(s, ops);
    assert (s.history + ops)[s.last..s.last + |ops|] == ops;
    RecordIs(Record(s.last + 1, ops), s.history + ops, s.last);
  }

  lemma SwitchFacts(s: State)
    requires Inv(s) && !s.hasImm
    ensures StoreInv(s) && Inv(Apply(s, Switch))
  {
    hide WellFormed, Faithful, SnapshotsInv;
    SwitchKeepsInv(s);
  }

  lemma SnapshotFacts(s: State)
    requires Inv(s)
    ensures StoreInv(s) && Inv(Apply(s, TakeSnapshot))
  {
    hide WellFormed, Faithful, DiskInv;
    SnapshotKeepsInv(s);
  }

  lemma ReleaseFacts(s: State, i: nat)
    requires Inv(s) && i < |s.snapshots|
    ensures StoreInv(s) && Inv(Apply(s, Action.ReleaseSnapshot(i)))
  {
    hide WellFormed, Faithful, DiskInv;
    ReleaseKeepsInv(s, i);
  }

  lemma FlushFacts(s: State)
    requires Inv(s) && s.hasImm
    ensures StoreInv(s) && |s.store.levels| == NUM_LEVELS
  {
    hide Layered, Faithful, SnapshotsInv;
  }

  lemma FlushNothingFacts(s: State)
    requires Inv(s) && s.hasImm
    ensures s.store.imm == {} ==> Inv(Apply(s, FlushNothing))
  {
    hide WellFormed, Faithful, SnapshotsInv;
    if s.store.imm == {} {
      FlushNothingKeepsInv(s);
    }
  }

  lemma TablesNumbered(s: State, l: nat, t: Table)
    requires Inv(s) && l < |s.store.levels| && t in s.store.levels[l]
    ensures t.number < s.disk.manifest.NextFile() <= s.nextFile
  {
    hide WellFormed, Faithful, SnapshotsInv, LogsDurable;
  }

  /** A finished table of the immutable memtable may be flushed to the level picked for it. */
  lemma FlushedTable(s: State, version: seq<Files>, run: seq<Entry>, t: Table, l: nat)
    requires Inv(s) && s.hasImm && s.store.levels == Sets(version) && |version| == NUM_LEVELS
    requires run != [] && Sorted(run) && Elements(run) == s.store.imm
    requires t.number == s.nextFile && t.entries == run && t.smallest == run[0].key && t.largest == run[|run| - 1].key
    requires l < NUM_LEVELS && (l > 0 ==> forall k, f :: 0 <= k <= l && f in version[k] ==> !f.Overlaps(t.smallest.user, t.largest.user))
    ensures StoreInv(s) && Enabled(s, Flush(t, l)) && Inv(Apply(s, Flush(t, l)))
  {
    hide WellFormed, Faithful, SnapshotsInv, DiskInv;
    forall k, f | 0 <= k < NUM_LEVELS && f in s.store.levels[k] ensures f.number < t.number {
      TablesNumbered(s, k, f);
    }
    forall e | e in run ensures e.key.seqno <= MAX_SEQUENCE {
      assert e in Elements(run);
    }
    FlushKeepsInv(s, t, l);
  }

  lemma NewNumberUnused(s: State, version: seq<Files>, number: nat)
    requires Inv(s) && s.store.levels == Sets(version) && |version| == NUM_LEVELS && number >= s.nextFile
    ensures forall k, f :: 0 <= k < NUM_LEVELS && f in version[k] ==> f.number < number
    ensures forall k, f :: 0 <= k < NUM_LEVELS && f in s.store.levels[k] ==> f.number < number
  {
    hide Inv;
    forall k, f | 0 <= k < NUM_LEVELS && f in version[k] ensures f.number < number {
      assert f in s.store.levels[k];
      TablesNumbered(s, k, f);
    }
  }

  // ---------------------------------------------------------------- installing a compaction

  lemma CompactFacts(s: State, j: Job, outs: Files)
    requires Inv(s) && Selected(s.store.levels, j) && NewerStays(s.store.levels[j.level], j.upper)
    requires forall d :: !Resurrects(s.store, j, Oldest(s), d)
    requires Outputs(j, SetOf(outs)) && Contents(SetOf(outs)) == Kept(s.store.levels, j, Oldest(s))
    requires NumberedFrom(SetOf(outs), s.nextFile, s.nextFile + |outs|)
    ensures StoreInv(s) && Enabled(s, Compact(j, outs, s.nextFile + |outs|))
    ensures Inv(Apply(s, Compact(j, outs, s.nextFile + |outs|)))
  {
    hide WellFormed, Faithful, SnapshotsInv, DiskInv, Selected, NewerStays, Resurrects, Outputs, Kept, NumberedFrom, Apply, Contents, SetOf;
    CompactKeepsInv(s, j, outs, s.nextFile + |outs|);
  }

  lemma MoveFacts(s: State, j: Job, t: Table)
    requires Inv(s) && Selected(s.store.levels, j) && NewerStays(s.store.levels[j.level], j.upper)
    requires j.upper == {t} && j.lower == {}
    ensures StoreInv(s) && Enabled(s, Move(j, t)) && Inv(Apply(s, Move(j, t)))
  {
    hide WellFormed, Faithful, SnapshotsInv, DiskInv, Selected, NewerStays;
    MoveKeepsInv(s, j, t);
  }

  lemma SingleFile(files: Files)
    requires |files| == 1
    ensures SetOf(files) == {files[0]} && SetOf([]) == {}
  {
  }

  lemma MovedNumber(version: seq<Files>, level: nat, t: Table)
    requires |version| == NUM_LEVELS && level + 1 < NUM_LEVELS && NumbersUnique(Sets(version)) && t in Sets(version)[level]
    ensures forall f :: f in version[level + 1] ==> f.number != t.number
    ensures forall f :: f in Sets(version)[level + 1] ==> f.number != t.number
  {
    forall f | f in version[level + 1] ensures f.number != t.number {
      assert f in Sets(version)[level + 1];
    }
  }

  /** The levels and numbers an edit mentions. */
  lemma EditLevels(level: nat, upper: set<Table>, lower: set<Table>, outs: Files)
    requires level + 1 < NUM_LEVELS
    requires forall f, g :: f in outs && g in outs && f.number == g.number ==> f == g
    ensures var e := CompactionEdit(level, upper, lower, outs);
      && (forall d :: d in e.deleted ==> d.0 < NUM_LEVELS)
      && (forall a :: a in e.added ==> a.0 == level + 1 && a.1 in outs)
      && (forall a, b :: a in e.added && b in e.added && a.1.number == b.1.number ==> a.1 == b.1)
  {
  }

  lemma FlushEdit(l: nat, t: Table)
    ensures var e := AddedFiles(l, [t]); e.deleted == {} && forall a :: a in e.added ==> a == (l, t)
  {
  }

  lemma OutputNumbers(outs: Files, lo: nat, hi: nat)
    requires NumberedFrom(SetOf(outs), lo, hi)
    ensures forall t :: t in outs ==> t.number >= lo
    ensures forall f, g :: f in outs && g in outs && f.number == g.number ==> f == g
    ensures forall f, g :: f in SetOf(outs) && g in SetOf(outs) && f.number == g.number ==> f == g
  {
    forall t | t in outs ensures t in SetOf(outs) {}
  }

  /** What a compaction needs to know before it starts. */
  lemma CompactionSetting(s: State, j: Job, upper: Files, lower: Files)
    requires Inv(s) && Selected(s.store.levels, j) && j.upper == SetOf(upper) && j.lower == SetOf(lower)
    ensures |s.store.levels| == NUM_LEVELS && WellFormed(s.store) && UniqueSequences(All(s.store)) && NumbersUnique(s.store.levels)
    ensures j.level + 1 < NUM_LEVELS && SetOf(upper) <= s.store.levels[j.level] && SetOf(lower) <= s.store.levels[j.level + 1]
    ensures Oldest(s) < MAX_SEQUENCE && UniqueSequences(Inputs(j))
    ensures forall e :: e in Inputs(j) ==> e.key.seqno <= MAX_SEQUENCE
  {
    hide Layered, Faithful, TablesDurable, LogsDurable;
    Provenance(s);
    InputsAreChain(s.store, j.level, upper, lower);
    forall e | e in Inputs(j) ensures e.key.seqno <= MAX_SEQUENCE {
      var p, g := InputAt(s.store, j, e);
      AtIsSomewhere(s.store, p, e);
    }
  }

  lemma VersionSetting(s: State, j: Job)
    requires Inv(s) && Selected(s.store.levels, j)
    ensures |s.store.levels| == NUM_LEVELS && NumbersUnique(s.store.levels) && j.level + 1 < NUM_LEVELS
  {
    hide Layered, Faithful, DiskInv, SnapshotsInv;
  }

  function LiveFiles(version: seq<Files>): set<nat> {
    set l, f | 0 <= l < |version| && f in version[l] :: f.number
  }

  lemma LiveFilesAre(version: seq<Files>)
    ensures LiveFiles(version) == LiveNumbers(Sets(version))
  {
    forall n | n in LiveFiles(version) ensures n in LiveNumbers(Sets(version)) {
      var l, f: Table :| 0 <= l < |version| && f in version[l] && f.number == n;
      assert f in Sets(version)[l];
    }
  }

  lemma CollectFacts(s: State, pinned: set<nat>)
    requires Inv(s)
    ensures StoreInv(s) && Inv(Apply(s, Collect(pinned)))
  {
    hide WellFormed, Faithful, SnapshotsInv;
    CollectKeepsInv(s, pinned);
  }

  /** One input, nothing below it, and not too much of the level after that. */
  predicate IsTrivialMove(upper: Files, lower: Files, grandparents: Files, maxGrandparentBytes: nat) {
    |upper| == 1 && |lower| == 0 && TotalSize(grandparents) <= maxGrandparentBytes
  }

  /** The level is the deepest a new table may go to. */
  ghost predicate DeepestFor(version: seq<Files>, t: Table, level: nat, maxGrandparentBytes: nat) {
    && |version| == NUM_LEVELS && level <= MAX_MEM_COMPACT_LEVEL
    && (level < MAX_MEM_COMPACT_LEVEL ==> MustStopAt(version, level, t.smallest.user, t.largest.user, maxGrandparentBytes))
    && forall k :: 0 <= k < level ==> !MustStopAt(version, k, t.smallest.user, t.largest.user, maxGrandparentBytes)
  }

  lemma EmptyIsSorted()
    ensures Sorted([]) && Elements([]) == {}
  {
  }

  // ---------------------------------------------------------------- opening

  /** The tables of a version with their levels, as a snapshot lists them. */
  method ListTables(version: seq<Files>) returns (listed: seq<(nat, Table)>)
    ensures Lists(listed, Sets(version))
  {
    listed := [];
    for l := 0 to |version|
      invariant forall a :: a in listed <==> a.0 < l && a.1 in version[a.0]
    {
      for i := 0 to |version[l]|
        invariant forall a :: a in listed <==> (a.0 < l && a.1 in version[a.0]) || (a.0 == l && a.1 in version[l][..i])
      {
        assert version[l][..i + 1] == version[l][..i] + [version[l][i]];
        listed := listed + [(l, version[l][i])];
      }
      assert version[l][..|version[l]|] == version[l];
    }
  }

  ghost predicate Rising(numbers: seq<nat>) {
    forall i, k :: 0 <= i < k < |numbers| ==> numbers[i] < numbers[k]
  }

  method InsertNumber(numbers: seq<nat>, n: nat) returns (r: seq<nat>)
    requires Rising(numbers) && n !in numbers
    ensures Rising(r) && forall m :: m in r <==> m in numbers || m == n
  {
    var i := 0;
    while i < |numbers| && numbers[i] < n
      invariant i <= |numbers| && forall k :: 0 <= k < i ==> numbers[k] < n
    {
      i := i + 1;
    }
    r := numbers[..i] + [n] + numbers[i..];
    assert i < |numbers| ==> numbers[i] in numbers;
    InsertedNumber(numbers, i, n);
  }

  lemma InsertedNumber(numbers: seq<nat>, i: nat, n: nat)
    requires Rising(numbers) && i <= |numbers|
    requires forall k :: 0 <= k < i ==> numbers[k] < n
    requires i < |numbers| ==> n < numbers[i]
    ensures Rising(numbers[..i] + [n] + numbers[i..])
    ensures forall m :: m in numbers[..i] + [n] + numbers[i..] <==> m in numbers || m == n
  {
    var r := numbers[..i] + [n] + numbers[i..];
    assert forall k :: 0 <= k < |r| ==> r[k] == if k < i then numbers[k] else if k == i then n else numbers[k - 1];
    forall m | m in numbers ensures m in r {
      var k :| 0 <= k < |numbers| && numbers[k] == m;
      assert r[if k < i then k else k + 1] == m;
    }
    assert r[i] == n;
  }

  /** The numbers of the logs to replay, oldest first. */
  method SortedLogs(logs: map<nat, seq<Record>>, min: nat) returns (numbers: seq<nat>)
    ensures forall n :: n in numbers <==> n in logs && n >= min
    ensures Rising(numbers)
  {
    hide Rising;
    numbers := [];
    NothingRises();
    var todo := logs.Keys;
    while todo != {}
      invariant todo <= logs.Keys && Rising(numbers)
      invariant forall n :: n in numbers <==> n in logs.Keys - todo && n >= min
      decreases todo
    {
      var n :| n in todo;
      todo := todo - {n};
      if n >= min {
        numbers := InsertNumber(numbers, n);
      }
    }
  }

  lemma NothingRises()
    ensures Rising([])
  {
  }

  /** Everything before log `n` has been replayed, and nothing lies between. */
  lemma NextLog(logs: map<nat, seq<Record>>, lo: nat, k: nat, n: nat)
    requires lo <= k <= n && n in logs && forall m :: k <= m < n ==> m !in logs
    ensures Concat(logs, lo, n + 1) == Concat(logs, lo, k) + logs[n]
  {
    NoMoreLogs(logs, lo, k, n);
    ConcatExtends(logs, lo, n);
  }

  lemma {:induction false} NoMoreLogs(logs: map<nat, seq<Record>>, lo: nat, k: nat, n: nat)
    requires lo <= k <= n && forall m :: k <= m < n ==> m !in logs
    ensures Concat(logs, lo, n) == Concat(logs, lo, k)
    decreases n - k
  {
    if k < n {
      NoMoreLogs(logs, lo, k, n - 1);
      ConcatExtends(logs, lo, n - 1);
    }
  }

  lemma {:induction false} MaxFrom(records: seq<Record>, last: nat, start: nat)
    ensures MaxSequence(records, if start > last then start else last)
      == if MaxSequence(records, start) > last then MaxSequence(records, start) else last
  {
    if records != [] {
      var end: int := records[0].first + |records[0].ops| - 1;
      MaxFrom(records[1..], last, if end > start then end else start);
    }
  }

  /** What recovery may rely on: all of it concerns the disk. */
  lemma DiskFacts(s: State)
    requires Inv(s)
    ensures StoreInv(s) && |s.store.levels| == NUM_LEVELS && NumbersUnique(s.store.levels)
    ensures Logged(ReplayedRecords(s.disk, s.nextFile), s.history, s.immStart)
    ensures s.disk.manifest.LogNumber() < s.nextFile && forall n :: n in s.disk.logs ==> n < s.nextFile
    ensures forall l, t :: 0 <= l < NUM_LEVELS && t in s.store.levels[l] ==> t.number < s.disk.manifest.NextFile()
  {
    hide Layered, Faithful, Describes;
    ReplayedRecordsHold(s, s.nextFile);
  }

  /** The descriptor is readable, and describes the version lost in the crash. */
  lemma DescriptorFacts(s: State)
    requires Inv(s)
    ensures s.disk.manifest.Complete() && OneFileANumber(s.disk.manifest.edits)
    ensures forall r :: r in s.disk.manifest.edits ==> RecordLevels(r)
    ensures ReplayedLevels(s.disk.manifest.edits, s.disk.tables) == s.store.levels
  {
    hide WellFormed, EntriesOf, Faithful, LogsDurable, TablesDurable, OneFileANumber, NumbersBelow, RecordLevels, ReplayedLevels;
    ReplayIsLive(s);
  }

  lemma ReopenFacts(s: State, listed: seq<(nat, Table)>, recovered: Files, cuts: seq<nat>, newLog: nat)
    requires Inv(s) && Lists(listed, s.store.levels)
    requires s.disk.manifest.NextFile() < newLog && forall n :: n in s.disk.logs ==> n < newLog
    requires RecoveredTables(ReplayedRecords(s.disk, newLog), recovered, cuts, s.disk.manifest.NextFile() + 1, newLog)
    ensures StoreInv(s) && Enabled(s, Reopen(listed, recovered, cuts, newLog)) && Inv(Apply(s, Reopen(listed, recovered, cuts, newLog)))
  {
    DiskFacts(s);
    DescriptorFacts(s);
    hide Inv, StoreInv, RecoveredTables, Logged, Lists;
    ReopenKeepsInv(s, listed, recovered, cuts, newLog);
  }

  /** Once every log has been replayed, the new log may take the next number. */
  lemma RecoverEnds(s: State, listed: seq<(nat, Table)>, done: nat, recovered: Files, cuts: seq<nat>, next: nat)
    requires Inv(s) && Lists(listed, s.store.levels)
    requires s.disk.manifest.LogNumber() <= done <= next && s.disk.manifest.LogNumber() < next
    requires s.disk.manifest.NextFile() + 1 <= next && forall n :: n in s.disk.logs && n >= s.disk.manifest.LogNumber() ==> n < done
    requires Replaying(Concat(s.disk.logs, s.disk.manifest.LogNumber(), done), recovered, cuts, s.disk.manifest.NextFile() + 1, next, [])
    ensures StoreInv(s) && Enabled(s, Reopen(listed, recovered, cuts, next)) && Inv(Apply(s, Reopen(listed, recovered, cuts, next)))
    ensures ReplayedRecords(s.disk, next) == Concat(s.disk.logs, s.disk.manifest.LogNumber(), done)
    ensures forall i :: 0 <= i < |recovered| ==> recovered[i].number > s.disk.manifest.NextFile()
    ensures forall i, k :: 0 <= i < k < |recovered| ==> recovered[i].number < recovered[k].number
  {
    hide Inv, StoreInv, Concat, Lists;
    NoMoreLogs(s.disk.logs, s.disk.manifest.LogNumber(), done, next);
    ReplayEnds(Concat(s.disk.logs, s.disk.manifest.LogNumber(), done), recovered, cuts, s.disk.manifest.NextFile() + 1, next, next);
    ReopenFacts(s, listed, recovered, cuts, next);
  }

  /** Tables found in the logs have numbers of their own. */
  lemma RecoveredNumbers(levels: seq<set<Table>>, base: seq<Files>, recovered: Files, nextFile: nat)
    requires |levels| == |base| == NUM_LEVELS && Sets(base) == levels
    requires forall l, t :: 0 <= l < NUM_LEVELS && t in levels[l] ==> t.number < nextFile
    requires forall i :: 0 <= i < |recovered| ==> recovered[i].number > nextFile
    requires forall i, k :: 0 <= i < k < |recovered| ==> recovered[i].number < recovered[k].number
    ensures forall f: Table, t: Table :: f in base[0] && t in recovered ==> f.number != t.number
    ensures var e := AddedFiles(0, recovered);
      && e.deleted == {} && (forall a :: a in e.added ==> a.0 == 0 && a.1 in recovered)
      && (forall a, b :: a in e.added && b in e.added && a.1.number == b.1.number ==> a.1 == b.1)
  {
    forall f: Table, t: Table | f in base[0] && t in recovered ensures f.number != t.number {
      assert f in levels[0];
    }
  }

  /** The rebuilt version, and the recovered tables at level 0. */
  method AddRecovered(base: seq<Files>, recovered: Files, nextFile: nat) returns (v: seq<Files>)
    requires |base| == NUM_LEVELS && forall l :: 0 <= l < NUM_LEVELS ==> Ascending(base[l])
    requires forall l, t :: 0 <= l < NUM_LEVELS && t in Sets(base)[l] ==> t.number < nextFile
    requires forall i :: 0 <= i < |recovered| ==> recovered[i].number > nextFile
    requires forall i, k :: 0 <= i < k < |recovered| ==> recovered[i].number < recovered[k].number
    ensures |v| == NUM_LEVELS && Sets(v) == WithRecovered(Sets(base), recovered)
    ensures forall l :: 0 <= l < NUM_LEVELS ==> Ascending(v[l])
  {
    hide Ascending, ApplyEdit, AddedFiles, WithRecovered, Edited;
    RecoveredNumbers(Sets(base), base, recovered, nextFile);
    v := BuildVersion(base, AddedFiles(0, recovered));
    EditedByRecovery(Sets(base), recovered);
  }

  lemma NothingYet(logs: map<nat, seq<Record>>, n: nat)
    ensures Concat(logs, n, n) == [] && MaxSequence([], 0) == 0
  {
  }

  /** Replays every log the descriptor still needs, oldest first, into level-0 tables. */
  method ReplayLogs(d: Disk, full: seq<Entry> -> bool, size: seq<Entry> -> nat, ghost s: State, ghost listed: seq<(nat, Table)>)
    returns (recovered: Files, ghost cuts: seq<nat>, next: nat, maxSequence: nat)
    requires Inv(s) && s.disk == d && Lists(listed, s.store.levels)
    ensures StoreInv(s) && Enabled(s, Reopen(listed, recovered, cuts, next)) && Inv(Apply(s, Reopen(listed, recovered, cuts, next)))
    ensures (if d.manifest.Last() < maxSequence then maxSequence else d.manifest.Last())
         == MaxSequence(ReplayedRecords(d, next), d.manifest.Last())
    ensures forall i :: 0 <= i < |recovered| ==> recovered[i].number > d.manifest.NextFile()
    ensures forall i, k :: 0 <= i < k < |recovered| ==> recovered[i].number < recovered[k].number
  {
    hide Inv, StoreInv, Logged, Replaying, RecoveredTables, Concat, MaxSequence, NumbersUnique, Enabled, Apply, Lists;
    DiskFacts(s);
    var m := d.manifest;
    ghost var lo, all := m.NextFile() + 1, ReplayedRecords(d, s.nextFile);
    next := if m.LogNumber() > m.NextFile() then m.LogNumber() + 1 else m.NextFile() + 1;
    recovered, cuts, maxSequence := [], [0], 0;
    ghost var done := m.LogNumber();
    var numbers := SortedLogs(d.logs, m.LogNumber());
    ReplayStarts(lo);
    ReplayBumps([], [], [0], lo, lo, [], next);
    NothingYet(d.logs, done);
    var i := 0;
    while i < |numbers|
      invariant i <= |numbers| && m.LogNumber() <= done <= next && m.LogNumber() < next && lo <= next
      invariant done == if i == 0 then m.LogNumber() else numbers[i - 1] + 1
      invariant Replaying(Concat(d.logs, m.LogNumber(), done), recovered, cuts, lo, next, [])
      invariant maxSequence == MaxSequence(Concat(d.logs, m.LogNumber(), done), 0)
    {
      var n: nat := numbers[i];
      ghost var seen := Concat(d.logs, m.LogNumber(), done);
      NothingBetween(d.logs, numbers, m.LogNumber(), i);
      NextLog(d.logs, m.LogNumber(), done, n);
      ConcatPrefix(d.logs, m.LogNumber(), n + 1, s.nextFile);
      recovered, cuts, next, maxSequence := RecoverLogFile(d.logs[n], recovered, next, maxSequence, full, size,
        seen, cuts, lo, 0, all, s.history, s.immStart);
      ghost var reached := next;
      // the log's number may be newer than the descriptor
      next := if next <= n then n + 1 else next;
      ReplayBumps(seen + d.logs[n], recovered, cuts, lo, reached, [], next);
      done := n + 1;
      i := i + 1;
    }
    forall n | n in d.logs && n >= m.LogNumber() ensures n < done {
      assert n in numbers;
    }
    RecoverEnds(s, listed, done, recovered, cuts, next);
    MaxFrom(Concat(d.logs, m.LogNumber(), done), m.Last(), 0);
  }

  lemma NothingBetween(logs: map<nat, seq<Record>>, numbers: seq<nat>, min: nat, i: nat)
    requires forall n :: n in numbers <==> n in logs && n >= min
    requires Rising(numbers)
    requires i < |numbers|
    ensures numbers[i] in logs && numbers[i] >= min
    ensures forall k :: (if i == 0 then min else numbers[i - 1] + 1) <= k < numbers[i] ==> k !in logs
  {
    assert numbers[i] in numbers;
    var from := if i == 0 then min else numbers[i - 1] + 1;
    forall k | from <= k < numbers[i] ensures k !in numbers && (k in logs ==> k >= min) {
      assert i > 0 ==> numbers[i - 1] in numbers;
      forall x | 0 <= x < |numbers| ensures numbers[x] != k {
        assert x == i || x == i - 1 || x < i - 1 || x > i;
      }
    }
  }

  lemma NoFiles(version: seq<Files>)
    requires |version| == NUM_LEVELS && forall l :: 0 <= l < NUM_LEVELS ==> version[l] == []
    ensures Sets(version) == NoLevels()
  {
    forall l | 0 <= l < NUM_LEVELS ensures Sets(version)[l] == NoLevels()[l] {
      assert SetOf(version[l]) == {};
    }
  }

  lemma SetsLength(version: seq<Files>)
    ensures |Sets(version)| == |version|
  {
  }

  // ---------------------------------------------------------------- deleting files

  method KeepLogs(logs: map<nat, seq<Record>>, logNumber: nat) returns (kept: map<nat, seq<Record>>)
    ensures kept == NeededLogs(logs, logNumber)
  {
    kept := logs;
    var todo := logs.Keys;
    while todo != {}
      invariant todo <= logs.Keys
      invariant kept.Keys == set n | n in logs.Keys && (n in todo || n >= logNumber)
      invariant forall n :: n in kept ==> kept[n] == logs[n]
      decreases todo
    {
      var n :| n in todo;
      if n < logNumber {
        kept := kept - {n};
      }
      todo := todo - {n};
    }
  }

  method KeepTables(tables: TableFiles, live: set<nat>) returns (kept: TableFiles)
    ensures kept == NeededTables(tables, live)
  {
    kept := tables;
    var todo := tables.Keys;
    while todo != {}
      invariant todo <= tables.Keys
      invariant kept.Keys == set n | n in tables.Keys && (n in todo || n in live)
      invariant forall n :: n in kept ==> kept[n] == tables[n]
      decreases todo
    {
      var n :| n in todo;
      if n !in live {
        kept := kept - {n};
      }
      todo := todo - {n};
    }
  }

  // ---------------------------------------------------------------- the object

  class Db {
    var mem: seq<Entry>
    var imm: Option<seq<Entry>>
    var version: seq<Files>
    var snapshots: seq<nat>
    var last: nat
    var nextFile: nat
    var memLog: nat
    var disk: Disk
    ghost var history: seq<Op>
    ghost var immStart: nat
    ghost var memStart: nat

    /** The state of the machine this object is in. */
    ghost function State(): State
      reads this
    {
      Engine.State.State(
        history,
        Store(Elements(mem), if imm.Some? then Elements(imm.value) else {}, Sets(version)),
        imm.Some?, immStart, memStart, snapshots, last, nextFile, memLog, disk)
    }

    ghost predicate Ok()
      reads this
    {
      && Inv(State())
      && Sorted(mem) && (imm.Some? ==> Sorted(imm.value))
      && |version| == NUM_LEVELS && VersionOk(version)
      && forall l :: 0 <= l < NUM_LEVELS ==> Ascending(version[l])
    }

    /** Reads at the latest sequence number, or at a snapshot, show a replay of the history. */
    method Get(u: UserKey, snapshot: Option<nat>) returns (value: Option<Value>)
      requires Ok() && (snapshot.Some? ==> snapshot.value in snapshots)
      ensures value == Replay(history, u, if snapshot.Some? then snapshot.value else last)
    {
      hide Inv, WellFormed, UniqueSequences, Newest, Replay, Sets, VersionOk, Ascending, All;
      ghost var s := State();
      var n := if snapshot.Some? then snapshot.value else last;
      ReaderFacts(s, n);
      StoreFacts(s);
      var found := MemtableGet(u, n);
      if found.None? {
        NumbersAreDistinct();
        found := VersionGet(version, u, n, s.store);
      }
      value := ValueOf(found);
    }

    /** The newest version in the memtables is the newest of all; without one, none is visible there. */
    method MemtableGet(u: UserKey, n: nat) returns (found: Option<Entry>)
      requires Ok()
      ensures found.Some? ==> found == Newest(All(State().store), u, n)
      ensures found.None? ==> forall x :: x in State().store.mem + State().store.imm ==> !Visible(x, u, n)
    {
      hide Inv, WellFormed, UniqueSequences, Lookup, Newest, Sets, VersionOk, Ascending, All;
      StoreFacts(State());
      MemtableWins(State().store, u, n);
      LookupIsNewest(mem, u, n);
      found := Lookup(mem, u, n);
      if found.None? && imm.Some? {
        LookupIsNewest(imm.value, u, n);
        found := Lookup(imm.value, u, n);
      }
    }

    /** Iterates over exactly the keys a replay of the history shows, in order, with their
      * values: the latest, or those of a snapshot. */
    method NewIterator(snapshot: Option<nat>) returns (it: DbIterator)
      requires Ok() && (snapshot.Some? ==> snapshot.value in snapshots)
      ensures it.Ok() && !it.valid && fresh(it) && fresh(it.iter) && fresh(it.iter.children)
      ensures it.sequence == if snapshot.Some? then snapshot.value else last
      ensures it.sequence <= |history| && ShowsExactly(it.M(), it.sequence, history)
    {
      hide Inv, WellFormed, UniqueSequences, Replay, Sets, VersionOk, Ascending, Sorted, All, MergingIterator.Ok, ShowsExactly, Elements;
      ghost var s := State();
      var n := if snapshot.Some? then snapshot.value else last;
      ReaderFacts(s, n);
      StoreFacts(s);
      NumbersAreDistinct();
      StoreIsLayered();
      EmptyIsSorted();
      var iter := NewInternalIterator(mem, imm, version, s.store);
      RowsShowReads(iter.merged, n, history);
      it := new DbIterator(iter, n);
    }

    lemma StoreIsLayered()
      requires Ok()
      ensures Layered(State().store)
    {
    }

    lemma NumbersAreDistinct()
      requires Ok()
      ensures |version| == NUM_LEVELS
      ensures forall i, j :: 0 <= i < j < |version[0]| ==> version[0][i].number != version[0][j].number
    {
      hide Layered, Faithful, DiskInv, SnapshotsInv;
      DistinctNumbers(version, 0);
    }

    /** The representation of a state reached by an action is sound once the parts are. */
    lemma OkAgain()
      requires Inv(State()) && Sorted(mem) && (imm.Some? ==> Sorted(imm.value))
      requires |version| == NUM_LEVELS && forall l :: 0 <= l < NUM_LEVELS ==> Ascending(version[l])
      ensures Ok()
    {
      StoreFacts(State());
      VersionFacts(State());
      BuiltIsOk(version);
    }

    /** Every file of the version can be opened. */
    lemma VersionIsOnDisk()
      requires Ok()
      ensures forall l, f :: 0 <= l < NUM_LEVELS && f in version[l] ==> f.number in disk.tables && disk.tables[f.number] == f.entries
    {
      hide WellFormed, Faithful, LogsDurable, Describes, VersionOk;
      forall l, f | 0 <= l < NUM_LEVELS && f in version[l] ensures f.number in disk.tables && disk.tables[f.number] == f.entries {
        assert f in State().store.levels[l];
      }
    }

    /** A database just created. */
    constructor ()
      ensures Ok() && State() == Fresh()
    {
      mem, imm, version, snapshots := [], None, seq(NUM_LEVELS, _ => []), [];
      last, nextFile, memLog := 0, 4, 3;
      disk := Fresh().disk;
      history, immStart, memStart := [], 0, 0;
      new;
      hide Inv, VersionOk;
      FreshInv();
      NoFiles(version);
      assert State() == Fresh();
      OkAgain();
    }

    /** Logs a batch, inserts it into the memtable, publishes its sequence numbers. */
    method Write(ops: seq<Op>)
      requires Ok() && last + |ops| < MAX_SEQUENCE
      modifies this
      ensures Ok() && Enabled(old(State()), Action.Write(ops)) && State() == Apply(old(State()), Action.Write(ops))
      ensures history == old(history) + ops && last == old(last) + |ops|
    {
      hide Inv, VersionOk, Sorted, Ascending, Sets, EntriesOf, RecordEntries;
      ghost var s := State();
      WriteFacts(s, ops);
      var record := Record(last + 1, ops);
      disk := disk.(logs := disk.logs[memLog := disk.logs[memLog] + [record]]);
      mem := InsertInto(mem, record);
      last := last + |ops|;
      history := history + ops;
      OkAgain();
    }

    /** Switches to a new memtable and log once the previous memtable has been flushed. */
    method SwitchMemtable()
      requires Ok() && imm.None?
      modifies this
      ensures Ok() && Enabled(old(State()), Switch) && State() == Apply(old(State()), Switch)
      ensures mem == [] && imm == Some(old(mem)) && history == old(history) && last == old(last)
    {
      hide Inv, VersionOk, Sorted, Ascending, Sets;
      ghost var s := State();
      SwitchFacts(s);
      disk := disk.(logs := disk.logs[nextFile := []]);
      memLog := nextFile;
      nextFile := nextFile + 1;
      imm := Some(mem);
      mem := [];
      immStart, memStart := memStart, last;
      EmptyIsSorted();
      OkAgain();
    }

    method GetSnapshot() returns (n: nat)
      requires Ok()
      modifies this
      ensures Ok() && n == last && State() == Apply(old(State()), TakeSnapshot)
      ensures n in snapshots && multiset(snapshots) == multiset(old(snapshots)) + multiset{n}
    {
      hide Inv, VersionOk, Sorted, Ascending, Sets;
      ghost var s := State();
      SnapshotFacts(s);
      n := last;
      snapshots := snapshots + [n];
      OkAgain();
    }

    /** Gives up one snapshot and no other. */
    method ReleaseSnapshot(i: nat)
      requires Ok() && i < |snapshots|
      modifies this
      ensures Ok() && State() == Apply(old(State()), Action.ReleaseSnapshot(i))
      ensures multiset(old(snapshots)) == multiset(snapshots) + multiset{old(snapshots[i])}
    {
      hide Inv, VersionOk, Sorted, Ascending, Sets;
      assert snapshots == snapshots[..i] + [snapshots[i]] + snapshots[i + 1..];
      ghost var s := State();
      ReleaseFacts(s, i);
      snapshots := snapshots[..i] + snapshots[i + 1..];
      OkAgain();
    }

    /** Writes the immutable memtable to a table at the level its key range allows. */
    method CompactMemTable(maxGrandparentBytes: nat, size: seq<Entry> -> nat) returns (ghost a: Action)
      requires Ok() && imm.Some?
      modifies this
      ensures Ok() && Enabled(old(State()), a) && State() == Apply(old(State()), a)
      ensures if old(imm.value) == [] then a == FlushNothing else a.Flush? && a.table.entries == old(imm.value)
      ensures a.Flush? ==> DeepestFor(old(version), a.table, a.level, maxGrandparentBytes)
      ensures imm == None
    {
      hide Inv, VersionOk, Sorted, Ascending, Sets, SetOf, MayFlushTo, Elements, LogsDurable, TablesDurable, LogEdit, MustStopAt;
      var run := imm.value;
      if run == [] {
        ghost var s := State();
        a := FlushNothing;
        FlushFacts(s);
        FlushNothingFacts(s);
        EmptyIsSorted();
        nextFile := nextFile + 1;
        disk := disk.(manifest := LogEdit(disk.manifest, Edit({}, []), memLog, nextFile, last));
        imm := None;
        immStart := memStart;
        OkAgain();
      } else {
        var t := FinishTable(nextFile, size(run), run);
        var level := PickLevelForMemTableOutput(version, t.smallest.user, t.largest.user, maxGrandparentBytes);
        a := Flush(t, level);
        FlushedTable(State(), version, run, t, level);
        InstallFlushed(t, level);
      }
    }

    /** The new table joins its level; the log of the flushed memtable is no longer needed. */
    method InstallFlushed(t: Table, level: nat)
      requires Ok() && t.number == nextFile && level < NUM_LEVELS
      requires StoreInv(State()) && Enabled(State(), Flush(t, level)) && Inv(Apply(State(), Flush(t, level)))
      modifies this
      ensures Ok() && State() == Apply(old(State()), Flush(t, level)) && imm == None
    {
      hide Inv, VersionOk, Sorted, Ascending, Sets, SetOf, MayFlushTo, Elements, LogsDurable, TablesDurable, LogEdit, AddedFiles, ApplyEdit, WellFormed;
      ghost var s := State();
      FlushFacts(s);
      NewNumberUnused(s, version, nextFile);
      FlushEdit(level, t);
      EmptyIsSorted();
      var version' := BuildVersion(version, AddedFiles(level, [t]));
      EditedByFlush(Sets(version), level, t);
      version := version';
      nextFile := nextFile + 1;
      disk := Disk(LogEdit(disk.manifest, AddedFiles(level, [t]), memLog, nextFile, last), disk.logs, disk.tables + map[t.number := t.entries]);
      imm := None;
      immStart := memStart;
      assert State() == Apply(s, Flush(t, level));
      hide State, Apply, Enabled;
      OkAgain();
    }

    /** Moves the only input of a compaction down one level, without rewriting it. */
    method MoveFile(level: nat, upper: Files, lo: UserKey, hi: UserKey) returns (ghost a: Action)
      requires Ok() && |upper| == 1
      requires Selected(Sets(version), Job(level, SetOf(upper), {}, lo, hi)) && NewerStays(Sets(version)[level], SetOf(upper))
      modifies this
      ensures Ok() && Enabled(old(State()), a) && State() == Apply(old(State()), a)
      ensures a == Move(Job(level, SetOf(upper), {}, lo, hi), upper[0])
    {
      hide Inv, VersionOk, Sorted, Ascending, Sets, Selected, NewerStays, WellFormed, NumbersUnique, ApplyEdit, CompactionEdit, LogEdit, Compacted, Edited;
      ghost var s := State();
      ghost var j := Job(level, SetOf(upper), {}, lo, hi);
      var t := upper[0];
      a := Move(j, t);
      CompactionSetting(s, j, upper, []);
      SingleFile(upper);
      assert upper == [t];
      MoveFacts(s, j, t);
      MovedNumber(version, level, t);
      EditLevels(level, j.upper, {}, [t]);
      var e := CompactionEdit(level, {t}, {}, [t]);
      var version' := BuildVersion(version, e);
      EditedByCompaction(Sets(version), j, [t]);
      version := version';
      disk := disk.(manifest := LogEdit(disk.manifest, e, disk.manifest.LogNumber(), nextFile, last));
      OkAgain();
    }

    /** Merges the inputs of a compaction into output tables, dropping what no reader can tell
      * apart. */
    method WriteOutputs(level: nat, upper: Files, lower: Files, ghost j: Job,
                        stopBefore: nat -> bool, full: seq<Entry> -> bool, size: seq<Entry> -> nat) returns (outs: Files)
      requires Ok() && MergeReady(level, upper, lower)
      requires j.level == level && j.upper == SetOf(upper) && j.lower == SetOf(lower) && Selected(Sets(version), j)
      ensures Outputs(j, SetOf(outs)) && Contents(SetOf(outs)) == Kept(Sets(version), j, Oldest(State()))
      ensures NumberedFrom(SetOf(outs), nextFile, nextFile + |outs|)
    {
      hide Inv, VersionOk, Sorted, Ascending, Sets, SetOf, Selected, WellFormed, NumbersUnique;
      hide Outputs, Kept, Contents, MergeReady, UniqueSequences, Written, MergingIterator.Ok, BaseLevelScan.Ok, NumberedFrom;
      ghost var s := State();
      CompactionSetting(s, j, upper, lower);
      var smallest := if snapshots == [] then last else snapshots[0];
      var input := MakeInputIterator(level, upper, lower, s.store);
      var scan := new BaseLevelScan(version, level);
      forall e | e in input.merged ensures e.key.seqno <= MAX_SEQUENCE {
        assert e in Elements(input.merged);
      }
      ghost var ends;
      outs, ends := DoCompactionWork(input, scan, j, smallest, nextFile, stopBefore, full, size);
      WorkIsOutputs(input.merged, Sets(version), j, smallest, outs, nextFile);
    }

    /** Rewrites the inputs of a compaction and installs the result. The last precondition is the
      * one the selection does not establish. */
    method CompactFiles(level: nat, upper: Files, lower: Files, lo: UserKey, hi: UserKey,
                        stopBefore: nat -> bool, full: seq<Entry> -> bool, size: seq<Entry> -> nat) returns (ghost a: Action)
      requires Ok() && MergeReady(level, upper, lower)
      requires Selected(Sets(version), Job(level, SetOf(upper), SetOf(lower), lo, hi)) && NewerStays(Sets(version)[level], SetOf(upper))
      requires forall d :: !Resurrects(State().store, Job(level, SetOf(upper), SetOf(lower), lo, hi), Oldest(State()), d)
      modifies this
      ensures Ok() && Enabled(old(State()), a) && State() == Apply(old(State()), a)
      ensures a.Compact? && a.job == Job(level, SetOf(upper), SetOf(lower), lo, hi)
    {
      hide Inv, VersionOk, Sorted, Ascending, Sets, SetOf, Selected, NewerStays, WellFormed, NumbersUnique, ApplyEdit, CompactionEdit;
      hide Resurrects, Outputs, Kept, Contents, MergeReady, UniqueSequences, NumberedFrom;
      ghost var s := State();
      ghost var j := Job(level, SetOf(upper), SetOf(lower), lo, hi);
      CompactionSetting(s, j, upper, lower);
      var outs := WriteOutputs(level, upper, lower, j, stopBefore, full, size);
      CompactFacts(s, j, outs);
      a := Compact(j, outs, nextFile + |outs|);
      InstallCompactionResults(level, upper, lower, outs, j);
    }

    /** The version with the inputs of a compaction replaced by its outputs. */
    method BuildCompacted(e: Edit, outs: Files, ghost j: Job) returns (version': seq<Files>)
      requires Ok() && Selected(Sets(version), j) && e == CompactionEdit(j.level, j.upper, j.lower, outs)
      requires NumberedFrom(SetOf(outs), nextFile, nextFile + |outs|)
      ensures |version'| == NUM_LEVELS && Sets(version') == Compacted(Sets(version), j, SetOf(outs))
      ensures forall l :: 0 <= l < NUM_LEVELS ==> Ascending(version'[l])
    {
      hide Inv, StoreInv, VersionOk, Sorted, Ascending, Sets, SetOf, Selected, WellFormed, NumbersUnique, ApplyEdit, CompactionEdit;
      hide NumberedFrom, Compacted, Edited;
      ghost var s := State();
      VersionSetting(s, j);
      OutputNumbers(outs, nextFile, nextFile + |outs|);
      NewNumberUnused(s, version, nextFile);
      EditLevels(j.level, j.upper, j.lower, outs);
      version' := BuildVersion(version, e);
      EditedByCompaction(Sets(version), j, outs);
    }

    /** Replaces the inputs of a compaction by its outputs. */
    method InstallCompactionResults(level: nat, upper: Files, lower: Files, outs: Files, ghost j: Job)
      requires Ok() && j.level == level && j.upper == SetOf(upper) && j.lower == SetOf(lower) && Selected(Sets(version), j)
      requires NumberedFrom(SetOf(outs), nextFile, nextFile + |outs|)
      requires StoreInv(State()) && Enabled(State(), Compact(j, outs, nextFile + |outs|))
      requires Inv(Apply(State(), Compact(j, outs, nextFile + |outs|)))
      modifies this
      ensures Ok() && State() == Apply(old(State()), Compact(j, outs, old(nextFile) + |outs|))
    {
      hide Inv, StoreInv, VersionOk, Sorted, Ascending, Sets, SetOf, Selected, WellFormed, NumbersUnique, ApplyEdit, CompactionEdit;
      hide NumberedFrom, NewerStays, Resurrects, Outputs, Kept, Contents, LogEdit, Compacted, FileOf, Elements;
      ghost var s := State();
      OutputNumbers(outs, nextFile, nextFile + |outs|);
      var e := CompactionEdit(level, SetOf(upper), SetOf(lower), outs);
      version := BuildCompacted(e, outs, j);
      nextFile := nextFile + |outs|;
      disk := Disk(LogEdit(disk.manifest, e, disk.manifest.LogNumber(), nextFile, last), disk.logs, disk.tables + FileOf(SetOf(outs)));
      assert State() == Apply(s, Compact(j, outs, nextFile));
      hide State, Apply, Enabled;
      OkAgain();
    }

    /** A background step: move the file if that is all there is to do, otherwise rewrite. */
    method BackgroundCompaction(level: nat, upper: Files, lower: Files, lo: UserKey, hi: UserKey, grandparents: Files,
                                isManual: bool, maxGrandparentBytes: nat,
                                stopBefore: nat -> bool, full: seq<Entry> -> bool, size: seq<Entry> -> nat) returns (ghost a: Action)
      requires Ok() && imm.None? && MergeReady(level, upper, lower)
      requires Selected(Sets(version), Job(level, SetOf(upper), SetOf(lower), lo, hi)) && NewerStays(Sets(version)[level], SetOf(upper))
      requires isManual || !IsTrivialMove(upper, lower, grandparents, maxGrandparentBytes)
        ==> forall d :: !Resurrects(State().store, Job(level, SetOf(upper), SetOf(lower), lo, hi), Oldest(State()), d)
      modifies this
      ensures Ok() && Enabled(old(State()), a) && State() == Apply(old(State()), a)
      ensures a.Move? <==> !isManual && |upper| == 1 && lower == [] && TotalSize(grandparents) <= maxGrandparentBytes
    {
      hide Inv, VersionOk, Sorted, Ascending, Sets, Selected, NewerStays, Resurrects, MergeReady;
      if !isManual && IsTrivialMove(upper, lower, grandparents, maxGrandparentBytes) {
        assert SetOf(lower) == {};
        a := MoveFile(level, upper, lo, hi);
      } else {
        a := CompactFiles(level, upper, lower, lo, hi, stopBefore, full, size);
      }
    }

    /** Deletes the logs recovery no longer needs and the tables no live version names. */
    method DeleteObsoleteFiles(pinned: set<nat>)
      requires Ok()
      modifies this`disk
      ensures Ok() && Enabled(old(State()), Collect(pinned)) && State() == Apply(old(State()), Collect(pinned))
      ensures forall l, f :: 0 <= l < NUM_LEVELS && f in version[l] ==> f.number in disk.tables && disk.tables[f.number] == f.entries
      ensures forall n :: n in disk.logs <==> n in old(disk.logs) && n >= disk.manifest.LogNumber()
      ensures forall n :: n in disk.tables <==> n in old(disk.tables) && (n in pinned || exists l, f :: 0 <= l < NUM_LEVELS && f in version[l] && f.number == n)
    {
      hide Inv, VersionOk, Sorted, Ascending;
      ghost var s := State();
      CollectFacts(s, pinned);
      var live := pinned + LiveFiles(version);
      LiveFilesAre(version);
      var logs := KeepLogs(disk.logs, disk.manifest.LogNumber());
      var tables := KeepTables(disk.tables, live);
      disk := Disk(disk.manifest, logs, tables);
      OkAgain();
      VersionIsOnDisk();
    }

    /** Opening a recovered database: a new log, and a descriptor that needs no older one. */
    method InstallRecovered(v: seq<Files>, listed: seq<(nat, Table)>, recovered: Files, newLog: nat, lastSequence: nat)
      requires Sets(v) == RecoveredLevels(disk, recovered)
      requires forall i, k :: 0 <= i < k < |recovered| ==> recovered[i].number < recovered[k].number
      requires lastSequence == MaxSequence(ReplayedRecords(disk, newLog), disk.manifest.Last())
      modifies this
      ensures State() == Reopened(old(State()), listed, recovered, newLog)
      ensures version == v && mem == [] && imm == None
    {
      hide MaxSequence, ReplayedRecords, ReopenedDisk, RecoveredLevels, Sets, Sorted;
      mem, imm, snapshots := [], None, [];
      version, last := v, lastSequence;
      nextFile, memLog := newLog + 1, newLog;
      immStart, memStart := last, last;
      disk := ReopenedDisk(disk, listed, recovered, newLog, last);
      EmptyIsSorted();
    }

    /** Opens the database again after a crash: everything in memory is forgotten, and rebuilt
      * from the descriptor's records, the files they name and the logs still needed. */
    method Recover(full: seq<Entry> -> bool, size: seq<Entry> -> nat) returns (ghost a: Action)
      requires Ok()
      modifies this
      ensures a.Reopen? && Ok() && Enabled(old(State()), a) && State() == Apply(old(State()), a)
    {
      hide Inv, StoreInv, VersionOk, Sorted, Ascending, Sets, NumbersUnique, RecoveredTables, MaxSequence, Elements;
      hide RecoveredFiles, WithRecovered, ReplayedRecords, Lists, OneFileANumber, RecordLevels, ReplayedLevels, LogEdit;
      ghost var s := State();
      DiskFacts(s);
      DescriptorFacts(s);
      var replayed := ReplayDescriptor(disk.manifest.edits, disk.tables);
      var base, m := replayed.value.version, replayed.value;
      SetsLength(base);
      var listed := ListTables(base);
      var recovered, cuts, newLog, maxSequence := ReplayLogs(disk, full, size, s, listed);
      a := Reopen(listed, recovered, cuts, newLog);
      var v := AddRecovered(base, recovered, m.nextFile);
      InstallRecovered(v, listed, recovered, newLog, if m.last < maxSequence then maxSequence else m.last);
      EmptyIsSorted();
      assert State() == Apply(s, a);
      hide State, Apply, Enabled;
      OkAgain();
    }
  }
}
