/** The iterator a user gets: memtables, level-0 files and sorted levels merged into rows. */
module UserIterator {
  import opened Keys
  import opened Layers
  import opened History
  import opened VersionSet
  import opened Merging
  import opened MergeInputs
  import opened DbIter

  /** Each run is sorted and sits in one place of the store, no two in the same. */
  ghost predicate Placed(st: Store, runs: seq<seq<Entry>>, places: seq<Place>) {
    && |runs| == |places|
    && (forall k :: 0 <= k < |runs| ==> RunIn(st, runs[k], places[k]))
    && (forall k, l :: 0 <= k < l < |runs| ==> places[k] != places[l])
  }

  ghost predicate RunIn(st: Store, run: seq<Entry>, p: Place) {
    Sorted(run) && (p.Level? ==> p.level >= 1) && forall e :: e in run ==> At(st, p, e)
  }

  lemma OneMoreRun(st: Store, runs: seq<seq<Entry>>, places: seq<Place>, run: seq<Entry>, p: Place)
    requires Placed(st, runs, places) && p !in places && RunIn(st, run, p)
    ensures Placed(st, runs + [run], places + [p])
    ensures forall e :: InSomeRun(runs + [run], e) <==> InSomeRun(runs, e) || e in run
  {
    var more := runs + [run];
    forall e | InSomeRun(runs, e) || e in run ensures InSomeRun(more, e) {
      if e in run {
        assert more[|runs|] == run;
      } else {
        var k :| 0 <= k < |runs| && e in runs[k];
        assert more[k] == runs[k];
      }
    }
    forall e | InSomeRun(more, e) ensures InSomeRun(runs, e) || e in run {
      var k :| 0 <= k < |more| && e in more[k];
      assert k < |runs| ==> more[k] == runs[k];
    }
  }

  /** The entries of the first `n` levels. */
  ghost predicate InTop(version: seq<Files>, n: nat, e: Entry) {
    exists l, t :: 0 <= l < n && l < |version| && t in version[l] && e in t.entries
  }

  lemma NextLevelOnTop(version: seq<Files>, l: nat)
    requires l < |version|
    ensures forall e :: InTop(version, l + 1, e) <==> InTop(version, l, e) || e in Contents(SetOf(version[l]))
  {
    forall e | InTop(version, l, e) || e in Contents(SetOf(version[l])) ensures InTop(version, l + 1, e) {
      if InTop(version, l, e) {
        var k, t: Table :| 0 <= k < l && k < |version| && t in version[k] && e in t.entries;
      } else {
        var t :| t in SetOf(version[l]) && e in t.entries;
        assert t in version[l];
      }
    }
    forall e | InTop(version, l + 1, e) ensures InTop(version, l, e) || e in Contents(SetOf(version[l])) {
      var k, t: Table :| 0 <= k < l + 1 && k < |version| && t in version[k] && e in t.entries;
      if k == l {
        assert t in SetOf(version[l]);
      }
    }
  }

  /** The runs cover the memtables and the first `n` levels. */
  ghost predicate Covers(st: Store, version: seq<Files>, runs: seq<seq<Entry>>, n: nat) {
    forall e :: InSomeRun(runs, e) <==> e in st.mem || e in st.imm || InTop(version, n, e)
  }

  lemma EverythingCovered(st: Store, version: seq<Files>, runs: seq<seq<Entry>>)
    requires st.levels == Sets(version) && Covers(st, version, runs, |version|)
    ensures forall e :: InSomeRun(runs, e) <==> e in All(st)
  {
    forall e | InTop(version, |version|, e) ensures e in InLevels(st.levels) {
      var l, t: Table :| 0 <= l < |version| && t in version[l] && e in t.entries;
      assert t in st.levels[l];
    }
    forall e | e in InLevels(st.levels) ensures InTop(version, |version|, e) {
      var l, t: Table :| 0 <= l < |st.levels| && t in st.levels[l] && e in t.entries;
      assert t in version[l];
    }
  }

  lemma PlacedIsMerge(st: Store, runs: seq<seq<Entry>>, places: seq<Place>, merged: seq<Entry>)
    requires Layered(st) && Placed(st, runs, places)
    requires forall e :: InSomeRun(runs, e) <==> e in All(st)
    requires Sorted(merged) && Elements(merged) == All(st)
    ensures IsMerge(runs, merged)
  {
    hide Layered, Sorted, All;
    forall k, e | 0 <= k < |runs| && e in runs[k] ensures e in merged {
      assert InSomeRun(runs, e);
      assert e in Elements(merged);
    }
    forall e | e in merged ensures exists k :: 0 <= k < |runs| && e in runs[k] {
      assert e in Elements(merged);
      assert InSomeRun(runs, e);
    }
    forall k, l, e: Entry, f: Entry | 0 <= k < |runs| && 0 <= l < |runs| && k != l && e in runs[k] && f in runs[l]
      ensures e.key.Before(f.key) || f.key.Before(e.key)
    {
      assert RunIn(st, runs[k], places[k]) && RunIn(st, runs[l], places[l]);
      assert places[k] != places[l];
      LayersApart(st, places[k], places[l], e, f);
    }
  }

  // ---------------------------------------------------------------- collecting the runs

  method AddLevel0(files: Files, runs0: seq<seq<Entry>>, ghost places0: seq<Place>, ghost st: Store)
    returns (runs: seq<seq<Entry>>, ghost places: seq<Place>)
    requires |st.levels| > 0 && SetOf(files) == st.levels[0] && AllValid(files)
    requires forall i, j :: 0 <= i < j < |files| ==> files[i].number != files[j].number
    requires Placed(st, runs0, places0) && forall p :: p in places0 ==> p == Memtable || p == Immutable
    ensures Placed(st, runs, places) && forall p :: p in places ==> !p.Level?
    ensures forall e :: InSomeRun(runs, e) <==> InSomeRun(runs0, e) || e in Contents(SetOf(files))
  {
    hide Placed, InSomeRun;
    runs, places := runs0, places0;
    for i := 0 to |files|
      invariant Placed(st, runs, places)
      invariant forall p :: p in places ==> p == Memtable || p == Immutable || (p.Level0? && exists k :: 0 <= k < i && files[k].number == p.number)
      invariant forall e :: InSomeRun(runs, e) <==> InSomeRun(runs0, e) || exists k :: 0 <= k < i && e in files[k].entries
    {
      assert files[i] in files && files[i] in SetOf(files);
      OneMoreRun(st, runs, places, files[i].entries, Level0(files[i].number));
      runs, places := runs + [files[i].entries], places + [Level0(files[i].number)];
    }
    forall e | e in Contents(SetOf(files)) ensures exists k :: 0 <= k < |files| && e in files[k].entries {
      var t :| t in SetOf(files) && e in t.entries;
      var k :| 0 <= k < |files| && files[k] == t;
    }
    forall k, e | 0 <= k < |files| && e in files[k].entries ensures e in Contents(SetOf(files)) {
      assert files[k] in SetOf(files);
    }
  }

  /** The runs of a version: one per level-0 file, one per sorted level that has files. */
  method AddIterators(version: seq<Files>, runs0: seq<seq<Entry>>, ghost places0: seq<Place>, ghost st: Store)
    returns (runs: seq<seq<Entry>>, ghost places: seq<Place>)
    requires VersionOk(version) && st.levels == Sets(version)
    requires forall i, j :: 0 <= i < j < |version[0]| ==> version[0][i].number != version[0][j].number
    requires Placed(st, runs0, places0) && forall p :: p in places0 ==> p == Memtable || p == Immutable
    requires forall e :: InSomeRun(runs0, e) <==> e in st.mem || e in st.imm
    ensures Placed(st, runs, places) && Covers(st, version, runs, NUM_LEVELS)
  {
    hide Placed, InSomeRun, InTop, SortedFiles, Unique, NoRepeats, Contents, AllValid, RunIn;
    assert AllValid(version[0]);
    runs, places := AddLevel0(version[0], runs0, places0, st);
    NextLevelOnTop(version, 0);
    NothingOnTop(version);
    for l := 1 to NUM_LEVELS
      invariant Placed(st, runs, places) && Covers(st, version, runs, l)
      invariant forall p :: p in places ==> p.Level? ==> p.level < l
    {
      NextLevelOnTop(version, l);
      if version[l] != [] {
        LevelRunIn(st, version, l);
        OneMoreRun(st, runs, places, Concatenated(version[l]), Level(l));
        runs, places := runs + [Concatenated(version[l])], places + [Level(l)];
      } else {
        NothingThere();
      }
    }
  }

  lemma NothingOnTop(version: seq<Files>)
    ensures forall e :: !InTop(version, 0, e)
  {
  }

  lemma NothingThere()
    ensures Contents(SetOf([])) == {}
  {
  }

  lemma LevelRunIn(st: Store, version: seq<Files>, l: nat)
    requires VersionOk(version) && st.levels == Sets(version) && 1 <= l < NUM_LEVELS
    ensures RunIn(st, Concatenated(version[l]), Level(l))
    ensures forall e :: e in Concatenated(version[l]) <==> e in Contents(SetOf(version[l]))
  {
    hide SortedFiles, Sorted, Contents;
    assert AllValid(version[l]) && SortedFiles(version[l]) && Sets(version)[l] == SetOf(version[l]);
    WholeLevelAt(st, l, version[l]);
    ConcatenatedIs(version[l]);
    forall e ensures e in Concatenated(version[l]) <==> e in Elements(Concatenated(version[l])) {}
  }

  lemma MemtableRuns(st: Store, mem: seq<Entry>, imm: Option<seq<Entry>>)
    requires Sorted(mem) && Elements(mem) == st.mem
    requires if imm.Some? then Sorted(imm.value) && Elements(imm.value) == st.imm else st.imm == {}
    ensures Placed(st, [mem], [Memtable])
    ensures imm.Some? ==> Placed(st, [mem, imm.value], [Memtable, Immutable])
    ensures var runs := [mem] + (if imm.Some? then [imm.value] else []);
      forall e :: InSomeRun(runs, e) <==> e in st.mem || e in st.imm
  {
    forall e | e in mem ensures e in Elements(mem) {}
    if imm.Some? {
      forall e | e in imm.value ensures e in Elements(imm.value) {}
    }
    var runs := [mem] + (if imm.Some? then [imm.value] else []);
    forall e | e in st.mem || e in st.imm ensures InSomeRun(runs, e) {
      if e in st.mem {
        assert e in runs[0];
      } else {
        assert e in runs[1];
      }
    }
  }

  method NewInternalIterator(mem: seq<Entry>, imm: Option<seq<Entry>>, version: seq<Files>, ghost st: Store) returns (iter: MergingIterator)
    requires Layered(st) && UniqueSequences(All(st)) && VersionOk(version) && st.levels == Sets(version)
    requires forall i, j :: 0 <= i < j < |version[0]| ==> version[0][i].number != version[0][j].number
    requires Sorted(mem) && Elements(mem) == st.mem
    requires if imm.Some? then Sorted(imm.value) && Elements(imm.value) == st.imm else st.imm == {}
    ensures iter.Ok() && fresh(iter) && fresh(iter.children)
    ensures Sorted(iter.merged) && Elements(iter.merged) == All(st)
  {
    hide Layered, UniqueSequences, VersionOk, Sorted, Elements, All, Placed, InSomeRun, InTop, Covers, IsMerge, Sets;
    MemtableRuns(st, mem, imm);
    var runs := [mem];
    ghost var places := [Memtable];
    if imm.Some? {
      runs, places := runs + [imm.value], places + [Immutable];
      assert runs == [mem, imm.value] && places == [Memtable, Immutable];
    }
    assert runs == [mem] + (if imm.Some? then [imm.value] else []);
    runs, places := AddIterators(version, runs, places, st);
    LevelsOf(version);
    EverythingCovered(st, version, runs);
    UniqueIsChain(All(st));
    ghost var merged := SortSet(All(st));
    PlacedIsMerge(st, runs, places, merged);
    var children: seq<Cursor> := [];
    for k := 0 to |runs|
      invariant |children| == k && fresh(children)
      invariant forall i :: 0 <= i < k ==> children[i].run == runs[i]
      invariant forall i, j :: 0 <= i < j < k ==> children[i] != children[j]
    {
      var c := new Cursor(runs[k]);
      children := children + [c];
    }
    assert seq(|children|, k requires 0 <= k < |children| => children[k].run) == runs;
    iter := new MergingIterator(children, merged);
  }

  lemma LevelsOf(version: seq<Files>)
    requires VersionOk(version)
    ensures |version| == NUM_LEVELS
  {
  }

  /** The rows are the map a replay of the history up to `s` gives: its keys in order, each with
    * its value. */
  ghost predicate ShowsExactly(m: seq<Entry>, s: nat, history: seq<Op>)
    requires s <= |history|
  {
    var rows := Rows(m, s, |m|);
    && (forall k, l :: 0 <= k < l < |rows| ==> m[rows[k]].key.user < m[rows[l]].key.user)
    && (forall k :: 0 <= k < |rows| ==> Replay(history, m[rows[k]].key.user, s) == Some(m[rows[k]].value))
    && (forall u :: Replay(history, u, s).Some? ==> exists k :: 0 <= k < |rows| && m[rows[k]].key.user == u)
  }

  lemma RowsShowReads(m: seq<Entry>, s: nat, history: seq<Op>)
    requires Sorted(m) && UniqueSequences(Elements(m)) && s <= |history|
    requires forall u :: Reads(Elements(m), u, s) == Replay(history, u, s)
    ensures ShowsExactly(m, s, history)
  {
    hide Reads, Sorted, UniqueSequences, Replay;
    RowsAreTheVisibleMap(m, s);
    var rows := Rows(m, s, |m|);
    forall u | Replay(history, u, s).Some? ensures exists k :: 0 <= k < |rows| && m[rows[k]].key.user == u {
      assert Reads(Elements(m), u, s).Some?;
    }
  }
}
