/** The iterator a compaction reads: level-0 inputs one by one, each sorted level as one run. */
module MergeInputs {
  import opened Keys
  import opened Layers
  import opened Compaction
  import opened VersionSet
  import opened Merging

  // ---------------------------------------------------------------- concatenating a sorted level

  function Concatenated(files: Files): seq<Entry> {
    if files == [] then [] else files[0].entries + Concatenated(files[1..])
  }

  lemma {:induction false} ConcatenatedIs(files: Files)
    requires AllValid(files) && SortedFiles(files)
    ensures Sorted(Concatenated(files)) && Elements(Concatenated(files)) == Contents(SetOf(files))
  {
    hide Sorted, Contents;
    if files == [] {
      SortedNothing();
      assert SetOf(files) == {};
    } else {
      var f, rest := files[0], files[1..];
      assert f in files && forall g :: g in rest ==> g in files;
      ConcatenatedIs(rest);
      forall x, y | x in f.entries && y in Concatenated(rest) ensures x.key.Before(y.key) {
        assert y in Elements(Concatenated(rest));
        FirstBeforeRest(files, x, y);
      }
      SortedTogether(f.entries, Concatenated(rest));
      assert SetOf(files) == {f} + SetOf(rest) by { assert files == [f] + rest; }
      OneMoreTable(f, SetOf(rest));
    }
  }

  lemma OneMoreTable(t: Table, tables: set<Table>)
    ensures Contents({t} + tables) == Elements(t.entries) + Contents(tables)
  {
  }

  lemma SortedNothing()
    ensures Sorted([]) && Elements([]) == Contents({})
  {
  }

  lemma SortedTogether(a: seq<Entry>, b: seq<Entry>)
    requires Sorted(a) && Sorted(b) && forall x, y :: x in a && y in b ==> x.key.Before(y.key)
    ensures Sorted(a + b) && Elements(a + b) == Elements(a) + Elements(b)
  {
  }

  lemma FirstBeforeRest(files: Files, x: Entry, y: Entry)
    requires AllValid(files) && SortedFiles(files) && files != []
    requires x in files[0].entries && y in Contents(SetOf(files[1..]))
    ensures x.key.Before(y.key)
  {
    var g :| g in SetOf(files[1..]) && y in g.entries;
    var i :| 0 <= i < |files[1..]| && files[1..][i] == g;
    EntryBounds(files, 0, x);
    EntryBounds(files, i + 1, y);
    assert files[0].largest.Before(files[i + 1].smallest);
  }

  // ---------------------------------------------------------------- a merge exists

  ghost predicate Chain(s: set<Entry>) {
    forall a, b :: a in s && b in s && a != b ==> a.key.Before(b.key) || b.key.Before(a.key)
  }

  lemma UniqueIsChain(s: set<Entry>)
    requires UniqueSequences(s)
    ensures Chain(s)
  {
  }

  lemma SortedInsert(run: seq<Entry>, e: Entry) returns (r: seq<Entry>)
    requires Sorted(run) && forall x :: x in run ==> x.key.Before(e.key) || e.key.Before(x.key)
    ensures Sorted(r) && Elements(r) == Elements(run) + {e}
  {
    hide Sorted, Elements;
    var i := SeekIndex(run, e.key);
    assert i < |run| ==> run[i] in run;
    r := run[..i] + [e] + run[i..];
    InsertKeepsSorted(run, i, e);
  }

  lemma {:induction false} SortSet(s: set<Entry>) returns (m: seq<Entry>)
    requires Chain(s)
    ensures Sorted(m) && Elements(m) == s
    decreases |s|
  {
    if s == {} {
      m := [];
    } else {
      var e :| e in s;
      var rest := SortSet(s - {e});
      forall x | x in rest ensures x.key.Before(e.key) || e.key.Before(x.key) {
        assert x in Elements(rest);
      }
      hide Sorted, Elements;
      m := SortedInsert(rest, e);
    }
  }

  // ---------------------------------------------------------------- children of the merge

  /** One run per level-0 file, one per sorted level. */
  function UpperRuns(level: nat, upper: Files): seq<seq<Entry>> {
    if level == 0 then seq(|upper|, k requires 0 <= k < |upper| => upper[k].entries)
    else if upper == [] then [] else [Concatenated(upper)]
  }

  function InputRuns(level: nat, upper: Files, lower: Files): seq<seq<Entry>> {
    UpperRuns(level, upper) + (if lower == [] then [] else [Concatenated(lower)])
  }

  /** Each run is sorted and sits in one place of the store. */
  ghost predicate RunAt(st: Store, level: nat, upper: Files, lower: Files, k: nat, p: Place)
    requires k < |InputRuns(level, upper, lower)|
  {
    Sorted(InputRuns(level, upper, lower)[k]) && forall e :: e in InputRuns(level, upper, lower)[k] ==> At(st, p, e)
  }

  function RunPlace(level: nat, upper: Files, k: nat): Place {
    if level == 0 && k < |upper| then Level0(upper[k].number)
    else if k == |UpperRuns(level, upper)| then Level(level + 1)
    else Level(level)
  }

  lemma RunIsAt(st: Store, level: nat, upper: Files, lower: Files, k: nat)
    requires |st.levels| == NUM_LEVELS && level + 1 < NUM_LEVELS
    requires SetOf(upper) <= st.levels[level] && SetOf(lower) <= st.levels[level + 1]
    requires AllValid(upper) && AllValid(lower) && MergeReady(level, upper, lower)
    requires k < |InputRuns(level, upper, lower)|
    ensures RunAt(st, level, upper, lower, k, RunPlace(level, upper, k))
  {
    hide Layered, SortedFiles;
    var run := InputRuns(level, upper, lower)[k];
    if level == 0 && k < |upper| {
      assert upper[k] in upper && upper[k] in SetOf(upper);
    } else {
      var below := k == |UpperRuns(level, upper)|;
      assert run == Concatenated(if below then lower else upper);
      WholeLevelAt(st, if below then level + 1 else level, if below then lower else upper);
    }
  }

  lemma WholeLevelAt(st: Store, l: nat, files: Files)
    requires 1 <= l < |st.levels| && SetOf(files) <= st.levels[l] && AllValid(files)
    requires SortedFiles(files)
    ensures Sorted(Concatenated(files)) && forall e :: e in Concatenated(files) ==> At(st, Level(l), e)
  {
    ConcatenatedIs(files);
    forall e | e in Concatenated(files) ensures At(st, Level(l), e) {
      assert e in Elements(Concatenated(files));
      var t :| t in SetOf(files) && e in t.entries;
    }
  }

  /** Different runs sit in different layers. */
  lemma RunPlacesDiffer(st: Store, level: nat, upper: Files, lower: Files, k: nat, l: nat)
    requires |st.levels| == NUM_LEVELS && level + 1 < NUM_LEVELS && NumbersUnique(st.levels)
    requires SetOf(upper) <= st.levels[level] && MergeReady(level, upper, lower)
    requires k < l < |InputRuns(level, upper, lower)|
    ensures Above(RunPlace(level, upper, k), RunPlace(level, upper, l)) || Above(RunPlace(level, upper, l), RunPlace(level, upper, k))
  {
    if level == 0 && l < |upper| {
      assert upper[k] in SetOf(upper) && upper[l] in SetOf(upper);
    }
  }

  lemma RunsAreMergeable(st: Store, level: nat, upper: Files, lower: Files, merged: seq<Entry>)
    requires WellFormed(st) && level + 1 < NUM_LEVELS
    requires SetOf(upper) <= st.levels[level] && SetOf(lower) <= st.levels[level + 1]
    requires MergeReady(level, upper, lower)
    requires Sorted(merged) && Elements(merged) == Contents(SetOf(upper)) + Contents(SetOf(lower))
    ensures IsMerge(InputRuns(level, upper, lower), merged)
  {
    hide Layered, NumbersUnique, TablesValid, LevelsDisjoint, MergeReady, AllValid;
    InputsValid(st, level, upper, lower);
    RunsHoldInputs(level, upper, lower);
    assert |st.levels| == NUM_LEVELS;
    hide WellFormed, SetOf, Contents;
    var runs := InputRuns(level, upper, lower);
    hide InputRuns;
    forall k | 0 <= k < |runs| ensures Sorted(runs[k]) {
      RunIsAt(st, level, upper, lower, k);
    }
    forall k, e | 0 <= k < |runs| && e in runs[k] ensures e in merged {
      assert e in Elements(merged);
    }
    forall e | e in merged ensures exists k :: 0 <= k < |runs| && e in runs[k] {
      assert e in Elements(merged);
    }
    forall k, l, e: Entry, f: Entry | 0 <= k < |runs| && 0 <= l < |runs| && k != l && e in runs[k] && f in runs[l]
      ensures e.key.Before(f.key) || f.key.Before(e.key)
    {
      RunsApart(st, level, upper, lower, k, l, e, f);
    }
  }

  lemma InputsValid(st: Store, level: nat, upper: Files, lower: Files)
    requires Shaped(st.levels) && level + 1 < NUM_LEVELS
    requires SetOf(upper) <= st.levels[level] && SetOf(lower) <= st.levels[level + 1]
    ensures AllValid(upper) && AllValid(lower)
  {
    forall f | f in upper ensures f.Valid() { assert f in SetOf(upper); }
    forall f | f in lower ensures f.Valid() { assert f in SetOf(lower); }
  }

  ghost predicate InSomeRun(runs: seq<seq<Entry>>, e: Entry) {
    exists k :: 0 <= k < |runs| && e in runs[k]
  }

  lemma RunsHoldInputs(level: nat, upper: Files, lower: Files)
    requires AllValid(upper) && AllValid(lower) && MergeReady(level, upper, lower)
    ensures forall e :: e in Contents(SetOf(upper)) + Contents(SetOf(lower)) <==> InSomeRun(InputRuns(level, upper, lower), e)
  {
    var runs, u := InputRuns(level, upper, lower), UpperRuns(level, upper);
    ConcatenatedIs(lower);
    forall e | e in Contents(SetOf(upper)) + Contents(SetOf(lower))
      ensures exists k :: 0 <= k < |runs| && e in runs[k]
    {
      if e in Contents(SetOf(lower)) {
        assert e in Elements(Concatenated(lower));
        assert runs[|u|] == Concatenated(lower);
      } else {
        var t :| t in SetOf(upper) && e in t.entries;
        var i :| 0 <= i < |upper| && upper[i] == t;
        if level == 0 {
          assert runs[i] == t.entries;
        } else {
          ConcatenatedIs(upper);
          assert e in Elements(Concatenated(upper));
          assert runs[0] == Concatenated(upper);
        }
      }
    }
    forall k, e | 0 <= k < |runs| && e in runs[k]
      ensures e in Contents(SetOf(upper)) + Contents(SetOf(lower))
    {
      if k == |u| {
        assert e in Elements(Concatenated(lower));
      } else if level == 0 {
        assert upper[k] in SetOf(upper);
      } else {
        ConcatenatedIs(upper);
        assert e in Elements(Concatenated(upper));
      }
    }
  }

  lemma RunsApart(st: Store, level: nat, upper: Files, lower: Files, k: nat, l: nat, e: Entry, f: Entry)
    requires WellFormed(st) && level + 1 < NUM_LEVELS
    requires SetOf(upper) <= st.levels[level] && SetOf(lower) <= st.levels[level + 1]
    requires AllValid(upper) && AllValid(lower) && MergeReady(level, upper, lower)
    requires k < |InputRuns(level, upper, lower)| && l < |InputRuns(level, upper, lower)| && k != l
    requires e in InputRuns(level, upper, lower)[k] && f in InputRuns(level, upper, lower)[l]
    ensures e.key.Before(f.key) || f.key.Before(e.key)
  {
    RunIsAt(st, level, upper, lower, k);
    RunIsAt(st, level, upper, lower, l);
    RunPlacesDiffer(st, level, upper, lower, if k < l then k else l, if k < l then l else k);
    LayersApart(st, RunPlace(level, upper, k), RunPlace(level, upper, l), e, f);
  }

  lemma LayersApart(st: Store, p: Place, q: Place, e: Entry, f: Entry)
    requires Layered(st) && At(st, p, e) && At(st, q, f) && (Above(p, q) || Above(q, p))
    ensures e.key.Before(f.key) || f.key.Before(e.key)
  {
  }

  /** The iterator over the inputs of a compaction. */
  method MakeInputIterator(level: nat, upper: Files, lower: Files, ghost st: Store) returns (input: MergingIterator)
    requires WellFormed(st) && UniqueSequences(All(st)) && level + 1 < NUM_LEVELS
    requires SetOf(upper) <= st.levels[level] && SetOf(lower) <= st.levels[level + 1]
    requires MergeReady(level, upper, lower)
    ensures input.Ok() && fresh(input) && fresh(input.children)
    ensures Elements(input.merged) == Contents(SetOf(upper)) + Contents(SetOf(lower))
  {
    hide WellFormed, UniqueSequences, MergeReady, IsMerge, SetOf, Contents, InLevels;
    var runs := InputRuns(level, upper, lower);
    var children: seq<Cursor> := [];
    for k := 0 to |runs|
      invariant |children| == k && fresh(children)
      invariant forall i :: 0 <= i < k ==> children[i].run == runs[i]
      invariant forall i, j :: 0 <= i < j < k ==> children[i] != children[j]
    {
      var c := new Cursor(runs[k]);
      children := children + [c];
    }
    assert |st.levels| == NUM_LEVELS by { LevelCount(st); }
    InputsAreChain(st, level, upper, lower);
    ghost var merged := SortSet(Contents(SetOf(upper)) + Contents(SetOf(lower)));
    RunsAreMergeable(st, level, upper, lower, merged);
    assert seq(|children|, k requires 0 <= k < |children| => children[k].run) == runs;
    input := new MergingIterator(children, merged);
  }

  lemma LevelCount(st: Store)
    requires WellFormed(st)
    ensures |st.levels| == NUM_LEVELS
  {
  }

  lemma InputsAreChain(st: Store, level: nat, upper: Files, lower: Files)
    requires UniqueSequences(All(st)) && level + 1 < |st.levels|
    requires SetOf(upper) <= st.levels[level] && SetOf(lower) <= st.levels[level + 1]
    ensures Chain(Contents(SetOf(upper)) + Contents(SetOf(lower)))
    ensures UniqueSequences(Contents(SetOf(upper)) + Contents(SetOf(lower)))
  {
    forall e | e in Contents(SetOf(upper)) + Contents(SetOf(lower)) ensures e in All(st) {
      if e in Contents(SetOf(upper)) {
        var t :| t in SetOf(upper) && e in t.entries;
        assert t in st.levels[level];
      } else {
        var t :| t in SetOf(lower) && e in t.entries;
        assert t in st.levels[level + 1];
      }
    }
    UniqueIsChain(Contents(SetOf(upper)) + Contents(SetOf(lower)));
  }
}
