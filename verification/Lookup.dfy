/** Layered lookup: memtables, then level 0 newest first, then one file per sorted level. */
module PointLookup {
  import opened Keys
  import opened Layers
  import opened VersionSet
  import opened EngineTheorems

  lemma TableLookup(files: Files, i: nat, u: UserKey, n: nat)
    requires AllValid(files) && Unique(files) && i < |files|
    ensures Lookup(files[i].entries, u, n) == Newest(Elements(files[i].entries), u, n)
  {
    var f := files[i];
    assert f in files && f in SetOf(files);
    forall e | e in f.entries ensures e in Contents(SetOf(files)) {}
    LookupIsNewest(f.entries, u, n);
  }

  // ---------------------------------------------------------------- one sorted level

  /** The file a level's search opens, given the first file ending at or after the target. */
  function LookAt(files: Files, index: nat, u: UserKey, n: nat): Option<Entry>
    requires index <= |files|
  {
    if index < |files| && files[index].smallest.user <= u then Lookup(files[index].entries, u, n) else None
  }

  /** A visible entry in a later file is no newer than the last one of the opened file. */
  lemma LaterFilesAreOlder(files: Files, u: UserKey, n: nat, index: nat, i: nat, x: Entry) returns (y: Entry)
    requires AllValid(files) && SortedFiles(files) && index < i < |files|
    requires !files[index].largest.Before(SeekKey(u, n))
    requires x in files[i].entries && Visible(x, u, n)
    ensures y in files[index].entries && Visible(y, u, n) && y.key.seqno >= x.key.seqno
  {
    EntryBounds(files, i, x);
    var f := files[index];
    assert f in files;
    y := f.entries[|f.entries| - 1];
  }

  lemma LevelEntry(files: Files, u: UserKey, n: nat, index: nat, i: nat, x: Entry)
    requires AllValid(files) && Unique(files) && SortedFiles(files) && index <= |files|
    requires forall k :: 0 <= k < index ==> files[k].largest.Before(SeekKey(u, n))
    requires index < |files| ==> !files[index].largest.Before(SeekKey(u, n))
    requires i < |files| && x in files[i].entries && Visible(x, u, n)
    ensures LookAt(files, index, u, n).Some? && LookAt(files, index, u, n).value.key.seqno >= x.key.seqno
  {
    hide Unique, SortedFiles;
    EntryBounds(files, i, x);
    assert index <= i;
    var y := x;
    if index < i {
      y := LaterFilesAreOlder(files, u, n, index, i, x);
    }
    EntryBounds(files, index, y);
    TableLookup(files, index, u, n);
  }

  /** At a sorted level one file suffices. */
  method LevelGet(files: Files, u: UserKey, n: nat) returns (found: Option<Entry>)
    requires AllValid(files) && Unique(files) && SortedFiles(files)
    ensures found == Newest(Contents(SetOf(files)), u, n)
  {
    hide Unique, SortedFiles, AllValid, Lookup;
    var index := FindFile(files, SeekKey(u, n));
    found := LookAt(files, index, u, n);
    LevelLookup(files, u, n, index);
  }

  lemma LevelLookup(files: Files, u: UserKey, n: nat, index: nat)
    requires AllValid(files) && Unique(files) && SortedFiles(files) && index <= |files|
    requires forall k :: 0 <= k < index ==> files[k].largest.Before(SeekKey(u, n))
    requires index < |files| ==> !files[index].largest.Before(SeekKey(u, n))
    ensures LookAt(files, index, u, n) == Newest(Contents(SetOf(files)), u, n)
  {
    hide SortedFiles, AllValid;
    var found := LookAt(files, index, u, n);
    var store := Contents(SetOf(files));
    forall x | x in store && Visible(x, u, n)
      ensures found.Some? && found.value.key.seqno >= x.key.seqno
    {
      var t :| t in SetOf(files) && x in t.entries;
      var i :| 0 <= i < |files| && files[i] == t;
      LevelEntry(files, u, n, index, i, x);
    }
    if found.Some? {
      TableLookup(files, index, u, n);
      assert files[index] in SetOf(files);
      NewestIs(store, u, n, found.value);
    }
  }

  // ---------------------------------------------------------------- level 0

  ghost predicate NewestFirst(files: Files) {
    forall i, j :: 0 <= i < j < |files| ==> files[i].number > files[j].number
  }

  /** The level-0 files whose range has `u`, newest first. */
  method Level0Candidates(files: Files, u: UserKey) returns (r: Files)
    requires forall i, j :: 0 <= i < j < |files| ==> files[i].number != files[j].number
    ensures NewestFirst(r)
    ensures forall f :: f in r <==> f in files && f.Overlaps(u, u)
  {
    r := [];
    for i := 0 to |files|
      invariant NewestFirst(r)
      invariant forall f :: f in r <==> f in files[..i] && f.Overlaps(u, u)
    {
      var f := files[i];
      assert files[..i + 1] == files[..i] + [f];
      if f.smallest.user <= u && u <= f.largest.user {
        var k := 0;
        while k < |r| && r[k].number > f.number
          invariant 0 <= k <= |r|
          invariant forall m :: 0 <= m < k ==> r[m].number > f.number
        {
          k := k + 1;
        }
        assert k < |r| ==> r[k] in r;
        r := r[..k] + [f] + r[k..];
      }
    }
    assert files[..|files|] == files;
  }

  /** Searching level-0 candidates newest first stops at the newest visible version. */
  method Level0Get(files: Files, u: UserKey, n: nat) returns (found: Option<Entry>, number: nat)
    requires AllValid(files) && Unique(files)
    requires forall i, j :: 0 <= i < j < |files| ==> files[i].number != files[j].number
    ensures found.None? ==> forall f, x :: f in files && x in f.entries ==> !Visible(x, u, n)
    ensures found.Some? ==> exists f :: f in files && f.number == number && Newest(Elements(f.entries), u, n) == found
    ensures found.Some? ==> forall f, x :: f in files && f.number > number && x in f.entries ==> !Visible(x, u, n)
  {
    hide Unique, Lookup;
    var candidates := Level0Candidates(files, u);
    number := 0;
    found := None;
    var i := 0;
    while i < |candidates|
      invariant 0 <= i <= |candidates| && found == None
      invariant forall k, x :: 0 <= k < i && x in candidates[k].entries ==> !Visible(x, u, n)
    {
      var f := candidates[i];
      assert f in candidates && f in files;
      var at :| 0 <= at < |files| && files[at] == f;
      TableLookup(files, at, u, n);
      found := Lookup(f.entries, u, n);
      if found.Some? {
        number := f.number;
        assert f in files && f.number == number && Newest(Elements(f.entries), u, n) == found;
        forall g, x | g in files && g.number > number && x in g.entries ensures !Visible(x, u, n) {
          NotCandidate(files, candidates, u, n, g, x);
          if g in candidates {
            var k :| 0 <= k < |candidates| && candidates[k] == g;
            assert k < i;
          }
        }
        return;
      }
      forall x | x in f.entries ensures !Visible(x, u, n) {
        assert x in Elements(f.entries);
      }
      i := i + 1;
    }
    forall f, x | f in files && x in f.entries ensures !Visible(x, u, n) {
      NotCandidate(files, candidates, u, n, f, x);
      if f in candidates {
        var k :| 0 <= k < |candidates| && candidates[k] == f;
      }
    }
  }

  lemma NotCandidate(files: Files, candidates: Files, u: UserKey, n: nat, f: Table, x: Entry)
    requires AllValid(files) && f in files && x in f.entries
    requires forall f :: f in candidates <==> f in files && f.Overlaps(u, u)
    ensures f in candidates || !Visible(x, u, n)
  {
    f.Bounds(x);
  }

  // ---------------------------------------------------------------- the version

  lemma Level0Wins(st: Store, files: Files, u: UserKey, n: nat, found: Entry, number: nat)
    requires WellFormed(st) && UniqueSequences(All(st)) && st.levels[0] == SetOf(files)
    requires forall x :: x in st.mem + st.imm ==> !Visible(x, u, n)
    requires exists f :: f in files && f.number == number && Newest(Elements(f.entries), u, n) == Some(found)
    requires forall f, x :: f in files && f.number > number && x in f.entries ==> !Visible(x, u, n)
    ensures Newest(All(st), u, n) == Some(found)
  {
    var f :| f in files && f.number == number && Newest(Elements(f.entries), u, n) == Some(found);
    assert f in st.levels[0];
    forall x | At(st, Level0(number), x) && Visible(x, u, n) ensures x.key.seqno <= found.key.seqno {
      var g :| g in st.levels[0] && g.number == number && x in g.entries;
      assert g == f && x in Elements(f.entries);
    }
    FirstLayerWins(st, Level0(number), u, n, found);
  }

  lemma LevelWins(st: Store, l: nat, u: UserKey, n: nat, found: Entry)
    requires WellFormed(st) && UniqueSequences(All(st)) && 1 <= l < NUM_LEVELS
    requires forall x :: x in st.mem + st.imm ==> !Visible(x, u, n)
    requires forall k, t, x :: 0 <= k < l && t in st.levels[k] && x in t.entries ==> !Visible(x, u, n)
    requires Newest(Contents(st.levels[l]), u, n) == Some(found)
    ensures Newest(All(st), u, n) == Some(found)
  {
    FirstLayerWins(st, Level(l), u, n, found);
  }

  /** The lookup through a version, when the memtables have nothing, is exact. */
  method VersionGet(version: seq<Files>, u: UserKey, n: nat, ghost st: Store) returns (found: Option<Entry>)
    requires VersionOk(version) && st.levels == Sets(version)
    requires WellFormed(st) && UniqueSequences(All(st))
    requires forall i, j :: 0 <= i < j < |version[0]| ==> version[0][i].number != version[0][j].number
    requires forall x :: x in st.mem + st.imm ==> !Visible(x, u, n)
    ensures found == Newest(All(st), u, n)
  {
    hide Unique, AllValid, SortedFiles, WellFormed, UniqueSequences, At;
    var number;
    found, number := Level0Get(version[0], u, n);
    if found.Some? {
      Level0Wins(st, version[0], u, n, found.value, number);
      return;
    }
    var l := 1;
    NothingIn(version, 0, u, n, st);
    while l < NUM_LEVELS
      invariant 1 <= l <= NUM_LEVELS && found == None
      invariant forall k, t, x :: 0 <= k < l && t in st.levels[k] && x in t.entries ==> !Visible(x, u, n)
    {
      found := LevelGet(version[l], u, n);
      if found.Some? {
        LevelWins(st, l, u, n, found.value);
        return;
      }
      NothingInLevel(version, l, u, n, st);
      l := l + 1;
    }
    NothingAnywhere(st, u, n);
  }

  lemma NothingIn(version: seq<Files>, l: nat, u: UserKey, n: nat, st: Store)
    requires |version| == NUM_LEVELS && l < NUM_LEVELS && st.levels == Sets(version)
    requires forall f, x :: f in version[l] && x in f.entries ==> !Visible(x, u, n)
    ensures forall t, x :: t in st.levels[l] && x in t.entries ==> !Visible(x, u, n)
  {
  }

  lemma NothingInLevel(version: seq<Files>, l: nat, u: UserKey, n: nat, st: Store)
    requires |version| == NUM_LEVELS && l < NUM_LEVELS && st.levels == Sets(version)
    requires Newest(Contents(SetOf(version[l])), u, n).None?
    ensures forall t, x :: t in st.levels[l] && x in t.entries ==> !Visible(x, u, n)
  {
    forall t, x | t in st.levels[l] && x in t.entries ensures !Visible(x, u, n) {
      assert x in Contents(SetOf(version[l]));
    }
  }

  lemma NothingAnywhere(st: Store, u: UserKey, n: nat)
    requires |st.levels| == NUM_LEVELS
    requires forall x :: x in st.mem + st.imm ==> !Visible(x, u, n)
    requires forall k, t, x :: 0 <= k < NUM_LEVELS && t in st.levels[k] && x in t.entries ==> !Visible(x, u, n)
    ensures Newest(All(st), u, n) == None
  {
  }

  /** A memtable that has a visible version has the newest one. */
  lemma MemtableWins(st: Store, u: UserKey, n: nat)
    requires WellFormed(st) && UniqueSequences(All(st))
    ensures Newest(st.mem, u, n).Some? ==> Newest(All(st), u, n) == Newest(st.mem, u, n)
    ensures Newest(st.mem, u, n).None? && Newest(st.imm, u, n).Some? ==> Newest(All(st), u, n) == Newest(st.imm, u, n)
  {
    if Newest(st.mem, u, n).Some? {
      FirstLayerWins(st, Memtable, u, n, Newest(st.mem, u, n).value);
    } else if Newest(st.imm, u, n).Some? {
      FirstLayerWins(st, Immutable, u, n, Newest(st.imm, u, n).value);
    }
  }
}
