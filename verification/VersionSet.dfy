/** Choosing files: binary searches, overlap closures, boundary files, flush levels. */
module VersionSet {
  import opened Keys
  import opened Layers
  import opened Compaction

  const MAX_MEM_COMPACT_LEVEL := 2

  function Sets(version: seq<Files>): seq<set<Table>> {
    seq(|version|, l requires 0 <= l < |version| => SetOf(version[l]))
  }

  ghost predicate AllValid(files: Files) {
    forall f :: f in files ==> f.Valid()
  }

  ghost predicate SortedFiles(files: Files) {
    forall i, j :: 0 <= i < j < |files| ==> files[i].largest.Before(files[j].smallest)
  }

  /** Two entries of one user key in a level never share a sequence number. */
  ghost predicate Unique(files: Files) {
    UniqueSequences(Contents(SetOf(files)))
  }

  ghost predicate VersionOk(version: seq<Files>) {
    && |version| == NUM_LEVELS
    && (forall l :: 0 <= l < NUM_LEVELS ==> AllValid(version[l]) && Unique(version[l]))
    && (forall l :: 1 <= l < NUM_LEVELS ==> SortedFiles(version[l]))
    && NoRepeats(version[0])
  }

  ghost predicate NoRepeats(files: Files) {
    forall i, j :: 0 <= i < j < |files| ==> files[i] != files[j]
  }

  lemma UsersAscend(files: Files, i: nat, j: nat)
    requires AllValid(files) && SortedFiles(files) && i <= j < |files|
    ensures files[i].smallest.user <= files[i].largest.user
    ensures files[i].smallest.user <= files[j].smallest.user
    ensures files[i].largest.user <= files[j].largest.user
    ensures i < j ==> files[i].largest.user <= files[j].smallest.user
  {
    var f, g := files[i], files[j];
    assert f in files && g in files;
    f.Bounds(f.entries[0]);
    g.Bounds(g.entries[0]);
  }

  // ---------------------------------------------------------------- searching

  /** The first file whose largest key is at or after `key`. */
  method FindFile(files: Files, key: InternalKey) returns (right: nat)
    requires AllValid(files) && SortedFiles(files)
    ensures right <= |files|
    ensures forall i :: 0 <= i < right ==> files[i].largest.Before(key)
    ensures right < |files| ==> !files[right].largest.Before(key)
  {
    var left: nat := 0;
    right := |files|;
    while left < right
      invariant 0 <= left <= right <= |files|
      invariant forall i :: 0 <= i < left ==> files[i].largest.Before(key)
      invariant right < |files| ==> !files[right].largest.Before(key)
    {
      var mid := (left + right) / 2;
      if files[mid].largest.Before(key) {
        forall i | 0 <= i <= mid ensures files[i].largest.Before(key) {
          LargestAscend(files, i, mid);
        }
        left := mid + 1;
      } else {
        right := mid;
      }
    }
  }

  lemma LargestAscend(files: Files, i: nat, j: nat)
    requires AllValid(files) && SortedFiles(files) && i <= j < |files|
    ensures i < j ==> files[i].largest.Before(files[j].largest)
  {
    if i < j {
      var g := files[j];
      assert g in files;
      g.Bounds(g.entries[0]);
    }
  }

  lemma SmallestAscend(files: Files, i: nat, j: nat)
    requires AllValid(files) && SortedFiles(files) && i < j < |files|
    ensures files[i].smallest.Before(files[j].smallest)
  {
    var f := files[i];
    assert f in files;
    f.Bounds(f.entries[0]);
  }

  /** A missing bound is before, or after, every key. */
  predicate AfterFile(key: Option<UserKey>, f: Table) {
    key.Some? && key.value > f.largest.user
  }

  predicate BeforeFile(key: Option<UserKey>, f: Table) {
    key.Some? && key.value < f.smallest.user
  }

  predicate InRange(f: Table, lo: Option<UserKey>, hi: Option<UserKey>) {
    !AfterFile(lo, f) && !BeforeFile(hi, f)
  }

  method SomeFileOverlapsRange(disjointSorted: bool, files: Files, lo: Option<UserKey>, hi: Option<UserKey>) returns (r: bool)
    requires AllValid(files) && (disjointSorted ==> SortedFiles(files))
    ensures r <==> exists f :: f in files && InRange(f, lo, hi)
  {
    if !disjointSorted {
      for i := 0 to |files|
        invariant forall k :: 0 <= k < i ==> !InRange(files[k], lo, hi)
      {
        if AfterFile(lo, files[i]) || BeforeFile(hi, files[i]) {
          // no overlap
        } else {
          assert files[i] in files && InRange(files[i], lo, hi);
          return true;
        }
      }
      return false;
    }
    var index: nat := 0;
    if lo.Some? {
      index := FindFile(files, SeekKey(lo.value, MAX_SEQUENCE));
      FoundByUser(files, lo.value, index);
    }
    if index >= |files| {
      return false;
    }
    r := !BeforeFile(hi, files[index]);
    assert files[index] in files;
    forall k | 0 <= k < |files| && InRange(files[k], lo, hi)
      ensures r
    {
      UsersAscend(files, index, if index <= k then k else index);
    }
  }

  /** Seeking the first possible key of `u` skips exactly the files that end before `u`. */
  lemma FoundByUser(files: Files, u: UserKey, index: nat)
    requires AllValid(files) && SortedFiles(files) && index <= |files|
    requires forall i :: 0 <= i < index ==> files[i].largest.Before(SeekKey(u, MAX_SEQUENCE))
    requires index < |files| ==> !files[index].largest.Before(SeekKey(u, MAX_SEQUENCE))
    ensures forall i :: 0 <= i < |files| ==> (files[i].largest.user < u <==> i < index)
  {
    forall i | 0 <= i < |files|
      ensures files[i].largest.user < u <==> i < index
    {
      var f := files[i];
      assert f in files && f.entries[|f.entries| - 1] in f.entries;
      if i < index {
        assert f.largest.Before(SeekKey(u, MAX_SEQUENCE));
      } else {
        UsersAscend(files, index, i);
      }
    }
  }

  // ---------------------------------------------------------------- overlapping inputs

  function Overlapping(files: Files, lo: Option<UserKey>, hi: Option<UserKey>): Files {
    if files == [] then [] else
      var f := files[|files| - 1];
      Overlapping(files[..|files| - 1], lo, hi) + (if InRange(f, lo, hi) then [f] else [])
  }

  lemma {:induction false} OverlappingHas(files: Files, lo: Option<UserKey>, hi: Option<UserKey>)
    ensures forall f :: f in Overlapping(files, lo, hi) <==> f in files && InRange(f, lo, hi)
  {
    if files != [] {
      var n := |files| - 1;
      OverlappingHas(files[..n], lo, hi);
      assert files == files[..n] + [files[n]];
    }
  }

  /** [lo, hi] reaches at least as far as [lo', hi']. */
  predicate Covers(lo: Option<UserKey>, hi: Option<UserKey>, lo': Option<UserKey>, hi': Option<UserKey>) {
    && (lo.Some? ==> lo'.Some? && lo.value <= lo'.value)
    && (hi.Some? ==> hi'.Some? && hi.value >= hi'.value)
  }

  predicate Within(f: Table, lo: Option<UserKey>, hi: Option<UserKey>) {
    && (lo.Some? ==> lo.value <= f.smallest.user)
    && (hi.Some? ==> f.largest.user <= hi.value)
  }

  /** Every file the range touches lies inside it. */
  ghost predicate RangeClosed(files: Files, lo: Option<UserKey>, hi: Option<UserKey>) {
    forall f :: f in files && InRange(f, lo, hi) ==> Within(f, lo, hi)
  }

  /** [lo, hi] is the least range around [begin, end] that a closed one must cover. */
  ghost predicate Least(files: Files, begin: Option<UserKey>, end: Option<UserKey>, lo: Option<UserKey>, hi: Option<UserKey>) {
    && Covers(lo, hi, begin, end)
    && forall clo, chi :: Covers(clo, chi, begin, end) && RangeClosed(files, clo, chi) ==> Covers(clo, chi, lo, hi)
  }

  lemma LeastGrows(files: Files, begin: Option<UserKey>, end: Option<UserKey>, lo: Option<UserKey>, hi: Option<UserKey>, f: Table)
    requires AllValid(files) && Least(files, begin, end, lo, hi) && f in files && InRange(f, lo, hi)
    ensures lo.Some? && f.smallest.user < lo.value ==> Least(files, begin, end, Some(f.smallest.user), hi)
    ensures hi.Some? && f.largest.user > hi.value ==> Least(files, begin, end, lo, Some(f.largest.user))
  {
    f.Bounds(f.entries[0]);
    forall clo, chi | Covers(clo, chi, begin, end) && RangeClosed(files, clo, chi)
      ensures lo.Some? && f.smallest.user < lo.value ==> Covers(clo, chi, Some(f.smallest.user), hi)
      ensures hi.Some? && f.largest.user > hi.value ==> Covers(clo, chi, lo, Some(f.largest.user))
    {
      assert Covers(clo, chi, lo, hi) && InRange(f, clo, chi) && Within(f, clo, chi);
    }
  }

  ghost function StartingBefore(files: Files, lo: Option<UserKey>): set<nat> {
    set i | 0 <= i < |files| && lo.Some? && files[i].smallest.user < lo.value
  }

  ghost function EndingAfter(files: Files, hi: Option<UserKey>): set<nat> {
    set i | 0 <= i < |files| && hi.Some? && files[i].largest.user > hi.value
  }

  lemma FewerStartBefore(files: Files, lo: UserKey, i: nat)
    requires i < |files| && files[i].smallest.user < lo
    ensures StartingBefore(files, Some(files[i].smallest.user)) < StartingBefore(files, Some(lo))
  {
    assert i in StartingBefore(files, Some(lo)) && i !in StartingBefore(files, Some(files[i].smallest.user));
  }

  lemma FewerEndAfter(files: Files, hi: UserKey, i: nat)
    requires i < |files| && files[i].largest.user > hi
    ensures EndingAfter(files, Some(files[i].largest.user)) < EndingAfter(files, Some(hi))
  {
    assert i in EndingAfter(files, Some(hi)) && i !in EndingAfter(files, Some(files[i].largest.user));
  }

  lemma ClosedStep(files: Files, i: nat, lo: Option<UserKey>, hi: Option<UserKey>)
    requires i < |files| && RangeClosed(files[..i], lo, hi)
    requires InRange(files[i], lo, hi) ==> Within(files[i], lo, hi)
    ensures RangeClosed(files[..i + 1], lo, hi)
  {
  }

  lemma OverlappingStep(files: Files, i: nat, lo: Option<UserKey>, hi: Option<UserKey>)
    requires i < |files|
    ensures Overlapping(files[..i + 1], lo, hi)
      == Overlapping(files[..i], lo, hi) + (if InRange(files[i], lo, hi) then [files[i]] else [])
  {
    assert files[..i + 1][..i] == files[..i];
  }

  /** All files of a level that overlap [begin, end]; at level 0, where files may overlap each
    * other, the range first grows to the least closed one. */
  method GetOverlappingInputs(level: nat, files: Files, begin: Option<UserKey>, end: Option<UserKey>)
    returns (inputs: Files, ghost lo: Option<UserKey>, ghost hi: Option<UserKey>)
    requires AllValid(files)
    ensures inputs == Overlapping(files, lo, hi)
    ensures level > 0 ==> lo == begin && hi == end
    ensures level == 0 ==> RangeClosed(files, lo, hi) && Least(files, begin, end, lo, hi)
  {
    hide Overlapping, RangeClosed, Least, StartingBefore, EndingAfter, AllValid;
    var userBegin, userEnd := begin, end;
    inputs := [];
    var i := 0;
    LeastStarts(files, begin, end);
    while i < |files|
      invariant 0 <= i <= |files|
      invariant inputs == Overlapping(files[..i], userBegin, userEnd)
      invariant level > 0 ==> userBegin == begin && userEnd == end
      invariant level == 0 ==> RangeClosed(files[..i], userBegin, userEnd)
      invariant Least(files, begin, end, userBegin, userEnd)
      decreases StartingBefore(files, userBegin), EndingAfter(files, userEnd), |files| - i
    {
      var f := files[i];
      OverlappingStep(files, i, userBegin, userEnd);
      i := i + 1;
      if AfterFile(userBegin, f) {
        // wholly before the range
        if level == 0 { ClosedStep(files, i - 1, userBegin, userEnd); }
      } else if BeforeFile(userEnd, f) {
        // wholly after it
        if level == 0 { ClosedStep(files, i - 1, userBegin, userEnd); }
      } else {
        inputs := inputs + [f];
        if level == 0 {
          LeastGrows(files, begin, end, userBegin, userEnd, f);
          if userBegin.Some? && f.smallest.user < userBegin.value {
            FewerStartBefore(files, userBegin.value, i - 1);
            userBegin := Some(f.smallest.user);
            inputs := [];
            i := 0;
            NothingYet(files, userBegin, userEnd);
          } else if userEnd.Some? && f.largest.user > userEnd.value {
            FewerEndAfter(files, userEnd.value, i - 1);
            userEnd := Some(f.largest.user);
            inputs := [];
            i := 0;
            NothingYet(files, userBegin, userEnd);
          } else {
            ClosedStep(files, i - 1, userBegin, userEnd);
          }
        }
      }
    }
    assert files[..|files|] == files;
    lo, hi := userBegin, userEnd;
  }

  lemma LeastStarts(files: Files, begin: Option<UserKey>, end: Option<UserKey>)
    ensures Least(files, begin, end, begin, end)
    ensures Overlapping(files[..0], begin, end) == [] && RangeClosed(files[..0], begin, end)
  {
  }

  lemma NothingYet(files: Files, lo: Option<UserKey>, hi: Option<UserKey>)
    ensures Overlapping(files[..0], lo, hi) == [] && RangeClosed(files[..0], lo, hi)
  {
  }

  function TotalSize(files: Files): nat {
    if files == [] then 0 else files[0].size + TotalSize(files[1..])
  }

  lemma {:induction false} SizesAdd(a: Files, b: Files)
    ensures TotalSize(a + b) == TotalSize(a) + TotalSize(b)
    ensures forall f: Table :: TotalSize([f]) == f.size
  {
    if a == [] {
      assert a + b == b;
    } else {
      SizesAdd(a[1..], b);
      assert (a + b)[1..] == a[1..] + b;
    }
  }

  /** A new table may not go below `level`: something is in the way there or just below it, or it
    * would overlap too much of the level after that. */
  ghost predicate MustStopAt(version: seq<Files>, level: nat, lo: UserKey, hi: UserKey, maxGrandparentBytes: nat)
    requires |version| == NUM_LEVELS && level < MAX_MEM_COMPACT_LEVEL
  {
    || (exists f :: f in version[0] && f.Overlaps(lo, hi))
    || (exists f :: f in version[level + 1] && f.Overlaps(lo, hi))
    || TotalSize(Overlapping(version[level + 2], Some(lo), Some(hi))) > maxGrandparentBytes
  }

  /** How far down a flushed memtable may go: past every level it does not overlap, unless it
    * would overlap too much of the level after the next. */
  method PickLevelForMemTableOutput(version: seq<Files>, lo: UserKey, hi: UserKey, maxGrandparentBytes: nat) returns (level: nat)
    requires VersionOk(version)
    ensures level <= MAX_MEM_COMPACT_LEVEL
    ensures level > 0 ==> forall k, f :: 0 <= k <= level && f in version[k] ==> !f.Overlaps(lo, hi)
    ensures level < MAX_MEM_COMPACT_LEVEL ==> MustStopAt(version, level, lo, hi, maxGrandparentBytes)
    ensures forall k :: 0 <= k < level ==> !MustStopAt(version, k, lo, hi, maxGrandparentBytes)
  {
    hide Overlapping, SortedFiles, Unique, NoRepeats;
    level := 0;
    var overlap := SomeFileOverlapsRange(false, version[0], Some(lo), Some(hi));
    if overlap {
      ghost var f :| f in version[0] && InRange(f, Some(lo), Some(hi));
      assert f.Overlaps(lo, hi);
    } else {
      forall f | f in version[0] ensures !f.Overlaps(lo, hi) {
        assert !InRange(f, Some(lo), Some(hi));
      }
      while level < MAX_MEM_COMPACT_LEVEL
        invariant level <= MAX_MEM_COMPACT_LEVEL
        invariant forall k, f :: 0 <= k <= level && f in version[k] ==> !f.Overlaps(lo, hi)
        invariant forall k :: 0 <= k < level ==> !MustStopAt(version, k, lo, hi, maxGrandparentBytes)
      {
        overlap := SomeFileOverlapsRange(true, version[level + 1], Some(lo), Some(hi));
        if overlap {
          ghost var f :| f in version[level + 1] && InRange(f, Some(lo), Some(hi));
          assert f.Overlaps(lo, hi);
          break;
        }
        forall f | f in version[level + 1] ensures !f.Overlaps(lo, hi) {
          assert !InRange(f, Some(lo), Some(hi));
        }
        if level + 2 < NUM_LEVELS {
          var overlaps, _, _ := GetOverlappingInputs(level + 2, version[level + 2], Some(lo), Some(hi));
          if TotalSize(overlaps) > maxGrandparentBytes {
            break;
          }
        }
        level := level + 1;
      }
    }
  }

  // ---------------------------------------------------------------- boundary files

  /** The smallest and the largest internal key of a set of files. */
  method GetRange(inputs: Files) returns (smallest: InternalKey, largest: InternalKey)
    requires inputs != []
    ensures exists f :: f in inputs && f.smallest == smallest
    ensures exists f :: f in inputs && f.largest == largest
    ensures forall f :: f in inputs ==> !f.smallest.Before(smallest) && !largest.Before(f.largest)
  {
    smallest, largest := inputs[0].smallest, inputs[0].largest;
    for i := 1 to |inputs|
      invariant exists f :: f in inputs && f.smallest == smallest
      invariant exists f :: f in inputs && f.largest == largest
      invariant forall k :: 0 <= k < i ==> !inputs[k].smallest.Before(smallest) && !largest.Before(inputs[k].largest)
    {
      var f := inputs[i];
      assert f in inputs;
      if f.smallest.Before(smallest) {
        smallest := f.smallest;
      }
      if largest.Before(f.largest) {
        largest := f.largest;
      }
    }
  }

  predicate IsBoundary(f: Table, key: InternalKey) {
    key.Before(f.smallest) && f.smallest.user == key.user
  }

  /** The boundary file of `key` with the smallest start, if there is one. */
  method FindSmallestBoundaryFile(files: Files, key: InternalKey) returns (found: Option<Table>)
    ensures found.None? ==> forall f :: f in files ==> !IsBoundary(f, key)
    ensures found.Some? ==> found.value in files && IsBoundary(found.value, key)
    ensures found.Some? ==> forall f :: f in files && IsBoundary(f, key) ==> !f.smallest.Before(found.value.smallest)
  {
    found := None;
    for i := 0 to |files|
      invariant found.None? ==> forall k :: 0 <= k < i ==> !IsBoundary(files[k], key)
      invariant found.Some? ==> found.value in files && IsBoundary(found.value, key)
      invariant found.Some? ==> forall k :: 0 <= k < i && IsBoundary(files[k], key) ==> !files[k].smallest.Before(found.value.smallest)
    {
      var f := files[i];
      if IsBoundary(f, key) {
        if found.None? || f.smallest.Before(found.value.smallest) {
          found := Some(f);
        }
      }
    }
  }

  /** A contiguous run of a level's files. */
  ghost predicate Segment(files: Files, a: nat, b: nat, chosen: Files) {
    a < b <= |files| && chosen == files[a..b]
  }

  /** The file after position `b` does not share its first user key with the file before it. */
  ghost predicate EndsCleanly(files: Files, b: nat) {
    0 < b <= |files| && (b < |files| ==> files[b].smallest.user != files[b - 1].largest.user)
  }

  /** No file left out touches the user keys of a chosen one. */
  ghost predicate Isolated(files: Files, chosen: Files) {
    forall f, g :: f in files && f !in chosen && g in chosen ==> f.largest.user < g.smallest.user || g.largest.user < f.smallest.user
  }

  /** From position `n` on every file goes on with the user key that ends the one before. */
  ghost predicate Joined(r: Files, n: nat) {
    forall i :: n <= i < |r| && 0 < i ==> r[i].smallest.user == r[i - 1].largest.user
  }

  ghost function StartingAfter(files: Files, key: InternalKey): set<Table> {
    set f | f in files && key.Before(f.smallest)
  }

  /** The search so far: `largest` is the largest key of `r`. */
  ghost predicate Extending(files: Files, chosen: Files, a: nat, b: nat, r: Files, c: nat, largest: InternalKey) {
    && chosen <= r && (forall f :: f in r ==> f in files)
    && (SortedFiles(files) && Segment(files, a, b, chosen)
        ==> b <= c && Segment(files, a, c, r) && largest == files[c - 1].largest && Joined(r, |chosen|))
    && (Isolated(files, chosen) ==> r == chosen && IsLargest(chosen, largest))
  }

  ghost predicate IsLargest(files: Files, key: InternalKey) {
    && (exists f :: f in files && f.largest == key)
    && (forall f :: f in files ==> !key.Before(f.largest))
  }

  /** Extends `chosen` with boundary files until none is left. At a sorted level a contiguous
    * run grows into one that ends cleanly; an isolated choice does not grow. */
  method AddBoundaryInputs(files: Files, chosen: Files, ghost a: nat, ghost b: nat) returns (r: Files, ghost c: nat)
    requires AllValid(files) && chosen != [] && forall f :: f in chosen ==> f in files
    ensures SortedFiles(files) && Segment(files, a, b, chosen)
      ==> b <= c && Segment(files, a, c, r) && EndsCleanly(files, c) && Joined(r, |chosen|)
    ensures Isolated(files, chosen) ==> r == chosen
    ensures chosen <= r && forall f :: f in r ==> f in files
  {
    hide AllValid, Extending, SortedFiles, Segment, Isolated, EndsCleanly;
    r := chosen;
    c := b;
    var _, largest := GetRange(chosen);
    var searching := true;
    ExtendingStarts(files, a, b, chosen, largest);
    while searching
      invariant Extending(files, chosen, a, b, r, c, largest)
      invariant !searching ==> forall f :: f in files ==> !IsBoundary(f, largest)
      decreases StartingAfter(files, largest), searching
    {
      var found := FindSmallestBoundaryFile(files, largest);
      if found.Some? {
        BoundaryShrinks(files, largest, found.value);
        c := ExtendingGrows(files, chosen, a, b, r, c, largest, found.value);
        r := r + [found.value];
        largest := found.value.largest;
      } else {
        searching := false;
      }
    }
    ExtendingEnds(files, chosen, a, b, r, c, largest);
  }

  lemma ExtendingStarts(files: Files, a: nat, b: nat, chosen: Files, largest: InternalKey)
    requires AllValid(files) && IsLargest(chosen, largest) && forall f :: f in chosen ==> f in files
    ensures Extending(files, chosen, a, b, chosen, b, largest)
  {
    SegmentLargest(files, a, b, chosen, largest);
  }

  lemma ExtendingGrows(files: Files, chosen: Files, a: nat, b: nat, r: Files, c: nat, largest: InternalKey, f: Table) returns (c': nat)
    requires AllValid(files) && Extending(files, chosen, a, b, r, c, largest) && forall g :: g in chosen ==> g in files
    requires f in files && IsBoundary(f, largest)
    requires forall g :: g in files && IsBoundary(g, largest) ==> !g.smallest.Before(f.smallest)
    ensures Extending(files, chosen, a, b, r + [f], c', f.largest)
  {
    hide AllValid, SortedFiles, Isolated;
    c' := c;
    if SortedFiles(files) && Segment(files, a, b, chosen) {
      NextBoundary(files, c, largest, f);
      assert files[a..c + 1] == files[a..c] + [files[c]];
      c' := c + 1;
    }
    IsolatedHasNoBoundary(files, chosen, largest, f);
  }

  lemma ExtendingEnds(files: Files, chosen: Files, a: nat, b: nat, r: Files, c: nat, largest: InternalKey)
    requires Extending(files, chosen, a, b, r, c, largest)
    requires forall f :: f in files ==> !IsBoundary(f, largest)
    ensures SortedFiles(files) && Segment(files, a, b, chosen)
      ==> b <= c && Segment(files, a, c, r) && EndsCleanly(files, c) && Joined(r, |chosen|)
    ensures Isolated(files, chosen) ==> r == chosen
    ensures chosen <= r && forall f :: f in r ==> f in files
  {
    if SortedFiles(files) && Segment(files, a, b, chosen) && c < |files| {
      assert files[c] in files;
      assert largest.Before(files[c].smallest);
    }
  }

  lemma SegmentLargest(files: Files, a: nat, b: nat, chosen: Files, largest: InternalKey)
    requires AllValid(files)
    requires exists f :: f in chosen && f.largest == largest
    requires forall f :: f in chosen ==> !largest.Before(f.largest)
    ensures SortedFiles(files) && Segment(files, a, b, chosen) ==> largest == files[b - 1].largest
  {
    if SortedFiles(files) && Segment(files, a, b, chosen) {
      assert chosen[b - 1 - a] == files[b - 1] && files[b - 1] in chosen;
      var f :| f in chosen && f.largest == largest;
      var i :| 0 <= i < |chosen| && chosen[i] == f;
      LargestAscend(files, a + i, b - 1);
    }
  }

  /** At a sorted level the boundary file is the next one. */
  lemma NextBoundary(files: Files, c: nat, largest: InternalKey, f: Table)
    requires AllValid(files) && SortedFiles(files) && 0 < c <= |files| && largest == files[c - 1].largest
    requires f in files && IsBoundary(f, largest)
    requires forall g :: g in files && IsBoundary(g, largest) ==> !g.smallest.Before(f.smallest)
    ensures c < |files| && f == files[c]
  {
    var i :| 0 <= i < |files| && files[i] == f;
    f.Bounds(f.entries[0]);
    if i < c - 1 {
      UsersAscend(files, i, c - 1);
      assert files[i].largest.Before(files[c - 1].smallest);
      assert files[c - 1].Valid();
      files[c - 1].Bounds(files[c - 1].entries[0]);
    }
    assert i >= c;
    UsersAscend(files, c - 1, c);
    UsersAscend(files, c, i);
    assert files[c] in files && files[c - 1].largest.Before(files[c].smallest);
    if c < i {
      SmallestAscend(files, c, i);
    }
  }

  lemma IsolatedHasNoBoundary(files: Files, chosen: Files, largest: InternalKey, f: Table)
    requires AllValid(files) && f in files && IsBoundary(f, largest)
    requires forall g :: g in chosen ==> g in files
    requires Isolated(files, chosen) ==> IsLargest(chosen, largest)
    ensures !Isolated(files, chosen)
  {
    if Isolated(files, chosen) {
      f.Bounds(f.entries[0]);
      var g :| g in chosen && g.largest == largest;
      g.Bounds(g.entries[0]);
    }
  }

  lemma BoundaryShrinks(files: Files, largest: InternalKey, f: Table)
    requires AllValid(files) && f in files && largest.Before(f.smallest)
    ensures StartingAfter(files, f.largest) < StartingAfter(files, largest)
  {
    f.Bounds(f.entries[0]);
    assert f in StartingAfter(files, largest) && f !in StartingAfter(files, f.largest);
  }

  // ---------------------------------------------------------------- compaction inputs

  /** What may start a compaction: at level 0 a choice no other file touches, below it a
    * contiguous run of files. */
  ghost predicate MayStart(level: nat, files: Files, chosen: Files, a: nat, b: nat) {
    && chosen != [] && (forall f :: f in chosen ==> f in files)
    && (if level == 0 then Isolated(files, chosen) && NoRepeats(chosen) else Segment(files, a, b, chosen))
  }

  /** The promise the theory of compaction asks of the upper inputs. */
  ghost predicate UpperOk(level: nat, files: Files, chosen: Files, a: nat, b: nat) {
    MayStart(level, files, chosen, a, b) && (level > 0 ==> EndsCleanly(files, b))
  }

  lemma IsolatedNewerStays(files: Files, chosen: Files)
    requires AllValid(files) && Isolated(files, chosen) && forall f :: f in chosen ==> f in files
    ensures NewerStays(SetOf(files), SetOf(chosen))
  {
    forall f, g, x, y | f in files && f !in chosen && g in chosen && x in f.entries && y in g.entries
      ensures x.key.user != y.key.user
    {
      f.Bounds(x);
      g.Bounds(y);
    }
  }

  lemma SegmentNewerStays(files: Files, a: nat, b: nat, chosen: Files)
    requires AllValid(files) && Unique(files) && SortedFiles(files) && Segment(files, a, b, chosen) && EndsCleanly(files, b)
    ensures NewerStays(SetOf(files), SetOf(chosen))
  {
    hide AllValid, Unique, SortedFiles, EndsCleanly, Segment;
    forall f, g, x, y | f in files && f !in chosen && g in chosen && x in f.entries && y in g.entries && x.key.user == y.key.user
      ensures x.key.seqno > y.key.seqno
    {
      SegmentPair(files, a, b, chosen, f, g, x, y);
    }
  }

  lemma SegmentPair(files: Files, a: nat, b: nat, chosen: Files, f: Table, g: Table, x: Entry, y: Entry)
    requires AllValid(files) && Unique(files) && SortedFiles(files) && Segment(files, a, b, chosen) && EndsCleanly(files, b)
    requires f in files && f !in chosen && g in chosen && x in f.entries && y in g.entries && x.key.user == y.key.user
    ensures x.key.seqno > y.key.seqno
  {
    hide AllValid, Unique, SortedFiles;
    var i :| 0 <= i < |files| && files[i] == f;
    var k :| 0 <= k < |chosen| && chosen[k] == g;
    LeftOfSegment(files, a, b, i, a + k, x, y);
  }

  lemma LeftOfSegment(files: Files, a: nat, b: nat, i: nat, k: nat, x: Entry, y: Entry)
    requires AllValid(files) && Unique(files) && SortedFiles(files)
    requires a <= k < b <= |files| && i < |files| && EndsCleanly(files, b)
    requires files[i] !in files[a..b] && x in files[i].entries && y in files[k].entries && x.key.user == y.key.user
    ensures x.key.seqno > y.key.seqno
  {
    hide Unique, SortedFiles;
    OutsideSegment(files, a, b, i);
    if i >= b {
      RightOfSegment(files, b, i, k, x, y);
    } else {
      EarlierIsNewer(files, i, k, x, y);
    }
  }

  lemma OutsideSegment(files: Files, a: nat, b: nat, i: nat)
    requires a <= b <= |files| && i < |files|
    ensures a <= i < b ==> files[i] in files[a..b]
  {
    if a <= i < b {
      assert files[a..b][i - a] == files[i];
    }
  }

  lemma RightOfSegment(files: Files, b: nat, i: nat, k: nat, x: Entry, y: Entry)
    requires AllValid(files) && SortedFiles(files) && k < b <= i < |files| && EndsCleanly(files, b)
    requires x in files[i].entries && y in files[k].entries
    ensures x.key.user != y.key.user
  {
    var f, g := files[i], files[k];
    assert f in files && g in files;
    f.Bounds(x);
    g.Bounds(y);
    UsersAscend(files, k, b - 1);
    UsersAscend(files, b - 1, b);
    UsersAscend(files, b, i);
  }

  lemma EarlierIsNewer(files: Files, i: nat, k: nat, x: Entry, y: Entry)
    requires AllValid(files) && Unique(files) && SortedFiles(files) && i < k < |files|
    requires x in files[i].entries && y in files[k].entries && x.key.user == y.key.user
    ensures x.key.seqno > y.key.seqno
  {
    hide AllValid;
    EntryBounds(files, i, x);
    EntryBounds(files, k, y);
  }

  lemma EntryBounds(files: Files, i: nat, x: Entry)
    requires AllValid(files) && i < |files| && x in files[i].entries
    ensures x in Contents(SetOf(files))
    ensures files[i].smallest == x.key || files[i].smallest.Before(x.key)
    ensures files[i].largest == x.key || x.key.Before(files[i].largest)
  {
    var f := files[i];
    assert f in files && f in SetOf(files);
    f.Bounds(x);
  }

  lemma UpperNewerStays(level: nat, files: Files, chosen: Files, a: nat, b: nat)
    requires AllValid(files) && Unique(files) && (level > 0 ==> SortedFiles(files)) && UpperOk(level, files, chosen, a, b)
    ensures NewerStays(SetOf(files), SetOf(chosen))
  {
    if level == 0 {
      IsolatedNewerStays(files, chosen);
    } else {
      SegmentNewerStays(files, a, b, chosen);
    }
  }

  /** At a sorted level, the files a range touches are contiguous. */
  lemma {:induction false} OverlappingIsSegment(files: Files, lo: Option<UserKey>, hi: Option<UserKey>) returns (a: nat, b: nat)
    requires AllValid(files) && SortedFiles(files)
    ensures a <= b <= |files| && Overlapping(files, lo, hi) == files[a..b]
  {
    if files == [] {
      return 0, 0;
    }
    var n := |files| - 1;
    FrontOk(files);
    a, b := OverlappingIsSegment(files[..n], lo, hi);
    assert files[..n][a..b] == files[a..b];
    a, b := ExtendSegment(files, lo, hi, a, b);
  }

  lemma ExtendSegment(files: Files, lo: Option<UserKey>, hi: Option<UserKey>, a: nat, b: nat) returns (a': nat, b': nat)
    requires AllValid(files) && SortedFiles(files) && files != []
    requires a <= b < |files| && Overlapping(files[..|files| - 1], lo, hi) == files[a..b]
    ensures a' <= b' <= |files| && Overlapping(files, lo, hi) == files[a'..b']
  {
    hide AllValid, SortedFiles;
    var n := |files| - 1;
    a', b' := a, b;
    if InRange(files[n], lo, hi) {
      if a < b {
        TouchedUpTo(files, lo, hi, a, b, n);
      } else {
        a' := n;
      }
      b' := n + 1;
      assert files[a..b] + [files[n]] == files[a'..b'];
    }
  }

  lemma FrontOk(files: Files)
    requires AllValid(files) && SortedFiles(files) && files != []
    ensures AllValid(files[..|files| - 1]) && SortedFiles(files[..|files| - 1])
  {
    assert forall f :: f in files[..|files| - 1] ==> f in files;
  }

  /** Between two touched files of a sorted level every file is touched. */
  lemma TouchedUpTo(files: Files, lo: Option<UserKey>, hi: Option<UserKey>, a: nat, b: nat, n: nat)
    requires AllValid(files) && SortedFiles(files) && a < b <= n < |files|
    requires Overlapping(files[..n], lo, hi) == files[a..b] && InRange(files[n], lo, hi)
    ensures b == n
  {
    hide Overlapping;
    OverlappingHas(files[..n], lo, hi);
    assert files[a..b][0] == files[a];
    assert files[a] in Overlapping(files[..n], lo, hi);
    if b < n {
      UsersAscend(files, a, b);
      UsersAscend(files, b, n);
      assert files[b] in files[..n];
      assert files[b] in files[a..b];
      var i :| a <= i < b && files[i] == files[b];
      UsersAscend(files, i, b);
      assert files[i].largest.Before(files[b].smallest);
      assert files[b] in files;
      files[b].Bounds(files[b].entries[0]);
    }
  }

  lemma {:induction false} OverlappingOnce(files: Files, lo: Option<UserKey>, hi: Option<UserKey>)
    requires NoRepeats(files)
    ensures NoRepeats(Overlapping(files, lo, hi))
  {
    if files != [] {
      var n := |files| - 1;
      OverlappingOnce(files[..n], lo, hi);
      OverlappingHas(files[..n], lo, hi);
    }
  }

  lemma ClosedIsIsolated(files: Files, lo: Option<UserKey>, hi: Option<UserKey>)
    requires AllValid(files) && RangeClosed(files, lo, hi)
    ensures Isolated(files, Overlapping(files, lo, hi))
  {
    OverlappingHas(files, lo, hi);
    forall f, g | f in files && f !in Overlapping(files, lo, hi) && g in Overlapping(files, lo, hi)
      ensures f.largest.user < g.smallest.user || g.largest.user < f.smallest.user
    {
      assert !InRange(f, lo, hi) && Within(g, lo, hi);
    }
  }

  /** The files a range touches; at level 0 those of the least closed range around it. */
  ghost predicate InputsFor(level: nat, files: Files, begin: Option<UserKey>, end: Option<UserKey>, inputs: Files) {
    if level > 0 then inputs == Overlapping(files, begin, end)
    else exists lo, hi :: RangeClosed(files, lo, hi) && Least(files, begin, end, lo, hi) && inputs == Overlapping(files, lo, hi)
  }

  /** Files a range touches may start a compaction, at any level. */
  method OverlappingStart(level: nat, files: Files, begin: Option<UserKey>, end: Option<UserKey>)
    returns (inputs: Files, ghost a: nat, ghost b: nat)
    requires AllValid(files) && (if level > 0 then SortedFiles(files) else NoRepeats(files))
    ensures inputs != [] ==> MayStart(level, files, inputs, a, b)
    ensures InputsFor(level, files, begin, end, inputs)
    ensures forall f :: f in files && InRange(f, begin, end) ==> f in inputs
    ensures inputs != [] ==> exists f :: f in files && InRange(f, begin, end)
  {
    hide Overlapping, Least, RangeClosed, Isolated, NoRepeats;
    ghost var lo, hi;
    inputs, lo, hi := GetOverlappingInputs(level, files, begin, end);
    OverlappingHas(files, lo, hi);
    a, b := 0, 0;
    if level == 0 {
      OverlappingOnce(files, lo, hi);
      ClosedIsIsolated(files, lo, hi);
      LeastCovers(files, begin, end, lo, hi);
    } else {
      a, b := OverlappingIsSegment(files, lo, hi);
      assert inputs == [] || inputs[0] in Overlapping(files, lo, hi);
    }
  }

  lemma LeastCovers(files: Files, begin: Option<UserKey>, end: Option<UserKey>, lo: Option<UserKey>, hi: Option<UserKey>)
    requires Least(files, begin, end, lo, hi)
    ensures forall f :: f in files && InRange(f, begin, end) ==> f in Overlapping(files, lo, hi)
    ensures Overlapping(files, lo, hi) != [] ==> exists f :: f in files && InRange(f, begin, end)
  {
    OverlappingHas(files, lo, hi);
    if forall f :: f in files ==> !InRange(f, begin, end) {
      assert RangeClosed(files, begin, end);
      assert Covers(begin, end, lo, hi);
      assert lo == begin && hi == end;
    }
    assert Overlapping(files, lo, hi) == [] || Overlapping(files, lo, hi)[0] in Overlapping(files, lo, hi);
  }

  /** [lo, hi] spans the user keys of `upper`, and `lower` is what it touches one level down. */
  ghost predicate Spans(lower: Files, below: Files, upper: Files, lo: UserKey, hi: UserKey) {
    && (forall g :: g in upper ==> lo <= g.smallest.user && g.largest.user <= hi)
    && lower == Overlapping(below, Some(lo), Some(hi))
  }

  /** The range is no wider than the files. */
  ghost predicate Tight(files: Files, lo: UserKey, hi: UserKey) {
    (exists f :: f in files && f.smallest.user == lo) && (exists f :: f in files && f.largest.user == hi)
  }

  /** The least range of user keys around the files. */
  ghost predicate Hull(files: Files, lo: UserKey, hi: UserKey) {
    Tight(files, lo, hi) && forall f :: f in files ==> lo <= f.smallest.user && f.largest.user <= hi
  }

  /** The file meets the range that the others span. */
  ghost predicate TouchedBy(g: Table, group: Files) {
    (exists f :: f in group && f.smallest.user <= g.largest.user) && (exists f :: f in group && g.smallest.user <= f.largest.user)
  }

  ghost function Touched(files: Files, group: Files): Files {
    if files == [] then [] else
      var n := |files| - 1;
      Touched(files[..n], group) + (if TouchedBy(files[n], group) then [files[n]] else [])
  }

  lemma {:induction false} HullTouches(files: Files, group: Files, lo: UserKey, hi: UserKey)
    requires Hull(group, lo, hi)
    ensures Overlapping(files, Some(lo), Some(hi)) == Touched(files, group)
  {
    if files != [] {
      HullTouches(files[..|files| - 1], group, lo, hi);
    }
  }

  lemma RangeSpans(files: Files, smallest: InternalKey, largest: InternalKey)
    requires forall f :: f in files ==> !f.smallest.Before(smallest) && !largest.Before(f.largest)
    ensures forall f :: f in files ==> smallest.user <= f.smallest.user && f.largest.user <= largest.user
  {
  }

  lemma SpansSelects(version: seq<Files>, level: nat, upper: Files, lower: Files, lo: UserKey, hi: UserKey, a: nat, b: nat)
    requires VersionOk(version) && level + 1 < NUM_LEVELS
    requires UpperOk(level, version[level], upper, a, b)
    requires Spans(lower, version[level + 1], upper, lo, hi)
    ensures Selected(Sets(version), Job(level, SetOf(upper), SetOf(lower), lo, hi))
    ensures NewerStays(SetOf(version[level]), SetOf(upper))
  {
    hide AllValid, Unique, SortedFiles, NewerStays, Isolated, EndsCleanly, Segment;
    UpperNewerStays(level, version[level], upper, a, b);
    assert |version| == NUM_LEVELS && forall f :: f in upper ==> f in version[level];
    assert Sets(version)[level] == SetOf(version[level]) && Sets(version)[level + 1] == SetOf(version[level + 1]);
    OverlappingHas(version[level + 1], Some(lo), Some(hi));
    forall f | f in SetOf(version[level + 1])
      ensures f in SetOf(lower) <==> f.Overlaps(lo, hi)
    {
    }
  }

  lemma AddedIsOk(level: nat, files: Files, chosen: Files, a: nat, b: nat, r: Files, c: nat)
    requires (level > 0 ==> SortedFiles(files)) && MayStart(level, files, chosen, a, b)
    requires SortedFiles(files) && Segment(files, a, b, chosen) ==> b <= c && Segment(files, a, c, r) && EndsCleanly(files, c)
    requires Isolated(files, chosen) ==> r == chosen
    requires chosen <= r && forall f :: f in r ==> f in files
    requires SortedFiles(files) && Segment(files, a, b, chosen) ==> Joined(r, |chosen|)
    requires AllValid(files)
    ensures UpperOk(level, files, r, a, c) && Completed(level, files, chosen, r)
    ensures r != [] && (level > 0 ==> b <= c)
  {
    if level > 0 {
      hide AllValid, SortedFiles;
      assert r[|r| - 1] == files[c - 1];
      forall f | f in files ensures !IsBoundary(f, files[c - 1].largest) {
        NoBoundaryAt(files, c, f);
      }
    }
  }

  lemma NoBoundaryAt(files: Files, c: nat, f: Table)
    requires AllValid(files) && SortedFiles(files) && EndsCleanly(files, c) && f in files
    ensures !IsBoundary(f, files[c - 1].largest)
  {
    var i :| 0 <= i < |files| && files[i] == f;
    if i >= c {
      UsersAscend(files, c - 1, c);
      UsersAscend(files, c, i);
    } else {
      UsersAscend(files, i, c - 1);
      f.Bounds(f.entries[0]);
      if i < c - 1 {
        LargestAscend(files, i, c - 1);
      }
    }
  }

  /** Inputs at one level with their boundary files, ready for the level below. */
  method CloseUpper(version: seq<Files>, level: nat, chosen: Files, ghost a: nat, ghost b: nat) returns (upper: Files, ghost c: nat)
    requires VersionOk(version) && level < NUM_LEVELS && MayStart(level, version[level], chosen, a, b)
    ensures UpperOk(level, version[level], upper, a, c) && (level > 0 ==> b <= c)
    ensures upper != [] && forall f :: f in chosen ==> f in upper
    ensures Completed(level, version[level], chosen, upper)
  {
    hide MayStart, UpperOk, Isolated, Segment, EndsCleanly, SortedFiles, Joined;
    MayStartFacts(level, version[level], chosen, a, b);
    upper, c := AddBoundaryInputs(version[level], chosen, a, b);
    AddedIsOk(level, version[level], chosen, a, b, upper, c);
  }

  /** The chosen files, and at a sorted level those that go on with the user key at the end, as
    * many as there are. */
  ghost predicate Completed(level: nat, files: Files, chosen: Files, r: Files) {
    if level == 0 then r == chosen
    else r != [] && chosen <= r && Joined(r, |chosen|) && forall f :: f in files ==> !IsBoundary(f, r[|r| - 1].largest)
  }

  lemma MayStartFacts(level: nat, files: Files, chosen: Files, a: nat, b: nat)
    requires MayStart(level, files, chosen, a, b)
    ensures chosen != [] && forall f :: f in chosen ==> f in files
  {
  }

  /** The lower inputs for given upper ones, and the range that picked them. */
  method PickLower(version: seq<Files>, level: nat, upper: Files) returns (lower: Files, lo: UserKey, hi: UserKey, largest: InternalKey)
    requires VersionOk(version) && level + 1 < NUM_LEVELS && upper != []
    ensures Spans(lower, version[level + 1], upper, lo, hi) && Tight(upper, lo, hi)
    ensures lower == Touched(version[level + 1], upper) && IsLargest(upper, largest)
  {
    hide Overlapping, Touched;
    var smallest;
    smallest, largest := GetRange(upper);
    RangeSpans(upper, smallest, largest);
    lo, hi := smallest.user, largest.user;
    HullTouches(version[level + 1], upper, lo, hi);
    var inputs, _, _ := GetOverlappingInputs(level + 1, version[level + 1], Some(lo), Some(hi));
    lower := inputs;
  }

  /** The range that a group of files spans. */
  method SpanOf(inputs: Files) returns (lo: UserKey, hi: UserKey)
    requires inputs != []
    ensures Hull(inputs, lo, hi)
  {
    var smallest, largest := GetRange(inputs);
    RangeSpans(inputs, smallest, largest);
    lo, hi := smallest.user, largest.user;
  }

  /** More upper inputs: those the range of a group touches, completed. */
  ghost predicate WiderInputs(level: nat, files: Files, group: Files, wider: Files) {
    exists lo, hi, touched :: Hull(group, lo, hi) && InputsFor(level, files, Some(lo), Some(hi), touched) && Completed(level, files, touched, wider)
  }

  /** More upper inputs are taken if they are fewer bytes than the limit and cost no more lower
    * inputs. */
  ghost predicate Worthwhile(below: Files, closed: Files, wider: Files, expandedLimit: nat) {
    && Touched(below, closed) != [] && |wider| > |closed|
    && TotalSize(Touched(below, closed)) + TotalSize(wider) < expandedLimit
    && |Touched(below, wider)| == |Touched(below, closed)|
  }

  ghost function MaybeWider(below: Files, closed: Files, wider: Files, expandedLimit: nat): Files {
    if Worthwhile(below, closed, wider, expandedLimit) then wider else closed
  }

  /** The upper inputs that `chosen` leads to: completed, and widened if that is worthwhile. */
  ghost predicate InputsFrom(version: seq<Files>, level: nat, chosen: Files, expandedLimit: nat, upper: Files)
    requires |version| == NUM_LEVELS && level + 1 < NUM_LEVELS
  {
    var files, below := version[level], version[level + 1];
    exists closed, wider :: upper == MaybeWider(below, closed, wider, expandedLimit) && Completed(level, files, chosen, closed)
      && (Touched(below, closed) != [] ==> WiderInputs(level, files, closed + Touched(below, closed), wider))
  }

  ghost function Grandparents(version: seq<Files>, level: nat, inputs: Files): Files
    requires |version| == NUM_LEVELS
  {
    if level + 2 < NUM_LEVELS then Touched(version[level + 2], inputs) else []
  }

  /** Completes a compaction at `level`: boundary files, the overlapped files one level down, and
    * then more upper inputs if they cost no more lower ones. `next` is where the next compaction
    * of the level will start. */
  method SetupOtherInputs(version: seq<Files>, level: nat, chosen: Files, expandedLimit: nat, ghost a: nat, ghost b: nat)
    returns (upper: Files, lower: Files, lo: UserKey, hi: UserKey, grandparents: Files, next: InternalKey)
    requires VersionOk(version) && level + 1 < NUM_LEVELS && MayStart(level, version[level], chosen, a, b)
    ensures Selected(Sets(version), Job(level, SetOf(upper), SetOf(lower), lo, hi))
    ensures NewerStays(SetOf(version[level]), SetOf(upper))
    ensures upper != [] && forall f :: f in chosen ==> f in upper
    ensures MergeReady(level, upper, lower)
    ensures Tight(upper, lo, hi)
    ensures InputsFrom(version, level, chosen, expandedLimit, upper)
    ensures lower == Touched(version[level + 1], upper) && grandparents == Grandparents(version, level, upper + lower)
    ensures IsLargest(upper, next)
    ensures level > 0 ==> exists x: nat, y: nat :: x <= a && b <= y && Segment(version[level], x, y, upper)
  {
    hide Tight, Completed, Touched, Hull, InputsFor, IsLargest, InputsFrom, WiderInputs, MaybeWider, TotalSize;
    hide MayStart, UpperOk, Spans, Selected, NewerStays, Overlapping, SortedFiles, Sets, SetOf, NoRepeats;
    ghost var start, end := a, b;
    upper, end := CloseUpper(version, level, chosen, a, b);
    lower, lo, hi, next := PickLower(version, level, upper);
    ghost var closed, wider := upper, upper;
    if lower != [] {
      var expanded, ta, te := ExpandUpper(version, level, upper, lower, start, end);
      wider := expanded;
      NotWorthwhile(version[level + 1], closed, wider, expandedLimit);
      if |expanded| > |upper| && TotalSize(lower) + TotalSize(expanded) < expandedLimit {
        var lower', lo', hi', next' := PickLower(version, level, expanded);
        if |lower'| == |lower| {
          upper, lower, lo, hi, next := expanded, lower', lo', hi', next';
          StartsNoLater(level, version[level], chosen, upper, a, b, ta, te);
          start, end := ta, te;
        }
      }
    } else {
      NotWorthwhile(version[level + 1], closed, wider, expandedLimit);
    }
    SetUp(version, level, chosen, expandedLimit, upper, closed, wider);
    grandparents := PickGrandparents(version, level, upper + lower);
    SpansSelects(version, level, upper, lower, lo, hi, start, end);
    InputsMergeReady(version, level, upper, lower, lo, hi, start, end);
    SegmentOf(level, version[level], upper, start, end);
  }

  lemma SetUp(version: seq<Files>, level: nat, chosen: Files, expandedLimit: nat, upper: Files, closed: Files, wider: Files)
    requires |version| == NUM_LEVELS && level + 1 < NUM_LEVELS
    requires upper == MaybeWider(version[level + 1], closed, wider, expandedLimit) && Completed(level, version[level], chosen, closed)
    requires Touched(version[level + 1], closed) != [] ==> WiderInputs(level, version[level], closed + Touched(version[level + 1], closed), wider)
    ensures InputsFrom(version, level, chosen, expandedLimit, upper)
  {
  }

  lemma NotWorthwhile(below: Files, closed: Files, wider: Files, expandedLimit: nat)
    ensures Worthwhile(below, closed, wider, expandedLimit) <==>
      Touched(below, closed) != [] && |wider| > |closed|
      && TotalSize(Touched(below, closed)) + TotalSize(wider) < expandedLimit && |Touched(below, wider)| == |Touched(below, closed)|
    ensures MaybeWider(below, closed, wider, expandedLimit) == if Worthwhile(below, closed, wider, expandedLimit) then wider else closed
  {
  }

  /** The upper inputs that the whole range of a compaction would bring. */
  method ExpandUpper(version: seq<Files>, level: nat, upper: Files, lower: Files, ghost a: nat, ghost b: nat)
    returns (expanded: Files, ghost x: nat, ghost y: nat)
    requires VersionOk(version) && level + 1 < NUM_LEVELS && upper != [] && UpperOk(level, version[level], upper, a, b)
    ensures UpperOk(level, version[level], expanded, x, y) && WiderInputs(level, version[level], upper + lower, expanded)
    ensures expanded != [] && forall f :: f in upper ==> f in expanded
  {
    hide Tight, Completed, Touched, Hull, InputsFor, MayStart, UpperOk, Overlapping, SortedFiles, NoRepeats;
    var allStart, allLimit := SpanOf(upper + lower);
    HullBounds(upper, lower, allStart, allLimit);
    LevelFacts(version, level);
    var touched, ta, tb := OverlappingStart(level, version[level], Some(allStart), Some(allLimit));
    UpperTouched(level, version[level], upper, a, b, touched, allStart, allLimit);
    x := ta;
    expanded, y := CloseUpper(version, level, touched, ta, tb);
  }

  /** What lies two levels down in the range of a compaction. */
  method PickGrandparents(version: seq<Files>, level: nat, inputs: Files) returns (grandparents: Files)
    requires VersionOk(version) && inputs != []
    ensures grandparents == Grandparents(version, level, inputs)
  {
    hide Overlapping, Touched, Hull;
    grandparents := [];
    if level + 2 < NUM_LEVELS {
      var allStart, allLimit := SpanOf(inputs);
      HullTouches(version[level + 2], inputs, allStart, allLimit);
      var overlaps, _, _ := GetOverlappingInputs(level + 2, version[level + 2], Some(allStart), Some(allLimit));
      grandparents := overlaps;
    }
  }

  lemma HullBounds(upper: Files, lower: Files, lo: UserKey, hi: UserKey)
    requires Hull(upper + lower, lo, hi)
    ensures forall f :: f in upper ==> lo <= f.smallest.user && f.largest.user <= hi
  {
  }

  lemma SegmentOf(level: nat, files: Files, upper: Files, a: nat, c: nat)
    requires UpperOk(level, files, upper, a, c)
    ensures level > 0 ==> Segment(files, a, c, upper)
  {
  }

  /** A run with all the chosen files in it begins no later and ends no earlier. */
  lemma StartsNoLater(level: nat, files: Files, chosen: Files, upper: Files, a: nat, b: nat, x: nat, y: nat)
    requires MayStart(level, files, chosen, a, b) && UpperOk(level, files, upper, x, y)
    requires AllValid(files) && (level > 0 ==> SortedFiles(files))
    requires forall f :: f in chosen ==> f in upper
    ensures level > 0 ==> x <= a && b <= y
  {
    if level > 0 {
      hide AllValid, SortedFiles;
      assert chosen[0] == files[a] && chosen[b - 1 - a] == files[b - 1];
      InRun(files, x, y, a);
      InRun(files, x, y, b - 1);
    }
  }

  lemma InRun(files: Files, x: nat, y: nat, i: nat)
    requires AllValid(files) && SortedFiles(files) && x <= y <= |files| && i < |files| && files[i] in files[x..y]
    ensures x <= i < y
  {
    var k :| x <= k < y && files[k] == files[i];
    hide AllValid, SortedFiles;
    if k < i {
      LargestAscend(files, k, i);
    } else if i < k {
      LargestAscend(files, i, k);
    }
  }

  /** Inputs of a sorted level come in order; level-0 inputs come once each. */
  ghost predicate MergeReady(level: nat, upper: Files, lower: Files) {
    (if level == 0 then NoRepeats(upper) else SortedFiles(upper)) && SortedFiles(lower)
  }

  lemma InputsMergeReady(version: seq<Files>, level: nat, upper: Files, lower: Files, lo: UserKey, hi: UserKey, a: nat, b: nat)
    requires VersionOk(version) && level + 1 < NUM_LEVELS && UpperOk(level, version[level], upper, a, b)
    requires Spans(lower, version[level + 1], upper, lo, hi)
    ensures MergeReady(level, upper, lower)
  {
    var c, d := OverlappingIsSegment(version[level + 1], Some(lo), Some(hi));
    SliceSorted(version[level + 1], c, d);
    if level > 0 {
      SliceSorted(version[level], a, b);
    }
  }

  lemma SliceSorted(files: Files, a: nat, b: nat)
    requires SortedFiles(files) && a <= b <= |files|
    ensures SortedFiles(files[a..b])
  {
  }

  /** The files already chosen lie in the range they span, so a wider search finds them again. */
  lemma UpperTouched(level: nat, files: Files, upper: Files, a: nat, b: nat, touched: Files, lo: UserKey, hi: UserKey)
    requires AllValid(files) && UpperOk(level, files, upper, a, b)
    requires forall f :: f in upper ==> lo <= f.smallest.user && f.largest.user <= hi
    requires forall f :: f in files && InRange(f, Some(lo), Some(hi)) ==> f in touched
    ensures forall f :: f in upper ==> f in touched
    ensures touched != []
  {
    forall f | f in upper ensures f in touched {
      assert f in files;
      f.Bounds(f.entries[0]);
    }
    assert upper[0] in upper;
  }

  /** File `i` is the first one past the compaction pointer, or the first of all when none is. */
  ghost predicate IsNext(files: Files, pointer: Option<InternalKey>, i: nat) {
    && i < |files|
    && (if PastPointer(files[i], pointer) then forall k :: 0 <= k < i ==> !PastPointer(files[k], pointer)
        else i == 0 && forall k :: 0 <= k < |files| ==> !PastPointer(files[k], pointer))
  }

  predicate PastPointer(f: Table, pointer: Option<InternalKey>) {
    pointer.None? || pointer.value.Before(f.largest)
  }

  /** The inputs hold the file whose turn it is, and the pointer moves behind the last of them. */
  ghost predicate TakesTurn(files: Files, pointer: Option<InternalKey>, upper: Files, next: InternalKey) {
    exists i: nat, x: nat, y: nat :: IsNext(files, pointer, i) && Segment(files, x, y, upper) && x <= i < y && next == files[y - 1].largest
  }

  /** The upper inputs that one file leads to; at level 0 it brings all it touches, directly or not. */
  ghost predicate PickedFor(version: seq<Files>, level: nat, f: Table, expandedLimit: nat, upper: Files)
    requires |version| == NUM_LEVELS && level + 1 < NUM_LEVELS
  {
    if level > 0 then InputsFrom(version, level, [f], expandedLimit, upper)
    else exists chosen :: InputsFor(0, version[0], Some(f.smallest.user), Some(f.largest.user), chosen) && InputsFrom(version, 0, chosen, expandedLimit, upper)
  }

  /** An automatic compaction starts from one file: the first one past the compaction pointer,
    * wrapping around, or the one that was seeked too often. */
  method PickCompaction(version: seq<Files>, level: nat, pointer: Option<InternalKey>, seeked: Option<Table>, expandedLimit: nat)
    returns (upper: Files, lower: Files, lo: UserKey, hi: UserKey, grandparents: Files, next: InternalKey, ghost i: nat)
    requires VersionOk(version) && level + 1 < NUM_LEVELS && version[level] != []
    requires seeked.Some? ==> seeked.value in version[level]
    ensures Selected(Sets(version), Job(level, SetOf(upper), SetOf(lower), lo, hi))
    ensures NewerStays(SetOf(version[level]), SetOf(upper))
    ensures upper != [] && MergeReady(level, upper, lower)
    ensures i < |version[level]| && version[level][i] in upper
    ensures if seeked.Some? then version[level][i] == seeked.value else IsNext(version[level], pointer, i)
    ensures PickedFor(version, level, version[level][i], expandedLimit, upper)
    ensures lower == Touched(version[level + 1], upper) && grandparents == Grandparents(version, level, upper + lower)
    ensures IsLargest(upper, next)
    ensures level > 0 && seeked.None? ==> TakesTurn(version[level], pointer, upper, next)
  {
    hide Selected, NewerStays, Overlapping, Sets, SetOf, VersionOk, Isolated, MergeReady, SortedFiles, Touched, IsLargest, InputsFrom, InputsFor;
    hide IsNext, TakesTurn, Grandparents;
    LevelFacts(version, level);
    var files := version[level];
    var at := PickFile(files, pointer, seeked);
    i := at;
    var chosen := [files[at]];
    ghost var a, b := at, at + 1;
    if level == 0 {
      // level-0 files may overlap: take everything the picked file touches, directly or not
      var f := files[at];
      chosen, a, b := OverlappingStart(0, files, Some(f.smallest.user), Some(f.largest.user));
      FileTouchesItself(files, f);
    }
    assert files[at] in chosen;
    upper, lower, lo, hi, grandparents, next := SetupOtherInputs(version, level, chosen, expandedLimit, a, b);
    if level > 0 {
      ghost var x: nat, y: nat :| x <= a && b <= y && Segment(files, x, y, upper);
      TurnIsTaken(files, pointer, upper, next, at, x, y);
    }
  }

  lemma TurnIsTaken(files: Files, pointer: Option<InternalKey>, upper: Files, next: InternalKey, i: nat, x: nat, y: nat)
    requires AllValid(files) && SortedFiles(files) && Segment(files, x, y, upper) && x <= i < y && IsLargest(upper, next)
    ensures IsNext(files, pointer, i) ==> TakesTurn(files, pointer, upper, next)
  {
    hide AllValid, SortedFiles, IsNext;
    SegmentLargest(files, x, y, upper, next);
  }

  method PickFile(files: Files, pointer: Option<InternalKey>, seeked: Option<Table>) returns (i: nat)
    requires files != [] && (seeked.Some? ==> seeked.value in files)
    ensures i < |files| && if seeked.Some? then files[i] == seeked.value else IsNext(files, pointer, i)
  {
    i := 0;
    if seeked.Some? {
      i :| 0 <= i < |files| && files[i] == seeked.value;
    } else {
      while i < |files| && pointer.Some? && !pointer.value.Before(files[i].largest)
        invariant 0 <= i <= |files|
        invariant forall k :: 0 <= k < i ==> !PastPointer(files[k], pointer)
      {
        i := i + 1;
      }
      if i == |files| {
        i := 0;
      }
    }
  }

  lemma FileTouchesItself(files: Files, f: Table)
    requires AllValid(files) && f in files
    ensures InRange(f, Some(f.smallest.user), Some(f.largest.user))
  {
    f.Bounds(f.entries[0]);
  }

  lemma LevelFacts(version: seq<Files>, level: nat)
    requires VersionOk(version) && level < NUM_LEVELS
    ensures |version| == NUM_LEVELS && AllValid(version[level])
    ensures if level > 0 then SortedFiles(version[level]) else NoRepeats(version[level])
  {
  }

  /** The first files of a group, as many as it takes to gather enough bytes. */
  ghost predicate CutShort(inputs: Files, sizeLimit: nat, start: Files) {
    && start != [] && start <= inputs
    && (start == inputs || TotalSize(start) >= sizeLimit)
    && (|start| > 1 ==> TotalSize(start[..|start| - 1]) < sizeLimit)
  }

  /** A manual compaction starts from the files of a key range, cut short at a sorted level once
    * enough bytes are gathered. */
  method CompactRange(version: seq<Files>, level: nat, begin: Option<UserKey>, end: Option<UserKey>, sizeLimit: nat, expandedLimit: nat)
    returns (upper: Files, lower: Files, lo: UserKey, hi: UserKey, grandparents: Files, next: InternalKey, ghost all: Files, ghost start: Files)
    requires VersionOk(version) && level + 1 < NUM_LEVELS
    ensures upper == [] <==> forall f :: f in version[level] ==> !InRange(f, begin, end)
    ensures upper != [] ==> Selected(Sets(version), Job(level, SetOf(upper), SetOf(lower), lo, hi))
    ensures upper != [] ==> NewerStays(SetOf(version[level]), SetOf(upper)) && MergeReady(level, upper, lower)
    ensures InputsFor(level, version[level], begin, end, all)
    ensures upper != [] ==> if level > 0 then CutShort(all, sizeLimit, start) else start == all
    ensures upper != [] ==> InputsFrom(version, level, start, expandedLimit, upper)
    ensures upper != [] ==> lower == Touched(version[level + 1], upper) && grandparents == Grandparents(version, level, upper + lower)
    ensures upper != [] ==> IsLargest(upper, next)
  {
    hide Selected, NewerStays, Sets, SetOf, VersionOk, Isolated, SortedFiles, MergeReady, NoRepeats, InputsFor, Touched, Completed, IsLargest, InputsFrom, CutShort, Grandparents, Segment;
    LevelFacts(version, level);
    var inputs, a, b := OverlappingStart(level, version[level], begin, end);
    all, start := inputs, inputs;
    if inputs == [] {
      return [], [], 0.0, 0.0, [], InternalKey(0.0, 0, Deletion), all, start;
    }
    if level > 0 {
      var i := EnoughBytes(inputs, sizeLimit);
      SegmentFront(version[level], a, b, inputs, i);
      inputs, b := inputs[..i], a + i;
      start := inputs;
    }
    upper, lower, lo, hi, grandparents, next := SetupOtherInputs(version, level, inputs, expandedLimit, a, b);
  }

  lemma SegmentFront(files: Files, a: nat, b: nat, inputs: Files, i: nat)
    requires Segment(files, a, b, inputs) && 0 < i <= |inputs|
    ensures Segment(files, a, a + i, inputs[..i]) && forall f :: f in inputs[..i] ==> f in inputs
  {
    assert files[a..b][..i] == files[a..a + i];
  }

  method EnoughBytes(inputs: Files, sizeLimit: nat) returns (i: nat)
    requires inputs != []
    ensures 0 < i <= |inputs| && CutShort(inputs, sizeLimit, inputs[..i])
  {
    var total := inputs[0].size;
    i := 1;
    SizesAdd([], []);
    assert inputs[..1] == [inputs[0]];
    while i < |inputs| && total < sizeLimit
      invariant 1 <= i <= |inputs| && total == TotalSize(inputs[..i])
      invariant i > 1 ==> TotalSize(inputs[..i - 1]) < sizeLimit
    {
      SizesAdd(inputs[..i], [inputs[i]]);
      assert inputs[..i + 1] == inputs[..i] + [inputs[i]];
      total := total + inputs[i].size;
      i := i + 1;
    }
    assert inputs[..i][..i - 1] == inputs[..i - 1];
    assert i == |inputs| ==> inputs[..i] == inputs;
  }
}
