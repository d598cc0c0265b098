/** The compaction loop: one pass over the merged inputs that drops what no reader needs. */
module CompactionWork {
  import opened Keys
  import opened Layers
  import opened Compaction
  import opened VersionSet
  import opened Merging
  import opened Engine

  /** Remembers, per level below the inputs, how far ascending queries have come. */
  class BaseLevelScan {
    const version: seq<Files>
    const level: nat
    var ptrs: seq<nat>
    ghost var asked: Option<UserKey>

    /** Files behind a pointer end before every key still to come. */
    ghost predicate Ok()
      reads this
    {
      && VersionOk(version)
      && |ptrs| == NUM_LEVELS
      && forall l :: 0 <= l < NUM_LEVELS ==> Behind(version[l], ptrs[l], asked)
    }

    static ghost predicate Behind(files: Files, p: nat, u: Option<UserKey>) {
      p <= |files| && forall i :: 0 <= i < p ==> u.Some? && files[i].largest.user < u.value
    }

    constructor (version: seq<Files>, level: nat)
      requires VersionOk(version)
      ensures Ok() && asked == None && this.version == version && this.level == level
    {
      this.version := version;
      this.level := level;
      ptrs := seq(NUM_LEVELS, _ => 0);
      asked := None;
    }

    /** No file below the two input levels has `u` in its range. Keys must be asked in order. */
    method IsBaseLevelForKey(u: UserKey) returns (base: bool)
      requires Ok() && (asked.Some? ==> asked.value <= u)
      modifies this
      ensures Ok() && asked == Some(u)
      ensures base <==> BaseLevel(Sets(version), level, u)
    {
      hide AllValid, SortedFiles, Unique;
      asked := Some(u);
      var l := level + 2;
      while l < NUM_LEVELS
        invariant level + 2 <= l && Ok()
        invariant asked == Some(u)
        invariant forall k, f :: level + 2 <= k < l && k < NUM_LEVELS && f in version[k] ==> !f.Overlaps(u, u)
      {
        var files := version[l];
        var p := ptrs[l];
        while p < |files| && u > files[p].largest.user
          invariant Behind(files, p, asked)
        {
          p := p + 1;
        }
        ptrs := ptrs[l := p];
        if p < |files| && u >= files[p].smallest.user {
          InRangeOf(version, level, l, p, u);
          return false;
        }
        NoneAtLevel(files, p, u);
        l := l + 1;
      }
      BaseLevelIs(version, level, u);
      return true;
    }
  }

  lemma InRangeOf(version: seq<Files>, level: nat, l: nat, p: nat, u: UserKey)
    requires |version| == NUM_LEVELS && level + 2 <= l < NUM_LEVELS && p < |version[l]|
    requires version[l][p].Overlaps(u, u)
    ensures !BaseLevel(Sets(version), level, u)
  {
    assert version[l][p] in Sets(version)[l];
  }

  lemma BaseLevelIs(version: seq<Files>, level: nat, u: UserKey)
    requires |version| == NUM_LEVELS
    requires forall k, f :: level + 2 <= k < NUM_LEVELS && f in version[k] ==> !f.Overlaps(u, u)
    ensures BaseLevel(Sets(version), level, u)
  {
  }

  lemma NoneAtLevel(files: Files, p: nat, u: UserKey)
    requires AllValid(files) && SortedFiles(files) && BaseLevelScan.Behind(files, p, Some(u))
    requires p < |files| ==> u < files[p].smallest.user
    ensures forall f :: f in files ==> !f.Overlaps(u, u)
  {
    forall f | f in files ensures !f.Overlaps(u, u) {
      var i :| 0 <= i < |files| && files[i] == f;
      if i >= p {
        UsersAscend(files, p, i);
      }
    }
  }

  /** Adds up how much of the level two below an output table has come to overlap. */
  class OverlapScan {
    const grandparents: Files
    const maxBytes: nat
    var index: nat
    var seenKey: bool
    var overlapped: nat
    /** Where the open table began to overlap. */
    ghost var begun: nat
    ghost var asked: Option<InternalKey>

    ghost predicate Ok()
      reads this
    {
      && begun <= index <= |grandparents|
      && overlapped == TotalSize(grandparents[begun..index])
      && (seenKey <==> asked.Some?) && (!seenKey ==> index == 0 == begun)
      && (forall i :: 0 <= i < index ==> asked.Some? && grandparents[i].largest.Before(asked.value))
    }

    constructor (grandparents: Files, maxBytes: nat)
      ensures Ok() && asked == None && begun == 0 && this.grandparents == grandparents && this.maxBytes == maxBytes
    {
      this.grandparents, this.maxBytes := grandparents, maxBytes;
      index, seenKey, overlapped, begun, asked := 0, false, 0, 0, None;
    }

    /** The open table ends before this key if the files passed since it began are too many
      * bytes; files before the very first key do not count. Keys must be asked in order. */
    method ShouldStopBefore(key: InternalKey) returns (stop: bool)
      requires Ok() && (asked.Some? ==> asked.value == key || asked.value.Before(key))
      modifies this
      ensures Ok() && asked == Some(key)
      ensures index < |grandparents| ==> !grandparents[index].largest.Before(key)
      ensures var start := if old(asked).None? then index else old(begun);
        start <= index && (stop <==> TotalSize(grandparents[start..index]) > maxBytes) && begun == if stop then index else start
    {
      ghost var seen := asked.Some?;
      StillPassed(grandparents, index, asked, key);
      asked := Some(key);
      while index < |grandparents| && grandparents[index].largest.Before(key)
        invariant begun <= index <= |grandparents| && seenKey == seen && asked == Some(key)
        invariant overlapped == TotalSize(grandparents[begun..index]) && (if seen then begun == old(begun) else begun == index)
        invariant forall i :: 0 <= i < index ==> grandparents[i].largest.Before(key)
        decreases |grandparents| - index
      {
        if seenKey {
          overlapped := overlapped + grandparents[index].size;
          OneMoreFile(grandparents, begun, index);
        } else {
          begun := index + 1;
        }
        index := index + 1;
      }
      seenKey := true;
      stop := overlapped > maxBytes;
      if stop {
        overlapped := 0;
        begun := index;
      }
    }
  }

  lemma StillPassed(files: Files, n: nat, before: Option<InternalKey>, key: InternalKey)
    requires n <= |files| && (before.Some? ==> before.value == key || before.value.Before(key))
    requires forall i :: 0 <= i < n ==> before.Some? && files[i].largest.Before(before.value)
    ensures forall i :: 0 <= i < n ==> files[i].largest.Before(key)
  {
  }

  lemma OneMoreFile(files: Files, a: nat, b: nat)
    requires a <= b < |files|
    ensures TotalSize(files[a..b + 1]) == TotalSize(files[a..b]) + files[b].size && files[b + 1..b + 1] == []
  {
    SizesAdd(files[a..b], [files[b]]);
    assert files[a..b + 1] == files[a..b] + [files[b]];
  }

  // ---------------------------------------------------------------- the dropping rule

  /** In merge order, rule (A) need only look at the entry just passed. */
  lemma HiddenByPrevious(m: seq<Entry>, smallest: nat, i: nat)
    requires Sorted(m) && UniqueSequences(Elements(m)) && i < |m|
    ensures Hidden(Elements(m), smallest, m[i])
      <==> i > 0 && m[i - 1].key.user == m[i].key.user && m[i - 1].key.seqno <= smallest
  {
    var e := m[i];
    if i > 0 && m[i - 1].key.user == e.key.user {
      assert m[i - 1] in Elements(m) && e in Elements(m) && m[i - 1].key.Before(e.key);
    }
    if x :| x in Elements(m) && x.key.user == e.key.user && e.key.seqno < x.key.seqno <= smallest {
      var k :| 0 <= k < |m| && m[k] == x;
      assert k < i;
      assert m[k].key == m[i - 1].key || m[k].key.Before(m[i - 1].key);
      assert m[i - 1].key.Before(e.key);
    }
  }

  // ---------------------------------------------------------------- output files

  /** After `i` merged entries: `done` are finished tables, `cur` is in the open one, and
    * together they hold exactly what was not dropped. */
  ghost predicate Written(m: seq<Entry>, i: nat, gone: set<Entry>, done: Files, cur: seq<Entry>) {
    && i <= |m|
    && AllValid(done) && SortedFiles(done) && Sorted(cur)
    && (cur != [] ==> forall t :: t in done ==> t.largest.Before(cur[0].key))
    && (forall e :: e in Contents(SetOf(done)) || e in cur <==> e in m[..i] && e !in gone)
  }

  lemma WriteStarts(m: seq<Entry>, gone: set<Entry>)
    ensures Written(m, 0, gone, [], [])
  {
  }

  lemma WriteDrops(m: seq<Entry>, i: nat, gone: set<Entry>, done: Files, cur: seq<Entry>)
    requires Written(m, i, gone, done, cur) && i < |m| && m[i] in gone
    ensures Written(m, i + 1, gone, done, cur)
  {
    assert m[..i + 1] == m[..i] + [m[i]];
  }

  lemma WriteKeeps(m: seq<Entry>, i: nat, gone: set<Entry>, done: Files, cur: seq<Entry>)
    requires Sorted(m) && Written(m, i, gone, done, cur) && i < |m| && m[i] !in gone
    ensures Written(m, i + 1, gone, done, cur + [m[i]])
  {
    assert m[..i + 1] == m[..i] + [m[i]];
    forall e | e in m[..i] ensures e.key.Before(m[i].key) {
      var k :| 0 <= k < i && m[k] == e;
    }
    forall t | t in done ensures t.largest.Before(m[i].key) {
      var last := t.entries[|t.entries| - 1];
      assert t in SetOf(done) && last in t.entries;
      assert last in Contents(SetOf(done));
    }
    forall k | 0 <= k < |cur| ensures cur[k].key.Before(m[i].key) {
      assert cur[k] in cur;
    }
  }

  lemma WriteFinishes(m: seq<Entry>, i: nat, gone: set<Entry>, done: Files, cur: seq<Entry>, t: Table)
    requires Written(m, i, gone, done, cur) && t.entries == cur && t.Valid()
    ensures Written(m, i, gone, done + [t], [])
  {
    assert SetOf(done + [t]) == SetOf(done) + {t};
    assert Contents(SetOf(done + [t])) == Contents(SetOf(done)) + Elements(cur);
  }

  function FinishTable(number: nat, size: nat, entries: seq<Entry>): Table
    requires entries != []
  {
    Table(number, size, entries[0].key, entries[|entries| - 1].key, entries)
  }

  lemma FinishedIsValid(m: seq<Entry>, i: nat, gone: set<Entry>, done: Files, cur: seq<Entry>, number: nat, size: nat)
    requires Written(m, i, gone, done, cur) && cur != []
    requires forall e :: e in m ==> e.key.seqno <= MAX_SEQUENCE
    ensures FinishTable(number, size, cur).Valid()
  {
  }

  /** Consecutive numbers from `first`. */
  ghost predicate Numbered(files: Files, first: nat) {
    forall k :: 0 <= k < |files| ==> files[k].number == first + k
  }

  /** Can the entry be left out? Rule (A) goes by the sequence number just passed. */
  method ShouldDrop(scan: BaseLevelScan, e: Entry, lastSequence: nat, smallest: nat, ghost j: Job, ghost m: seq<Entry>, ghost n: nat)
    returns (drop: bool)
    requires scan.Ok() && j.level == scan.level && (scan.asked.Some? ==> scan.asked.value <= e.key.user)
    requires Sorted(m) && n < |m| && m[n] == e && Elements(m) == Inputs(j) && UniqueSequences(Inputs(j)) && smallest < MAX_SEQUENCE
    requires lastSequence == if n > 0 && m[n - 1].key.user == e.key.user then m[n - 1].key.seqno else MAX_SEQUENCE
    modifies scan
    ensures scan.Ok() && (scan.asked == old(scan.asked) || scan.asked == Some(e.key.user))
    ensures drop <==> e in Elements(m) - Kept(Sets(scan.version), j, smallest)
  {
    hide BaseLevelScan.Ok, Kept, Hidden, BaseLevel, Inputs, Sets, UniqueSequences, Sorted, Elements;
    HiddenByPrevious(m, smallest, n);
    DroppedIs(m, Sets(scan.version), j, smallest, n);
    if lastSequence <= smallest {
      // every reader that is left prefers the previous entry
      return true;
    }
    drop := false;
    if e.key.kind.Deletion? && e.key.seqno <= smallest {
      drop := scan.IsBaseLevelForKey(e.key.user);
    }
  }

  // ---------------------------------------------------------------- where tables end

  /** What is left of some merged entries. */
  ghost function Keeps(m: seq<Entry>, gone: set<Entry>): seq<Entry> {
    if m == [] then [] else Keeps(m[..|m| - 1], gone) + (if m[|m| - 1] in gone then [] else [m[|m| - 1]])
  }

  ghost function StartOf(ends: seq<nat>, i: nat): nat
    requires i <= |ends|
  {
    if i == 0 then 0 else ends[i - 1]
  }

  /** Up to position `b` there was no reason to end a table that began at position `a`. */
  ghost predicate GoesOn(m: seq<Entry>, gone: set<Entry>, a: nat, b: nat, stopBefore: nat -> bool, full: seq<Entry> -> bool) {
    && a <= b <= |m|
    && forall n :: a < n < b && Keeps(m[a..n], gone) != [] ==> !stopBefore(n) && !full(Keeps(m[a..n], gone))
  }

  /** A table holds what was kept between two positions; at the second one there was a reason to
    * end it, or nothing more to come, and at no earlier one. */
  ghost predicate EndsAt(m: seq<Entry>, gone: set<Entry>, t: Table, a: nat, b: nat, stopBefore: nat -> bool, full: seq<Entry> -> bool) {
    && GoesOn(m, gone, a, b, stopBefore, full)
    && t.entries == Keeps(m[a..b], gone)
    && (b == |m| || stopBefore(b) || full(t.entries))
  }

  ghost predicate CutRight(m: seq<Entry>, gone: set<Entry>, outs: Files, ends: seq<nat>, stopBefore: nat -> bool, full: seq<Entry> -> bool) {
    |ends| == |outs| && forall i :: 0 <= i < |outs| ==> EndsAt(m, gone, outs[i], StartOf(ends, i), ends[i], stopBefore, full)
  }

  /** The tables ended so far, and the open one. */
  ghost predicate CutSoFar(m: seq<Entry>, gone: set<Entry>, outs: Files, ends: seq<nat>, cur: seq<Entry>, n: nat,
                           stopBefore: nat -> bool, full: seq<Entry> -> bool) {
    && CutRight(m, gone, outs, ends, stopBefore, full)
    && GoesOn(m, gone, StartOf(ends, |ends|), n, stopBefore, full)
    && cur == Keeps(m[StartOf(ends, |ends|)..n], gone)
    && (cur != [] ==> !full(cur))
  }

  lemma CutStarts(m: seq<Entry>, gone: set<Entry>, stopBefore: nat -> bool, full: seq<Entry> -> bool)
    ensures CutSoFar(m, gone, [], [], [], 0, stopBefore, full)
  {
  }

  lemma KeepsOneMore(m: seq<Entry>, gone: set<Entry>, a: nat, n: nat)
    requires a <= n < |m|
    ensures Keeps(m[a..n + 1], gone) == Keeps(m[a..n], gone) + (if m[n] in gone then [] else [m[n]])
  {
    assert m[a..n + 1][..n - a] == m[a..n];
  }

  /** The table goes on past position `n`. */
  lemma CutGoesOn(m: seq<Entry>, gone: set<Entry>, outs: Files, ends: seq<nat>, cur: seq<Entry>, n: nat,
                  stopBefore: nat -> bool, full: seq<Entry> -> bool)
    requires CutSoFar(m, gone, outs, ends, cur, n, stopBefore, full) && n < |m| && (cur != [] ==> !stopBefore(n))
    ensures var cur' := if m[n] in gone then cur else cur + [m[n]];
      && CutRight(m, gone, outs, ends, stopBefore, full) && GoesOn(m, gone, StartOf(ends, |ends|), n + 1, stopBefore, full)
      && cur' == Keeps(m[StartOf(ends, |ends|)..n + 1], gone)
      && (m[n] in gone || !full(cur') ==> CutSoFar(m, gone, outs, ends, cur', n + 1, stopBefore, full))
  {
    hide Keeps;
    KeepsOneMore(m, gone, StartOf(ends, |ends|), n);
  }

  lemma CutParts(m: seq<Entry>, gone: set<Entry>, outs: Files, ends: seq<nat>, cur: seq<Entry>, n: nat,
                 stopBefore: nat -> bool, full: seq<Entry> -> bool)
    requires CutSoFar(m, gone, outs, ends, cur, n, stopBefore, full)
    ensures CutRight(m, gone, outs, ends, stopBefore, full) && GoesOn(m, gone, StartOf(ends, |ends|), n, stopBefore, full)
    ensures StartOf(ends, |ends|) <= n <= |m| && cur == Keeps(m[StartOf(ends, |ends|)..n], gone)
  {
  }

  /** The table ends at position `n`. */
  lemma CutEnds(m: seq<Entry>, gone: set<Entry>, outs: Files, ends: seq<nat>, cur: seq<Entry>, n: nat, t: Table,
                stopBefore: nat -> bool, full: seq<Entry> -> bool)
    requires CutRight(m, gone, outs, ends, stopBefore, full) && GoesOn(m, gone, StartOf(ends, |ends|), n, stopBefore, full)
    requires n <= |m| && t.entries == cur == Keeps(m[StartOf(ends, |ends|)..n], gone) && (n == |m| || stopBefore(n) || full(cur))
    ensures CutSoFar(m, gone, outs + [t], ends + [n], [], n, stopBefore, full)
  {
    hide GoesOn;
    forall i | 0 <= i < |outs| + 1 ensures EndsAt(m, gone, (outs + [t])[i], StartOf(ends + [n], i), (ends + [n])[i], stopBefore, full) {
      if i < |outs| {
        assert EndsAt(m, gone, outs[i], StartOf(ends, i), ends[i], stopBefore, full);
      }
    }
    NothingOpen(m, gone, n, stopBefore, full);
  }

  lemma NothingOpen(m: seq<Entry>, gone: set<Entry>, n: nat, stopBefore: nat -> bool, full: seq<Entry> -> bool)
    requires n <= |m|
    ensures GoesOn(m, gone, n, n, stopBefore, full) && Keeps(m[n..n], gone) == []
  {
  }

  /** The work so far: what is written, under which numbers, and where tables ended. */
  ghost predicate Working(m: seq<Entry>, gone: set<Entry>, outs: Files, ends: seq<nat>, cur: seq<Entry>, n: nat, first: nat,
                          stopBefore: nat -> bool, full: seq<Entry> -> bool) {
    n <= |m| && Written(m, n, gone, outs, cur) && Numbered(outs, first) && CutSoFar(m, gone, outs, ends, cur, n, stopBefore, full)
  }

  lemma WorkStarts(m: seq<Entry>, gone: set<Entry>, first: nat, stopBefore: nat -> bool, full: seq<Entry> -> bool)
    ensures Working(m, gone, [], [], [], 0, first, stopBefore, full)
  {
    hide Written, Numbered, CutSoFar;
    WriteStarts(m, gone);
    CutStarts(m, gone, stopBefore, full);
    NumberedStarts(first);
  }

  lemma WorkDrops(m: seq<Entry>, gone: set<Entry>, outs: Files, ends: seq<nat>, cur: seq<Entry>, n: nat, first: nat,
                  stopBefore: nat -> bool, full: seq<Entry> -> bool)
    requires Working(m, gone, outs, ends, cur, n, first, stopBefore, full) && n < |m| && m[n] in gone && (cur != [] ==> !stopBefore(n))
    ensures Working(m, gone, outs, ends, cur, n + 1, first, stopBefore, full)
  {
    hide Written, Numbered, CutSoFar, GoesOn, Keeps, CutRight;
    CutGoesOn(m, gone, outs, ends, cur, n, stopBefore, full);
    WriteDrops(m, n, gone, outs, cur);
  }

  /** Adds an entry to the open table, which may be full then. */
  method KeepEntry(ghost m: seq<Entry>, ghost gone: set<Entry>, outs: Files, ghost ends: seq<nat>, cur: seq<Entry>, ghost n: nat, e: Entry,
                   first: nat, size: seq<Entry> -> nat, ghost stopBefore: nat -> bool, full: seq<Entry> -> bool)
    returns (outs': Files, cur': seq<Entry>, ghost ends': seq<nat>)
    requires Working(m, gone, outs, ends, cur, n, first, stopBefore, full)
    requires n < |m| && m[n] == e && e !in gone && (cur != [] ==> !stopBefore(n))
    requires Sorted(m) && forall x :: x in m ==> x.key.seqno <= MAX_SEQUENCE
    ensures Working(m, gone, outs', ends', cur', n + 1, first, stopBefore, full)
  {
    hide Written, Numbered, CutSoFar, GoesOn, Keeps, CutRight, Sorted;
    CutGoesOn(m, gone, outs, ends, cur, n, stopBefore, full);
    WriteKeeps(m, n, gone, outs, cur);
    outs', cur', ends' := outs, cur + [e], ends;
    if full(cur') {
      outs', cur', ends' := EndTable(m, n + 1, gone, outs, cur', first, size, ends, stopBefore, full);
    }
  }

  /** Ends the open table at a position where there is reason to. */
  method EndTable(ghost m: seq<Entry>, ghost n: nat, ghost gone: set<Entry>, outs: Files, cur: seq<Entry>, first: nat, size: seq<Entry> -> nat,
                  ghost ends: seq<nat>, ghost stopBefore: nat -> bool, ghost full: seq<Entry> -> bool)
    returns (outs': Files, cur': seq<Entry>, ghost ends': seq<nat>)
    requires n <= |m| && cur != [] && Written(m, n, gone, outs, cur) && Numbered(outs, first)
    requires forall e :: e in m ==> e.key.seqno <= MAX_SEQUENCE
    requires CutRight(m, gone, outs, ends, stopBefore, full) && GoesOn(m, gone, StartOf(ends, |ends|), n, stopBefore, full)
    requires cur == Keeps(m[StartOf(ends, |ends|)..n], gone) && (n == |m| || stopBefore(n) || full(cur))
    ensures cur' == [] && Working(m, gone, outs', ends', [], n, first, stopBefore, full)
  {
    hide Written, Numbered, CutRight, GoesOn, Keeps, CutSoFar;
    ends' := ends + [n];
    CutEnds(m, gone, outs, ends, cur, n, FinishTable(first + |outs|, size(cur), cur), stopBefore, full);
    outs', cur' := FinishOutput(m, n, gone, outs, cur, first, size), [];
  }

  lemma WorkIs(m: seq<Entry>, gone: set<Entry>, outs: Files, ends: seq<nat>, cur: seq<Entry>, n: nat, first: nat,
               stopBefore: nat -> bool, full: seq<Entry> -> bool)
    requires Working(m, gone, outs, ends, cur, n, first, stopBefore, full)
    ensures n <= |m| && Written(m, n, gone, outs, cur) && Numbered(outs, first)
    ensures CutRight(m, gone, outs, ends, stopBefore, full) && GoesOn(m, gone, StartOf(ends, |ends|), n, stopBefore, full)
    ensures cur == Keeps(m[StartOf(ends, |ends|)..n], gone)
  {
    hide Written, Numbered, Keeps;
    CutParts(m, gone, outs, ends, cur, n, stopBefore, full);
  }

  /** Merges the inputs into new tables. `stopBefore` and `full` say where an output table ends
    * early: grandparent overlap and table size, which only affect where tables are cut. */
  method DoCompactionWork(input: MergingIterator, scan: BaseLevelScan, ghost j: Job, smallest: nat, first: nat,
                          stopBefore: nat -> bool, full: seq<Entry> -> bool, size: seq<Entry> -> nat)
    returns (outs: Files, ghost ends: seq<nat>)
    requires input.Ok() && scan.Ok() && scan.asked.None? && j.level == scan.level
    requires Elements(input.merged) == Inputs(j) && UniqueSequences(Inputs(j))
    requires smallest < MAX_SEQUENCE && forall e :: e in input.merged ==> e.key.seqno <= MAX_SEQUENCE
    modifies input, input.children, scan
    ensures Written(input.merged, |input.merged|, Elements(input.merged) - Kept(Sets(scan.version), j, smallest), outs, [])
    ensures Numbered(outs, first)
    ensures CutRight(input.merged, Elements(input.merged) - Kept(Sets(scan.version), j, smallest), outs, ends, stopBefore, full)
  {
    hide MergingIterator.Ok, BaseLevelScan.Ok, Written, Kept, Numbered, Hidden, BaseLevel, Inputs, Sets, UniqueSequences, Sorted, Elements, VersionOk, FinishOutput;
    hide Working, CutRight, GoesOn, Keeps;
    ghost var m, levels := input.merged, Sets(scan.version);
    ghost var gone := Elements(m) - Kept(levels, j, smallest);
    outs, ends := [], [];
    var cur: seq<Entry> := [];
    var currentUser: Option<UserKey> := None;
    var lastSequence := MAX_SEQUENCE;
    input.SeekToFirst();
    var n: nat := 0;
    MergeFacts(input);
    WorkStarts(m, gone, first, stopBefore, full);
    while input.Valid()
      invariant input.Ok() && scan.Ok() && n <= |m| && input.at == (if n < |m| then n else -1)
      invariant input.Valid() <==> input.at != -1
      invariant if n == 0 then currentUser == None else currentUser == Some(m[n - 1].key.user) && lastSequence == m[n - 1].key.seqno
      invariant scan.asked.Some? ==> currentUser.Some? && scan.asked.value <= currentUser.value
      invariant Working(m, gone, outs, ends, cur, n, first, stopBefore, full)
      decreases |m| - n
    {
      CurrentEntry(input);
      var e := Entry(input.Key(), input.Value());
      if cur != [] && stopBefore(n) {
        WorkIs(m, gone, outs, ends, cur, n, first, stopBefore, full);
        outs, cur, ends := EndTable(m, n, gone, outs, cur, first, size, ends, stopBefore, full);
      }
      if currentUser.None? || currentUser.value != e.key.user {
        UsersInOrder(m, n);
        currentUser := Some(e.key.user);
        lastSequence := MAX_SEQUENCE;
      }
      var drop := ShouldDrop(scan, e, lastSequence, smallest, j, m, n);
      lastSequence := e.key.seqno;
      if drop {
        WorkDrops(m, gone, outs, ends, cur, n, first, stopBefore, full);
      } else {
        outs, cur, ends := KeepEntry(m, gone, outs, ends, cur, n, e, first, size, stopBefore, full);
      }
      input.Next();
      MergeFacts(input);
      n := n + 1;
    }
    WorkIs(m, gone, outs, ends, cur, n, first, stopBefore, full);
    if cur != [] {
      outs, cur, ends := EndTable(m, n, gone, outs, cur, first, size, ends, stopBefore, full);
      WorkIs(m, gone, outs, ends, cur, n, first, stopBefore, full);
    }
  }

  /** Closes the open table and appends it, under the next number. */
  function FinishOutput(ghost m: seq<Entry>, ghost i: nat, ghost gone: set<Entry>, outs: Files, cur: seq<Entry>,
                        first: nat, size: seq<Entry> -> nat): (outs': Files)
    requires cur != [] && Written(m, i, gone, outs, cur) && Numbered(outs, first)
    requires forall e :: e in m ==> e.key.seqno <= MAX_SEQUENCE
    ensures Written(m, i, gone, outs', []) && Numbered(outs', first)
    ensures outs' == outs + [FinishTable(first + |outs|, size(cur), cur)]
  {
    FinishedIsValid(m, i, gone, outs, cur, first + |outs|, size(cur));
    WriteFinishes(m, i, gone, outs, cur, FinishTable(first + |outs|, size(cur), cur));
    outs + [FinishTable(first + |outs|, size(cur), cur)]
  }

  lemma NumberedStarts(first: nat)
    ensures Numbered([], first)
  {
  }

  lemma MergeFacts(input: MergingIterator)
    requires input.Ok()
    ensures Sorted(input.merged) && -1 <= input.at < |input.merged| && (input.Valid() <==> input.at != -1)
  {
  }

  lemma CurrentEntry(input: MergingIterator)
    requires input.Ok() && input.Valid()
    ensures 0 <= input.at < |input.merged| && Entry(input.Key(), input.Value()) == input.merged[input.at]
  {
  }

  lemma UsersInOrder(m: seq<Entry>, n: nat)
    requires Sorted(m) && n < |m|
    ensures n > 0 ==> m[n - 1].key.user <= m[n].key.user
  {
    assert n > 0 ==> m[n - 1].key.Before(m[n].key);
  }

  lemma DroppedIs(m: seq<Entry>, levels: seq<set<Table>>, j: Job, smallest: nat, n: nat)
    requires n < |m| && Elements(m) == Inputs(j)
    ensures m[n] in Elements(m) - Kept(levels, j, smallest)
      <==> (Hidden(Elements(m), smallest, m[n])
            || (m[n].key.kind.Deletion? && m[n].key.seqno <= smallest && BaseLevel(levels, j.level, m[n].key.user)))
  {
    assert m[n] in Elements(m);
  }

  /** What the loop leaves behind is what the theory of compaction asks of output tables. */
  lemma WorkIsOutputs(m: seq<Entry>, levels: seq<set<Table>>, j: Job, smallest: nat, outs: Files, first: nat)
    requires Elements(m) == Inputs(j)
    requires Written(m, |m|, Elements(m) - Kept(levels, j, smallest), outs, []) && Numbered(outs, first)
    ensures Outputs(j, SetOf(outs)) && Contents(SetOf(outs)) == Kept(levels, j, smallest)
    ensures NumberedFrom(SetOf(outs), first, first + |outs|)
  {
    assert m[..|m|] == m;
    forall f, g | f in SetOf(outs) && g in SetOf(outs) && f != g ensures Apart(f, g) {
      var a :| 0 <= a < |outs| && outs[a] == f;
      var b :| 0 <= b < |outs| && outs[b] == g;
    }
    forall e ensures e in Contents(SetOf(outs)) <==> e in Kept(levels, j, smallest) {
      assert e in Contents(SetOf(outs)) <==> e in m && e !in Elements(m) - Kept(levels, j, smallest);
      assert e in Elements(m) <==> e in Inputs(j);
    }
  }
}
