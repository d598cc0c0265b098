/** The compaction pointer takes the files of a sorted level in turn. */
module CompactionTurns {
  import opened Keys
  import opened Layers
  import opened VersionSet

  lemma PastOrNot(files: Files, i: nat, j: nat)
    requires AllValid(files) && SortedFiles(files) && i < |files| && j < |files|
    ensures PastPointer(files[j], Some(files[i].largest)) <==> i < j
  {
    hide AllValid, SortedFiles;
    if i < j {
      LargestAscend(files, i, j);
    } else if j < i {
      LargestAscend(files, j, i);
    }
  }

  lemma NextIsOne(files: Files, pointer: Option<InternalKey>, i: nat, k: nat)
    requires IsNext(files, pointer, i) && IsNext(files, pointer, k)
    ensures i == k
  {
  }

  /** Behind the last file of a run comes the next file, or the first one again. */
  lemma NextAfterRun(files: Files, y: nat)
    requires AllValid(files) && SortedFiles(files) && 0 < y <= |files|
    ensures IsNext(files, Some(files[y - 1].largest), if y < |files| then y else 0)
  {
    forall k | 0 <= k < |files| ensures PastPointer(files[k], Some(files[y - 1].largest)) <==> y - 1 < k {
      PastOrNot(files, y - 1, k);
    }
  }

  /** A file that was still to come is compacted or still to come, whatever the level gains or
    * loses besides. */
  lemma NoFileIsPassedOver(files: Files, pointer: Option<InternalKey>, upper: Files, next: InternalKey, f: Table)
    requires AllValid(files) && SortedFiles(files) && TakesTurn(files, pointer, upper, next)
    requires f in files && PastPointer(f, pointer)
    ensures f in upper || PastPointer(f, Some(next))
  {
    hide AllValid, SortedFiles;
    var i: nat, x: nat, y: nat :| IsNext(files, pointer, i) && Segment(files, x, y, upper) && x <= i < y && next == files[y - 1].largest;
    var j :| 0 <= j < |files| && files[j] == f;
    PastOrNot(files, y - 1, j);
    if j < y {
      assert files[x..y][j - x] == f;
    }
  }

  datatype Turn = Turn(pointer: Option<InternalKey>, upper: Files, next: InternalKey)

  /** Compactions picked one after another, each where the one before left the pointer. */
  ghost predicate Turns(files: Files, turns: seq<Turn>) {
    && (forall k :: 0 <= k < |turns| ==> TakesTurn(files, turns[k].pointer, turns[k].upper, turns[k].next))
    && (forall k :: 0 < k < |turns| ==> turns[k].pointer == Some(turns[k - 1].next))
  }

  function Distance(n: nat, i: nat, j: nat): int {
    if i <= j then j - i + 1 else n - i + j + 1
  }

  lemma {:induction false} ReachedWithin(files: Files, turns: seq<Turn>, i: nat, j: nat) returns (k: nat)
    requires AllValid(files) && SortedFiles(files) && Turns(files, turns) && i < |files| && j < |files|
    requires 0 < Distance(|files|, i, j) <= |turns| && IsNext(files, turns[0].pointer, i)
    ensures k < |turns| && files[j] in turns[k].upper
    decreases Distance(|files|, i, j)
  {
    hide AllValid, SortedFiles, IsNext;
    var t := turns[0];
    assert TakesTurn(files, t.pointer, t.upper, t.next);
    var i': nat, x: nat, y: nat :| IsNext(files, t.pointer, i') && Segment(files, x, y, t.upper) && x <= i' < y && t.next == files[y - 1].largest;
    NextIsOne(files, t.pointer, i, i');
    if x <= j < y {
      assert files[x..y][j - x] == files[j];
      k := 0;
    } else {
      NextAfterRun(files, y);
      var rest := turns[1..];
      assert Turns(files, rest) && rest[0] == turns[1];
      k := ReachedWithin(files, rest, if y < |files| then y else 0, j);
      k := k + 1;
    }
  }

  /** Each file of a level is among the inputs of one of as many compactions as the level has
    * files, wherever the pointer stood. */
  lemma EveryFileGetsItsTurn(files: Files, turns: seq<Turn>, f: Table)
    requires AllValid(files) && SortedFiles(files) && Turns(files, turns)
    requires f in files && |turns| >= |files|
    ensures exists k :: 0 <= k < |turns| && f in turns[k].upper
  {
    hide AllValid, SortedFiles, IsNext;
    var t := turns[0];
    assert TakesTurn(files, t.pointer, t.upper, t.next);
    var i: nat, x: nat, y: nat :| IsNext(files, t.pointer, i) && Segment(files, x, y, t.upper) && x <= i < y && t.next == files[y - 1].largest;
    var j :| 0 <= j < |files| && files[j] == f;
    assert i < |files| by { NextIsInside(files, t.pointer, i); }
    var k := ReachedWithin(files, turns, i, j);
  }

  lemma NextIsInside(files: Files, pointer: Option<InternalKey>, i: nat)
    requires IsNext(files, pointer, i)
    ensures i < |files|
  {
  }
}
