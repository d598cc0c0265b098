/** The user-facing iterator: a cursor over the map visible at one sequence number. */
module DbIter {
  import opened Keys
  import opened Merging

  predicate VisibleAt(m: seq<Entry>, s: nat, i: nat)
    requires i < |m|
  {
    m[i].key.seqno <= s
  }

  /** Entry `i` is what a reader at `s` sees of its user key: a value, and the newest version. */
  predicate Yields(m: seq<Entry>, s: nat, i: nat)
    requires i < |m|
  {
    && VisibleAt(m, s, i) && m[i].key.kind.Put?
    && forall j :: 0 <= j < i && m[j].key.user == m[i].key.user ==> !VisibleAt(m, s, j)
  }

  /** The yielding positions below `n`: the rows of the visible map, in key order. */
  function Rows(m: seq<Entry>, s: nat, n: nat): (rows: seq<nat>)
    requires n <= |m|
    ensures forall k :: 0 <= k < |rows| ==> rows[k] < n && Yields(m, s, rows[k])
  {
    if n == 0 then [] else Rows(m, s, n - 1) + (if Yields(m, s, n - 1) then [n - 1] else [])
  }

  lemma {:induction false} RowsAscend(m: seq<Entry>, s: nat, n: nat)
    requires n <= |m|
    ensures forall k, l :: 0 <= k < l < |Rows(m, s, n)| ==> Rows(m, s, n)[k] < Rows(m, s, n)[l]
  {
    if n > 0 {
      RowsAscend(m, s, n - 1);
    }
  }

  lemma {:induction false} RowsGrow(m: seq<Entry>, s: nat, a: nat, b: nat)
    requires a <= b <= |m|
    ensures Rows(m, s, a) <= Rows(m, s, b)
    ensures (forall i :: a <= i < b ==> !Yields(m, s, i)) ==> Rows(m, s, a) == Rows(m, s, b)
    decreases b - a
  {
    if a < b {
      RowsGrow(m, s, a, b - 1);
    }
  }

  /** A yielding position is the row that counts the rows before it. */
  lemma RowOf(m: seq<Entry>, s: nat, i: nat)
    requires i < |m| && Yields(m, s, i)
    ensures |Rows(m, s, i)| < |Rows(m, s, |m|)| && Rows(m, s, |m|)[|Rows(m, s, i)|] == i
  {
    RowsGrow(m, s, i + 1, |m|);
  }

  /** The rows below the k-th row are the k rows before it. */
  lemma RowsBefore(m: seq<Entry>, s: nat, k: nat)
    requires k < |Rows(m, s, |m|)|
    ensures |Rows(m, s, Rows(m, s, |m|)[k])| == k
  {
    RowsAscend(m, s, |m|);
    RowOf(m, s, Rows(m, s, |m|)[k]);
  }

  /** Rows are exactly what reads show: one per user key present, holding its value, ascending. */
  lemma RowsAreTheVisibleMap(m: seq<Entry>, s: nat)
    requires Sorted(m) && UniqueSequences(Elements(m))
    ensures var rows := Rows(m, s, |m|);
      && (forall k, l :: 0 <= k < l < |rows| ==> m[rows[k]].key.user < m[rows[l]].key.user)
      && (forall k :: 0 <= k < |rows| ==> Reads(Elements(m), m[rows[k]].key.user, s) == Some(m[rows[k]].value))
      && (forall u :: Reads(Elements(m), u, s).Some? ==> exists k :: 0 <= k < |rows| && m[rows[k]].key.user == u)
  {
    var rows := Rows(m, s, |m|);
    RowsAscend(m, s, |m|);
    forall k, l | 0 <= k < l < |rows|
      ensures m[rows[k]].key.user < m[rows[l]].key.user
    {
      assert m[rows[k]].key.Before(m[rows[l]].key);
    }
    forall k | 0 <= k < |rows|
      ensures Reads(Elements(m), m[rows[k]].key.user, s) == Some(m[rows[k]].value)
    {
      YieldIsNewest(m, s, rows[k]);
    }
    forall u | Reads(Elements(m), u, s).Some?
      ensures exists k :: 0 <= k < |rows| && m[rows[k]].key.user == u
    {
      var e := Newest(Elements(m), u, s).value;
      var i :| 0 <= i < |m| && m[i] == e;
      assert Yields(m, s, i) by {
        forall j | 0 <= j < i && m[j].key.user == u ensures !VisibleAt(m, s, j) {
          assert m[j] in Elements(m) && m[j].key.Before(m[i].key);
        }
      }
      RowOf(m, s, i);
    }
  }

  lemma YieldIsNewest(m: seq<Entry>, s: nat, i: nat)
    requires Sorted(m) && UniqueSequences(Elements(m)) && i < |m| && Yields(m, s, i)
    ensures Newest(Elements(m), m[i].key.user, s) == Some(m[i])
  {
    var u := m[i].key.user;
    forall x | x in Elements(m) && Visible(x, u, s)
      ensures x.key.seqno <= m[i].key.seqno
    {
      var j :| 0 <= j < |m| && m[j] == x;
      assert j >= i;
    }
    NewestIs(Elements(m), u, s, m[i]);
  }

  class DbIterator {
    const iter: MergingIterator
    const sequence: nat
    var direction: Direction
    var valid: bool
    var savedKey: Option<UserKey>
    var savedValue: Value
    /** The row the iterator stands at; -1 when it is invalid. */
    ghost var row: int

    ghost function M(): seq<Entry> { iter.merged }

    ghost function AllRows(): seq<nat> { Rows(iter.merged, sequence, |iter.merged|) }

    /** The class invariant. Forward, the inner iterator stands at the row's entry. In reverse
      * the row is saved, and the inner iterator stands before every visible entry of its key. */
    ghost predicate Ok()
      reads this, iter, iter.children
    {
      && iter.Ok()
      && (valid <==> row != -1)
      && (valid ==>
            && 0 <= row < |AllRows()|
            && var y := AllRows()[row];
               if direction.Forward? then
                 iter.at == y
               else
                 SavedIs(y) && Before(M(), sequence, iter.at, y))
    }

    constructor (iter: MergingIterator, sequence: nat)
      requires iter.Ok()
      ensures Ok() && row == -1 && this.iter == iter && this.sequence == sequence
    {
      this.iter := iter;
      this.sequence := sequence;
      direction := Forward;
      valid := false;
      savedKey := None;
      savedValue := [];
      row := -1;
    }

    function Key(): UserKey
      requires Ok() && valid
      reads this, iter, iter.children
    {
      if direction.Forward? then iter.Key().user else savedKey.value
    }

    function Val(): Value
      requires Ok() && valid
      reads this, iter, iter.children
    {
      if direction.Forward? then iter.Value() else savedValue
    }

    /** Key and value are the row's, in either direction. */
    lemma KeyAndValue()
      requires Ok() && valid
      ensures Key() == M()[AllRows()[row]].key.user && Val() == M()[AllRows()[row]].value
    {
    }

    /** Moves forward from where the inner iterator stands to the first row `skip0` does not hide. */
    method FindNextUserEntry(skipping0: bool, skip0: UserKey)
      requires iter.Ok() && iter.Valid() && direction.Forward?
      requires MayScan(M(), sequence, iter.at, Skip(skipping0, skip0))
      modifies this`valid, this`savedKey, iter, iter.children
      ensures iter.Ok() && direction.Forward? && (valid ==> old(iter.at) <= iter.at < |M()|)
      ensures FoundNext(M(), sequence, old(iter.at), Skip(skipping0, skip0), if valid then iter.at else |M()|)
    {
      hide MergingIterator.Ok, MayScan, Scanned, FoundNext, Yields;
      var skipping, skip := skipping0, skip0;
      ghost var first, p, i := Skip(skipping0, skip0), iter.at, iter.at;
      StillSorted();
      ScanStarts(M(), sequence, p, first);
      valid := false;
      while iter.Valid()
        invariant iter.Ok() && direction.Forward? && !valid
        invariant p <= i <= |M()| && iter.at == (if i < |M()| then i else -1)
        invariant Scanned(M(), sequence, p, i, first, Skip(skipping, skip))
        decreases |M()| - i
      {
        var key := iter.Key();
        AtKey();
        if key.seqno <= sequence {
          if key.kind.Deletion? {
            // hides the older entries of this key
            ScanTombstone(M(), sequence, p, i, first, Skip(skipping, skip));
            skip := key.user;
            skipping := true;
          } else if skipping && key.user <= skip {
            // hidden
            ScanHidden(M(), sequence, p, i, first, Skip(skipping, skip));
          } else {
            ScanFound(M(), sequence, p, i, first, Skip(skipping, skip));
            valid := true;
            savedKey := None;
            return;
          }
        } else {
          ScanInvisible(M(), sequence, p, i, first, Skip(skipping, skip));
        }
        iter.Next();
        i := i + 1;
      }
      StillSorted();
      ScanEnds(M(), sequence, p, first, Skip(skipping, skip));
      savedKey := None;
      valid := false;
    }

    /** Moves backward from where the inner iterator stands to the last row not after it, and
      * saves that row. */
    method FindPrevUserEntry() returns (ghost found: int)
      requires iter.Ok() && direction.Reverse?
      modifies this`valid, this`savedKey, this`savedValue, this`direction, iter, iter.children
      ensures iter.Ok() && (valid <==> found != -1) && (valid ==> direction.Reverse?)
      ensures FoundPrev(M(), sequence, old(iter.at), found)
      ensures valid ==> Before(M(), sequence, iter.at, found) && SavedIs(found)
    {
      hide MergingIterator.Ok, BackScanned, FoundPrev, Before, Yields, SavedIs;
      var kind := Deletion;
      found := -1;
      ghost var p, i := iter.at, iter.at;
      StillSorted();
      BackScanStarts(M(), sequence, p);
      while iter.Valid()
        invariant iter.Ok() && direction.Reverse? && -1 <= i <= p < |M()| && iter.at == i
        invariant BackScanned(M(), sequence, p, i, found)
        invariant kind.Put? <==> found != -1
        invariant kind.Put? ==> SavedIs(found)
        decreases i
      {
        var key := iter.Key();
        AtKey();
        if key.seqno <= sequence {
          if kind.Put? {
            SavedFacts(found);
            BackScanFacts(M(), sequence, p, i, found);
            if key.user < savedKey.value {
              // the entries of the saved key are behind
              break;
            }
          }
          BackScanVisible(M(), sequence, p, i, found);
          kind := key.kind;
          if kind.Deletion? {
            savedKey := None;
            savedValue := [];
            found := -1;
          } else {
            savedKey := Some(key.user);
            savedValue := iter.Value();
            found := i;
            NowSaved(found);
          }
        } else {
          BackScanInvisible(M(), sequence, p, i, found);
        }
        iter.Prev();
        i := i - 1;
      }
      StillSorted();
      BackScanEnds(M(), sequence, p, i, found);
      if kind.Deletion? {
        valid := false;
        savedKey := None;
        savedValue := [];
        direction := Forward;
      } else {
        valid := true;
      }
    }

    // ------------------------------------------------------------ public operations

    /** Row `y` is where the last forward scan stopped. */
    lemma RowAfterNext(p: nat, skip: Skip, lo: nat, y: nat)
      requires FoundNext(M(), sequence, p, skip, y)
      requires lo <= y && forall j :: lo <= j < y && !(p <= j) ==> !Yields(M(), sequence, j)
      requires forall j :: lo <= j < y && skip.Hides(M()[j].key.user) ==> !Yields(M(), sequence, j)
      ensures |Rows(M(), sequence, y)| == |Rows(M(), sequence, lo)|
      ensures y < |M()| ==> |Rows(M(), sequence, y)| < |AllRows()| && AllRows()[|Rows(M(), sequence, y)|] == y
    {
      RowsGrow(M(), sequence, lo, y);
      if y < |M()| {
        RowOf(M(), sequence, y);
      }
    }

    method SeekToFirst()
      requires Ok()
      modifies this, iter, iter.children
      ensures Ok() && row == if |AllRows()| == 0 then -1 else 0
    {
      direction := Forward;
      savedValue := [];
      iter.SeekToFirst();
      if iter.Valid() {
        FindNextUserEntry(false, 0.0);
        ghost var y: nat := if valid then iter.at else |M()|;
        RowAfterNext(0, Skip(false, 0.0), 0, y);
      } else {
        valid := false;
      }
      row := if valid then 0 else -1;
    }

    method SeekToLast()
      requires Ok()
      modifies this, iter, iter.children
      ensures Ok() && row == |AllRows()| - 1
    {
      hide MergingIterator.Ok, Yields, FoundPrev, Before, SavedIs, Rows;
      direction := Reverse;
      savedValue := [];
      iter.SeekToLast();
      StillSorted();
      ghost var y := FindPrevUserEntry();
      LastRow(M(), sequence, y);
      row := |AllRows()| - 1;
    }

    /** Lands on the first row at or after `target`. */
    method Seek(target: UserKey)
      requires Ok()
      modifies this, iter, iter.children
      ensures Ok()
      ensures row != -1 ==> M()[AllRows()[row]].key.user >= target
      ensures forall k :: 0 <= k < (if row != -1 then row else |AllRows()|) ==> M()[AllRows()[k]].key.user < target
    {
      hide MergingIterator.Ok, MayScan, Yields, FoundNext, SeekIndex;
      direction := Forward;
      savedValue := [];
      ghost var p := SeekIndex(M(), SeekKey(target, sequence));
      iter.Seek(SeekKey(target, sequence));
      StillSorted();
      SeekMayScan(target);
      ghost var y := |M()|;
      if iter.Valid() {
        FindNextUserEntry(false, 0.0);
        y := if valid then iter.at else |M()|;
      } else {
        valid := false;
        RowsGrow(M(), sequence, p, y);
      }
      StillSorted();
      RowAfterNext(p, Skip(false, 0.0), p, y);
      row := if valid then |Rows(M(), sequence, y)| else -1;
      RowsGrow(M(), sequence, p, |M()|);
    }

    lemma SeekMayScan(target: UserKey)
      requires iter.Ok()
      ensures var p := SeekIndex(M(), SeekKey(target, sequence));
        && MayScan(M(), sequence, p, Skip(false, 0.0))
        && (forall j :: p <= j < |M()| ==> M()[j].key.user >= target)
        && (forall j :: 0 <= j < p && Yields(M(), sequence, j) ==> M()[j].key.user < target)
        && FoundNext(M(), sequence, |M()|, Skip(false, 0.0), |M()|)
    {
      UsersAscend(M());
    }

    /** The first half of Next: leave reverse, or note the key to skip. */
    method StepForward() returns (skip: UserKey)
      requires Ok() && valid
      modifies this`direction, iter, iter.children
      ensures iter.Ok() && iter.Valid() && direction.Forward?
      ensures skip == M()[AllRows()[row]].key.user
      ensures iter.at <= AllRows()[row] && MayScan(M(), sequence, iter.at, Skip(true, skip))
    {
      hide MergingIterator.Ok, MayScan, Yields;
      ghost var y := AllRows()[row];
      StillSorted();
      if direction.Reverse? {
        NextMayScan(y, iter.at + 1);
        direction := Forward;
        skip := savedKey.value;
        // the entries of the saved key lie ahead, so there is a next one
        if !iter.Valid() {
          iter.SeekToFirst();
        } else {
          iter.Next();
        }
      } else {
        NextMayScan(y, y);
        AtKey();
        skip := iter.Key().user;
      }
      StillSorted();
    }

    method Next()
      requires Ok() && valid
      modifies this, iter, iter.children
      ensures Ok() && row == if old(row) + 1 < |AllRows()| then old(row) + 1 else -1
    {
      hide MergingIterator.Ok, MayScan, Yields, FoundNext, Before, SavedIs, Rows;
      ghost var y := AllRows()[row];
      RowsBefore(M(), sequence, row);
      var skip := StepForward();
      StillSorted();
      savedKey := Some(skip);
      ghost var p := iter.at;
      FindNextUserEntry(true, skip);
      StillSorted();
      ghost var y': nat := if valid then iter.at else |M()|;
      NextRow(y, p, Skip(true, skip), y');
      RowsGrow(M(), sequence, y', |M()|);
      row := if valid then row + 1 else -1;
    }

    lemma NextMayScan(y: nat, p: int)
      requires iter.Ok() && y < |M()| && Yields(M(), sequence, y)
      requires p == y || Before(M(), sequence, p - 1, y)
      ensures MayScan(M(), sequence, p, Skip(true, M()[y].key.user))
    {
      UsersAscend(M());
    }

    lemma NextRow(y: nat, p: nat, skip: Skip, y': nat)
      requires iter.Ok() && y < |M()| && Yields(M(), sequence, y) && skip == Skip(true, M()[y].key.user)
      requires p <= y && FoundNext(M(), sequence, p, skip, y')
      ensures |Rows(M(), sequence, y')| == |Rows(M(), sequence, y)| + 1
      ensures y' < |M()| ==> |Rows(M(), sequence, y')| < |AllRows()| && AllRows()[|Rows(M(), sequence, y')|] == y'
    {
      UsersAscend(M());
      assert y' > y;
      RowAfterNext(p, skip, y + 1, y');
    }

    /** Scans backward past every entry of the current key; false when there is nothing before. */
    method StepReverse() returns (more: bool)
      requires Ok() && valid && direction.Forward?
      modifies this`direction, this`savedKey, iter, iter.children
      ensures iter.Ok() && (more <==> iter.at != -1) && (more ==> direction.Reverse?)
      ensures -1 <= iter.at < AllRows()[row] && forall j :: iter.at < j < AllRows()[row] ==> !Yields(M(), sequence, j)
    {
      hide MergingIterator.Ok, Yields, Rows, Before, SavedIs;
      ghost var y := AllRows()[row];
      StillSorted();
      AtKey();
      var key := iter.Key().user;
      savedKey := Some(key);
      while true
        invariant iter.Ok() && iter.Valid() && 0 <= iter.at <= y < |M()|
        invariant forall j :: iter.at <= j <= y ==> M()[j].key.user == key
        decreases iter.at
      {
        SameKeyYieldsOnce(iter.at - 1, y);
        iter.Prev();
        StillSorted();
        if !iter.Valid() {
          return false;
        }
        AtKey();
        if iter.Key().user < key {
          break;
        }
        UsersAscend(M());
      }
      direction := Reverse;
      return true;
    }

    method Prev()
      requires Ok() && valid
      modifies this, iter, iter.children
      ensures Ok() && row == old(row) - 1
    {
      hide MergingIterator.Ok, Yields, FoundPrev, Before, SavedIs, Rows;
      ghost var y := AllRows()[row];
      RowsBefore(M(), sequence, row);
      BeforeMeansNone(iter.at, y);
      var more := true;
      if direction.Forward? {
        more := StepReverse();
      }
      ghost var p := iter.at;
      if more {
        ghost var y' := FindPrevUserEntry();
        PrevRow(y, p, y');
        row := row - 1;
      } else {
        valid := false;
        savedKey := None;
        savedValue := [];
        PrevRow(y, p, -1);
        row := -1;
      }
    }

    /** Of the entries of one key, only the newest visible one yields. */
    lemma SameKeyYieldsOnce(p: int, y: nat)
      requires -1 <= p < y < |M()| && Yields(M(), sequence, y)
      requires forall j :: p < j <= y ==> M()[j].key.user == M()[y].key.user
      ensures forall j :: p < j < y ==> !Yields(M(), sequence, j)
    {
    }

    lemma BeforeMeansNone(p: int, y: nat)
      ensures Before(M(), sequence, p, y) ==> -1 <= p < y < |M()| && forall j :: p < j < y ==> !Yields(M(), sequence, j)
    {
    }

    lemma PrevRow(y: nat, p: int, y': int)
      requires -1 <= p < y < |M()| && forall j :: p < j < y ==> !Yields(M(), sequence, j)
      requires FoundPrev(M(), sequence, p, y')
      ensures |Rows(M(), sequence, y)| == if y' == -1 then 0 else |Rows(M(), sequence, y')| + 1
      ensures y' != -1 ==> |Rows(M(), sequence, y')| < |AllRows()| && AllRows()[|Rows(M(), sequence, y')|] == y'
    {
      RowsGrow(M(), sequence, (y' + 1) as nat, y);
      if y' != -1 {
        RowOf(M(), sequence, y');
      }
    }

    ghost predicate SavedIs(y: int)
      reads this`savedKey, this`savedValue
    {
      0 <= y < |M()| && savedKey == Some(M()[y].key.user) && savedValue == M()[y].value
    }

    lemma StillSorted()
      requires iter.Ok()
      ensures Sorted(M()) && -1 <= iter.at < |M()| && (iter.Valid() <==> iter.at != -1)
    {
    }

    lemma SavedFacts(y: int)
      requires SavedIs(y)
      ensures 0 <= y < |M()| && savedKey == Some(M()[y].key.user)
    {
    }

    lemma NowSaved(y: int)
      requires 0 <= y < |M()| && savedKey == Some(M()[y].key.user) && savedValue == M()[y].value
      ensures SavedIs(y)
    {
    }

    lemma AtKey()
      requires iter.Ok() && iter.Valid()
      ensures 0 <= iter.at < |M()| && iter.Key() == M()[iter.at].key && iter.Value() == M()[iter.at].value
    {
    }
  }

  // ---------------------------------------------------------------- scanning backward

  /** Standing before every visible entry of the key of row `y`. */
  ghost predicate Before(m: seq<Entry>, s: nat, p: int, y: int) {
    && -1 <= p < y < |m|
    && (p >= 0 ==> m[p].key.user < m[y].key.user)
    && forall j :: p < j < y ==> !VisibleAt(m, s, j)
  }

  /** `y` is the last yielding position not after `p`, or -1. */
  ghost predicate FoundPrev(m: seq<Entry>, s: nat, p: int, y: int) {
    && -1 <= y <= p < |m|
    && (y >= 0 ==> Yields(m, s, y))
    && forall j :: y < j <= p ==> !Yields(m, s, j)
  }

  /** The last yielding position is the last row. */
  lemma LastRow(m: seq<Entry>, s: nat, y: int)
    requires FoundPrev(m, s, |m| - 1, y)
    ensures y == if |Rows(m, s, |m|)| == 0 then -1 else Rows(m, s, |m|)[|Rows(m, s, |m|)| - 1]
  {
    RowsGrow(m, s, (y + 1) as nat, |m|);
  }

  /** Positions above `i` are scanned; `c` is the visible value seen last, or -1. */
  ghost predicate BackScanned(m: seq<Entry>, s: nat, p: int, i: int, c: int) {
    && -1 <= i <= p < |m|
    && (c != -1 ==> i < c <= p && VisibleAt(m, s, c) && m[c].key.kind.Put? && forall j :: i < j < c ==> !VisibleAt(m, s, j))
    && forall j :: i < j <= p && j != c ==> !Yields(m, s, j)
  }

  lemma BackScanStarts(m: seq<Entry>, s: nat, p: int)
    requires -1 <= p < |m|
    ensures BackScanned(m, s, p, p, -1)
  {
  }

  lemma BackScanFacts(m: seq<Entry>, s: nat, p: int, i: int, c: int)
    requires BackScanned(m, s, p, i, c) && c != -1
    ensures i < c <= p
  {
  }

  lemma BackScanInvisible(m: seq<Entry>, s: nat, p: int, i: int, c: int)
    requires BackScanned(m, s, p, i, c) && i >= 0 && !VisibleAt(m, s, i)
    ensures BackScanned(m, s, p, i - 1, c)
  {
  }

  /** A visible entry of the same key, or any visible entry when nothing is saved, takes over. */
  lemma BackScanVisible(m: seq<Entry>, s: nat, p: int, i: int, c: int)
    requires BackScanned(m, s, p, i, c) && i >= 0 && VisibleAt(m, s, i)
    requires Sorted(m) && (c != -1 ==> m[i].key.user >= m[c].key.user)
    ensures BackScanned(m, s, p, i - 1, if m[i].key.kind.Put? then i else -1)
  {
    UsersAscend(m);
  }

  lemma BackScanEnds(m: seq<Entry>, s: nat, p: int, i: int, c: int)
    requires BackScanned(m, s, p, i, c) && Sorted(m)
    requires i == -1 || (c != -1 && m[i].key.user < m[c].key.user)
    ensures FoundPrev(m, s, p, c)
    ensures c != -1 ==> Before(m, s, i, c)
  {
    UsersAscend(m);
  }

  // ---------------------------------------------------------------- scanning forward

  /** The key whose remaining entries, and everything before them, a forward scan passes over. */
  datatype Skip = Skip(on: bool, key: UserKey) {
    predicate Hides(u: UserKey) {
      on && u <= key
    }
  }

  /** A scan may start at `p` when no visible entry from there lies before the skipped key, and
    * entries of a key that has visible ones before `p` are skipped. */
  ghost predicate MayScan(m: seq<Entry>, s: nat, p: nat, first: Skip) {
    && p <= |m|
    && (first.on ==> forall j :: p <= j < |m| && VisibleAt(m, s, j) ==> m[j].key.user >= first.key)
    && (forall j, k :: 0 <= j < p <= k < |m| && m[j].key.user == m[k].key.user && VisibleAt(m, s, j) ==> first.Hides(m[k].key.user))
  }

  ghost predicate FoundNext(m: seq<Entry>, s: nat, p: nat, first: Skip, i: nat) {
    && p <= i <= |m|
    && (i < |m| ==> Yields(m, s, i) && !first.Hides(m[i].key.user))
    && (forall j :: p <= j < i ==> !Yields(m, s, j) || first.Hides(m[j].key.user))
  }

  ghost predicate Scanned(m: seq<Entry>, s: nat, p: nat, i: nat, first: Skip, now: Skip) {
    && p <= i <= |m|
    && (first.on ==> now.on && forall j :: p <= j < |m| && VisibleAt(m, s, j) ==> m[j].key.user >= first.key)
    && (forall j :: p <= j < i ==> !Yields(m, s, j) || first.Hides(m[j].key.user))
    && (now.on ==> now == first || PassedVisible(m, s, p, i, now.key))
    && (forall j, k :: 0 <= j < i <= k < |m| && m[j].key.user == m[k].key.user && VisibleAt(m, s, j) ==> now.Hides(m[k].key.user))
  }

  ghost predicate PassedVisible(m: seq<Entry>, s: nat, p: nat, i: nat, u: UserKey)
    requires i <= |m|
  {
    exists j :: p <= j < i && m[j].key.user == u && VisibleAt(m, s, j)
  }

  lemma ScanStarts(m: seq<Entry>, s: nat, p: nat, first: Skip)
    requires MayScan(m, s, p, first)
    ensures Scanned(m, s, p, p, first, first)
  {
  }

  lemma UsersAscend(m: seq<Entry>)
    requires Sorted(m)
    ensures forall j, k :: 0 <= j <= k < |m| ==> m[j].key.user <= m[k].key.user
  {
    forall j, k | 0 <= j <= k < |m| ensures m[j].key.user <= m[k].key.user {
      assert j < k ==> m[j].key.Before(m[k].key);
    }
  }

  lemma ScanInvisible(m: seq<Entry>, s: nat, p: nat, i: nat, first: Skip, now: Skip)
    requires Scanned(m, s, p, i, first, now) && i < |m| && !VisibleAt(m, s, i)
    ensures Scanned(m, s, p, i + 1, first, now)
  {
    assert now.on && now != first ==> PassedVisible(m, s, p, i + 1, now.key);
  }

  lemma ScanTombstone(m: seq<Entry>, s: nat, p: nat, i: nat, first: Skip, now: Skip)
    requires Sorted(m) && Scanned(m, s, p, i, first, now) && i < |m| && VisibleAt(m, s, i) && m[i].key.kind.Deletion?
    ensures Scanned(m, s, p, i + 1, first, Skip(true, m[i].key.user))
  {
    UsersAscend(m);
    assert PassedVisible(m, s, p, i + 1, m[i].key.user);
  }

  lemma ScanHidden(m: seq<Entry>, s: nat, p: nat, i: nat, first: Skip, now: Skip)
    requires Sorted(m) && Scanned(m, s, p, i, first, now) && i < |m| && VisibleAt(m, s, i) && now.Hides(m[i].key.user)
    ensures Scanned(m, s, p, i + 1, first, now)
  {
    UsersAscend(m);
    if now != first {
      var j :| p <= j < i && m[j].key.user == now.key && VisibleAt(m, s, j);
      assert PassedVisible(m, s, p, i + 1, now.key);
    }
  }

  lemma ScanFound(m: seq<Entry>, s: nat, p: nat, i: nat, first: Skip, now: Skip)
    requires Sorted(m) && Scanned(m, s, p, i, first, now) && i < |m| && VisibleAt(m, s, i) && m[i].key.kind.Put?
    requires !now.Hides(m[i].key.user)
    ensures FoundNext(m, s, p, first, i)
  {
    if now.on && now != first {
      var j :| p <= j < i && m[j].key.user == now.key && VisibleAt(m, s, j);
    }
  }

  lemma ScanEnds(m: seq<Entry>, s: nat, p: nat, first: Skip, now: Skip)
    requires Scanned(m, s, p, |m|, first, now)
    ensures FoundNext(m, s, p, first, |m|)
  {
  }
}
