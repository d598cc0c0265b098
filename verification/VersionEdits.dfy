/** Version edits: applying them one at a time, or accumulating them and saving once. */
module VersionEdits {
  import opened Layers
  import opened Compaction

  /** The file changes of one descriptor record; each carries its level. */
  datatype Edit = Edit(deleted: set<(nat, nat)>, added: seq<(nat, Table)>)

  /** Changes to one level not yet applied: numbers to drop, tables to add. */
  datatype Pending = Pending(deleted: set<nat>, added: set<Table>)

  const NOTHING := Pending({}, {})

  function AddAll(p: Pending, l: nat, added: seq<(nat, Table)>): Pending {
    if added == [] then p else
      var (k, t) := added[|added| - 1];
      var q := AddAll(p, l, added[..|added| - 1]);
      if k == l then Pending(q.deleted - {t.number}, q.added + {t}) else q
  }

  function DeletedAt(e: Edit, l: nat): set<nat> {
    set d | d in e.deleted && d.0 == l :: d.1
  }

  function AddedAt(e: Edit, l: nat): set<Table> {
    set a | a in e.added && a.0 == l :: a.1
  }

  function Numbers(tables: set<Table>): set<nat> {
    set t | t in tables :: t.number
  }

  /** Deletions first, then additions, which cancel a pending deletion of the same number. */
  function Accumulate(p: Pending, l: nat, e: Edit): Pending {
    AddAll(Started(p, l, e), l, e.added)
  }

  function Started(p: Pending, l: nat, e: Edit): Pending {
    Pending(p.deleted + DeletedAt(e, l), p.added)
  }

  function Saved(base: set<Table>, p: Pending): set<Table> {
    set t | t in base + p.added && t.number !in p.deleted
  }

  /** Applying one edit and saving at once. */
  function ApplyEdit(tables: set<Table>, l: nat, e: Edit): set<Table> {
    Saved(tables, Accumulate(NOTHING, l, e))
  }

  lemma {:induction false} AddAllIs(p: Pending, l: nat, added: seq<(nat, Table)>)
    ensures AddAll(p, l, added).added == p.added + (set a | a in added && a.0 == l :: a.1)
    ensures AddAll(p, l, added).deleted == p.deleted - Numbers(set a | a in added && a.0 == l :: a.1)
  {
    if added != [] {
      var n := |added| - 1;
      AddAllIs(p, l, added[..n]);
      assert added == added[..n] + [added[n]];
      var before := set a | a in added[..n] && a.0 == l :: a.1;
      var after := set a | a in added && a.0 == l :: a.1;
      assert after == before + (if added[n].0 == l then {added[n].1} else {});
      assert Numbers(after) == Numbers(before) + (if added[n].0 == l then {added[n].1.number} else {});
    }
  }

  /** An edit re-adds a number that an earlier one deleted while its old table is still known. */
  ghost predicate Readds(base: set<Table>, p: Pending, l: nat, e: Edit) {
    exists t :: t in base + p.added && t.number in p.deleted && t.number in Numbers(AddedAt(e, l)) && t !in AddedAt(e, l)
  }

  /** Accumulating an edit agrees with saving before it, if and only if it re-adds nothing. */
  lemma AccumulateAgrees(base: set<Table>, p: Pending, l: nat, e: Edit)
    ensures Saved(base, Accumulate(p, l, e)) == ApplyEdit(Saved(base, p), l, e) <==> !Readds(base, p, l, e)
  {
    AddAllIs(Started(p, l, e), l, e.added);
    AddAllIs(Started(NOTHING, l, e), l, e.added);
    var one, two := Saved(base, Accumulate(p, l, e)), ApplyEdit(Saved(base, p), l, e);
    if t :| t in base + p.added && t.number in p.deleted && t.number in Numbers(AddedAt(e, l)) && t !in AddedAt(e, l) {
      assert t in one && t !in two;
    } else {
      assert forall t :: t in one <==> t in two;
    }
  }

  function AccumulateAll(p: Pending, l: nat, edits: seq<Edit>): Pending {
    if edits == [] then p else Accumulate(AccumulateAll(p, l, edits[..|edits| - 1]), l, edits[|edits| - 1])
  }

  function ApplyEdits(tables: set<Table>, l: nat, edits: seq<Edit>): set<Table> {
    if edits == [] then tables else ApplyEdit(ApplyEdits(tables, l, edits[..|edits| - 1]), l, edits[|edits| - 1])
  }

  /** No number is added to a level where an earlier edit deleted it. */
  ghost predicate NeverReadds(base: set<Table>, l: nat, edits: seq<Edit>) {
    forall k :: 0 <= k < |edits| ==> !Readds(base, AccumulateAll(NOTHING, l, edits[..k]), l, edits[k])
  }

  /** Replaying a descriptor through one builder gives the version that was live when its last
    * record was written. */
  lemma {:induction false} ReplayAgreesWithLiveVersion(base: set<Table>, l: nat, edits: seq<Edit>)
    requires NeverReadds(base, l, edits)
    ensures Saved(base, AccumulateAll(NOTHING, l, edits)) == ApplyEdits(base, l, edits)
  {
    if edits == [] {
      assert Saved(base, NOTHING) == base;
    } else {
      var n := |edits| - 1;
      assert NeverReadds(base, l, edits[..n]) by {
        forall k | 0 <= k < n ensures !Readds(base, AccumulateAll(NOTHING, l, edits[..n][..k]), l, edits[..n][k]) {
          assert edits[..n][..k] == edits[..k];
          assert !Readds(base, AccumulateAll(NOTHING, l, edits[..k]), l, edits[k]);
        }
      }
      ReplayAgreesWithLiveVersion(base, l, edits[..n]);
      AccumulateAgrees(base, AccumulateAll(NOTHING, l, edits[..n]), l, edits[n]);
    }
  }

  /** When none of the added numbers is in use, an edit is plain removal and addition. */
  lemma ApplyEditIs(tables: set<Table>, l: nat, e: Edit)
    requires forall t :: t in tables ==> t.number !in Numbers(AddedAt(e, l))
    ensures ApplyEdit(tables, l, e) == (set t | t in tables && t.number !in DeletedAt(e, l)) + AddedAt(e, l)
  {
    AddAllIs(Started(NOTHING, l, e), l, e.added);
  }

  // ---------------------------------------------------------------- the edits the engine logs

  function AddedFiles(l: nat, files: Files): Edit {
    Edit({}, seq(|files|, k requires 0 <= k < |files| => (l, files[k])))
  }

  lemma AddedFilesAt(l: nat, files: Files, k: nat)
    ensures AddedAt(AddedFiles(l, files), k) == if k == l then SetOf(files) else {}
    ensures DeletedAt(AddedFiles(l, files), k) == {}
  {
    var e := AddedFiles(l, files);
    forall t | t in files ensures (l, t) in e.added {
      var i :| 0 <= i < |files| && files[i] == t;
      assert e.added[i] == (l, t);
    }
  }

  function CompactionEdit(level: nat, upper: set<Table>, lower: set<Table>, outs: Files): Edit {
    Edit((set f | f in upper :: (level, f.number)) + (set f | f in lower :: (level + 1, f.number)),
         AddedFiles(level + 1, outs).added)
  }

  lemma CompactionEditAt(level: nat, upper: set<Table>, lower: set<Table>, outs: Files, l: nat)
    ensures AddedAt(CompactionEdit(level, upper, lower, outs), l) == if l == level + 1 then SetOf(outs) else {}
    ensures DeletedAt(CompactionEdit(level, upper, lower, outs), l)
      == if l == level then Numbers(upper) else if l == level + 1 then Numbers(lower) else {}
  {
    var e := CompactionEdit(level, upper, lower, outs);
    AddedFilesAt(level + 1, outs, l);
    assert AddedAt(e, l) == AddedAt(AddedFiles(level + 1, outs), l);
    forall f | f in upper ensures (level, f.number) in e.deleted {}
    forall f | f in lower ensures (level + 1, f.number) in e.deleted {}
  }

  lemma DroppingNumbers(tables: set<Table>, gone: set<Table>)
    requires gone <= tables && forall f, g :: f in tables && g in tables && f.number == g.number ==> f == g
    ensures (set t | t in tables && t.number !in Numbers(gone)) == tables - gone
  {
  }

  lemma LevelNumbersUnique(levels: seq<set<Table>>, l: nat)
    requires NumbersUnique(levels) && l < |levels|
    ensures forall f, g :: f in levels[l] && g in levels[l] && f.number == g.number ==> f == g
  {
  }

  /** What a version's levels become when an edit is applied and saved. */
  function Edited(levels: seq<set<Table>>, e: Edit): seq<set<Table>> {
    seq(|levels|, l requires 0 <= l < |levels| => ApplyEdit(levels[l], l, e))
  }

  lemma EditedByNothing(levels: seq<set<Table>>)
    ensures Edited(levels, Edit({}, [])) == levels
  {
    forall l | 0 <= l < |levels| ensures Edited(levels, Edit({}, []))[l] == levels[l] {
      ApplyEditIs(levels[l], l, Edit({}, []));
    }
  }

  /** Logging a flushed table adds it. */
  lemma EditedByFlush(levels: seq<set<Table>>, l: nat, t: Table)
    requires l < |levels| && forall k, f :: 0 <= k < |levels| && f in levels[k] ==> f.number < t.number
    ensures Edited(levels, AddedFiles(l, [t])) == AddTo(levels, l, t)
  {
    hide ApplyEdit, AddedFiles;
    assert SetOf([t]) == {t};
    forall k | 0 <= k < |levels|
      ensures Edited(levels, AddedFiles(l, [t]))[k] == AddTo(levels, l, t)[k]
    {
      AddedFilesAt(l, [t], k);
      ApplyEditIs(levels[k], k, AddedFiles(l, [t]));
    }
  }

  /** Logging a compaction replaces its inputs by its outputs. */
  lemma EditedByCompaction(levels: seq<set<Table>>, j: Job, outs: Files)
    requires |levels| == NUM_LEVELS && NumbersUnique(levels) && Selected(levels, j)
    requires forall f, t :: f in levels[j.level + 1] && t in outs ==> f.number != t.number
    ensures Edited(levels, CompactionEdit(j.level, j.upper, j.lower, outs)) == Compacted(levels, j, SetOf(outs))
  {
    hide ApplyEdit, CompactionEdit, NumbersUnique;
    var e := CompactionEdit(j.level, j.upper, j.lower, outs);
    forall k | 0 <= k < |levels|
      ensures Edited(levels, e)[k] == Compacted(levels, j, SetOf(outs))[k]
    {
      CompactionEditAt(j.level, j.upper, j.lower, outs, k);
      LevelNumbersUnique(levels, k);
      ApplyEditIs(levels[k], k, e);
      DroppingNumbers(levels[k], if k == j.level then j.upper else if k == j.level + 1 then j.lower else {});
    }
  }

  /** Recovery adds the tables it writes to level 0. */
  function WithRecovered(levels: seq<set<Table>>, recovered: Files): seq<set<Table>>
    requires |levels| == NUM_LEVELS
  {
    levels[0 := levels[0] + SetOf(recovered)]
  }

  lemma EditedByRecovery(levels: seq<set<Table>>, recovered: Files)
    requires |levels| == NUM_LEVELS && forall f, t :: f in levels[0] && t in recovered ==> f.number != t.number
    ensures Edited(levels, AddedFiles(0, recovered)) == WithRecovered(levels, recovered)
  {
    hide ApplyEdit, AddedFiles;
    forall k | 0 <= k < |levels|
      ensures Edited(levels, AddedFiles(0, recovered))[k] == WithRecovered(levels, recovered)[k]
    {
      AddedFilesAt(0, recovered, k);
      ApplyEditIs(levels[k], k, AddedFiles(0, recovered));
    }
  }
}
