/** The builder that turns a base version and edits into a new version. */
module VersionBuilder {
  import opened Layers
  import opened VersionEdits

  // ---------------------------------------------------------------- the builder

  /** The order of files in a level: by smallest key, then by number. */
  predicate Less(f: Table, g: Table) {
    f.smallest.Before(g.smallest) || (!g.smallest.Before(f.smallest) && f.number < g.number)
  }

  ghost predicate Ascending(files: Files) {
    forall i, j :: 0 <= i < j < |files| ==> Less(files[i], files[j])
  }

  /** A file number names one file. */
  ghost predicate SameFileSameNumber(files: Files, e: Edit) {
    && (forall f, a :: f in files && a in e.added && f.number == a.1.number ==> f == a.1)
    && (forall a, b :: a in e.added && b in e.added && a.1.number == b.1.number ==> a.1 == b.1)
  }

  lemma InsertedSame(files: Files, e: Edit, i: nat, r: Files)
    requires SameFileSameNumber(files, e) && i < |e.added| && SetOf(r) == SetOf(files) + {e.added[i].1}
    ensures SameFileSameNumber(r, e)
  {
    forall f, a | f in r && a in e.added && f.number == a.1.number
      ensures f == a.1
    {
      assert f in SetOf(r);
      assert e.added[i] in e.added;
    }
  }

  lemma OnlyThatFile(files: Files, e: Edit, i: nat)
    requires SameFileSameNumber(files, e) && i < |e.added|
    ensures forall f :: f in files && f.number == e.added[i].1.number ==> f == e.added[i].1
  {
    assert e.added[i] in e.added;
  }

  class Builder {
    const base: seq<Files>
    var deleted: seq<set<nat>>
    var added: seq<Files>

    ghost predicate Ok()
      reads this
    {
      && |base| == |deleted| == |added| == NUM_LEVELS
      && (forall l :: 0 <= l < NUM_LEVELS ==> Ascending(base[l]))
      && (forall l :: 0 <= l < NUM_LEVELS ==> Ascending(added[l]))
    }

    ghost function At(l: nat): Pending
      requires l < |deleted| && l < |added|
      reads this
    {
      Pending(deleted[l], SetOf(added[l]))
    }

    constructor (base: seq<Files>)
      requires |base| == NUM_LEVELS && forall l :: 0 <= l < NUM_LEVELS ==> Ascending(base[l])
      ensures Ok() && this.base == base && forall l :: 0 <= l < NUM_LEVELS ==> added[l] == [] && At(l) == NOTHING
    {
      this.base := base;
      deleted := seq(NUM_LEVELS, _ => {});
      added := seq(NUM_LEVELS, _ => []);
    }

    method Apply(e: Edit)
      requires Ok()
      requires forall d :: d in e.deleted ==> d.0 < NUM_LEVELS
      requires forall a :: a in e.added ==> a.0 < NUM_LEVELS
      requires forall l :: 0 <= l < NUM_LEVELS ==> SameFileSameNumber(added[l], e)
      modifies this
      ensures Ok() && forall l :: 0 <= l < NUM_LEVELS ==> At(l) == Accumulate(old(At(l)), l, e)
    {
      hide Ascending, SameFileSameNumber;
      DeleteFiles(e);
      AddFiles(e);
    }

    method DeleteFiles(e: Edit)
      requires Ok() && forall d :: d in e.deleted ==> d.0 < NUM_LEVELS
      modifies this`deleted
      ensures Ok() && forall l :: 0 <= l < NUM_LEVELS ==> At(l) == Started(old(At(l)), l, e)
    {
      ghost var before := deleted;
      var todo := e.deleted;
      while todo != {}
        invariant Ok() && todo <= e.deleted
        invariant forall l :: 0 <= l < NUM_LEVELS ==> deleted[l] == before[l] + (set d | d in e.deleted - todo && d.0 == l :: d.1)
        decreases todo
      {
        var d :| d in todo;
        deleted := deleted[d.0 := deleted[d.0] + {d.1}];
        todo := todo - {d};
      }
    }

    method AddFiles(e: Edit)
      requires Ok() && forall a :: a in e.added ==> a.0 < NUM_LEVELS
      requires forall l :: 0 <= l < NUM_LEVELS ==> SameFileSameNumber(added[l], e)
      modifies this
      ensures Ok() && forall l :: 0 <= l < NUM_LEVELS ==> At(l) == AddAll(old(At(l)), l, e.added)
    {
      hide Ascending, SameFileSameNumber, SetOf;
      ghost var before := seq(NUM_LEVELS, l requires 0 <= l < |deleted| && l < |added| reads this => At(l));
      var i := 0;
      while i < |e.added|
        invariant 0 <= i <= |e.added| && Ok()
        invariant forall l :: 0 <= l < NUM_LEVELS ==> SameFileSameNumber(added[l], e)
        invariant forall l :: 0 <= l < NUM_LEVELS ==> At(l) == AddAll(before[l], l, e.added[..i])
      {
        var (l, t) := e.added[i];
        assert e.added[i] in e.added;
        assert e.added[..i + 1][..i] == e.added[..i];
        deleted := deleted[l := deleted[l] - {t.number}];
        OnlyThatFile(added[l], e, i);
        var files := InsertFile(added[l], t);
        InsertedSame(added[l], e, i, files);
        added := added[l := files];
        i := i + 1;
      }
      assert e.added[..|e.added|] == e.added;
    }

    /** Merges each level's base files with the added ones, leaving out the deleted. */
    method SaveTo() returns (version: seq<Files>)
      requires Ok() && forall l :: 0 <= l < NUM_LEVELS ==> Distinct(base[l], added[l])
      ensures |version| == NUM_LEVELS
      ensures forall l :: 0 <= l < NUM_LEVELS ==> Ascending(version[l]) && SetOf(version[l]) == Saved(SetOf(base[l]), At(l))
    {
      version := [];
      for l := 0 to NUM_LEVELS
        invariant |version| == l
        invariant forall k :: 0 <= k < l ==> Ascending(version[k]) && SetOf(version[k]) == Saved(SetOf(base[k]), At(k))
      {
        var files := SaveLevel(base[l], added[l], deleted[l]);
        version := version + [files];
      }
    }
  }

  /** No added file is already in the base: levels never get the same file twice. */
  ghost predicate Distinct(base: Files, added: Files) {
    forall f, g :: f in base && g in added ==> Less(f, g) || Less(g, f)
  }

  /** `v` holds the surviving files of base[..b] and added[..a], all before what is to come. */
  ghost predicate MergedSoFar(base: Files, added: Files, deleted: set<nat>, b: nat, a: nat, v: Files) {
    && b <= |base| && a <= |added| && Ascending(v)
    && (forall f :: f in v <==> (f in base[..b] || f in added[..a]) && f.number !in deleted)
    && (forall f, k :: f in v && b <= k < |base| ==> Less(f, base[k]))
    && (forall f, k :: f in v && a <= k < |added| ==> Less(f, added[k]))
  }

  function MaybeAddFile(v: Files, f: Table, deleted: set<nat>): Files {
    if f.number in deleted then v else v + [f]
  }

  lemma MergeBase(base: Files, added: Files, deleted: set<nat>, b: nat, a: nat, v: Files)
    requires Ascending(base) && Ascending(added) && MergedSoFar(base, added, deleted, b, a, v) && b < |base|
    requires a < |added| ==> Less(base[b], added[a])
    ensures MergedSoFar(base, added, deleted, b + 1, a, MaybeAddFile(v, base[b], deleted))
  {
    assert base[..b + 1] == base[..b] + [base[b]];
    forall k | a <= k < |added| ensures Less(base[b], added[k]) {
      assert a == k || Less(added[a], added[k]);
    }
  }

  lemma MergeAdded(base: Files, added: Files, deleted: set<nat>, b: nat, a: nat, v: Files)
    requires Ascending(base) && Ascending(added) && MergedSoFar(base, added, deleted, b, a, v) && a < |added|
    requires b < |base| ==> Less(added[a], base[b])
    ensures MergedSoFar(base, added, deleted, b, a + 1, MaybeAddFile(v, added[a], deleted))
  {
    assert added[..a + 1] == added[..a] + [added[a]];
    forall k | b <= k < |base| ensures Less(added[a], base[k]) {
      assert b == k || Less(base[b], base[k]);
    }
  }

  lemma MergeEnds(base: Files, added: Files, deleted: set<nat>, v: Files)
    requires MergedSoFar(base, added, deleted, |base|, |added|, v)
    ensures Ascending(v) && SetOf(v) == Saved(SetOf(base), Pending(deleted, SetOf(added)))
  {
    assert base[..|base|] == base && added[..|added|] == added;
  }

  method SaveLevel(base: Files, added: Files, deleted: set<nat>) returns (v: Files)
    requires Ascending(base) && Ascending(added) && Distinct(base, added)
    ensures Ascending(v) && SetOf(v) == Saved(SetOf(base), Pending(deleted, SetOf(added)))
  {
    hide MergedSoFar, Ascending;
    v := [];
    var b := 0;
    var a := 0;
    MergeStarts(base, added, deleted);
    while a < |added|
      invariant a <= |added| && b <= |base| && MergedSoFar(base, added, deleted, b, a, v)
    {
      // base files up to the place of the next added one
      while b < |base| && !Less(added[a], base[b])
        invariant b <= |base| && MergedSoFar(base, added, deleted, b, a, v)
      {
        MergeBase(base, added, deleted, b, a, v);
        v := MaybeAddFile(v, base[b], deleted);
        b := b + 1;
      }
      MergeAdded(base, added, deleted, b, a, v);
      v := MaybeAddFile(v, added[a], deleted);
      a := a + 1;
    }
    while b < |base|
      invariant b <= |base| && MergedSoFar(base, added, deleted, b, a, v)
    {
      MergeBase(base, added, deleted, b, a, v);
      v := MaybeAddFile(v, base[b], deleted);
      b := b + 1;
    }
    MergeEnds(base, added, deleted, v);
  }

  lemma MergeStarts(base: Files, added: Files, deleted: set<nat>)
    ensures MergedSoFar(base, added, deleted, 0, 0, [])
  {
  }

  /** Inserts into the ordered set; an element already there is not inserted twice. */
  method InsertFile(files: Files, t: Table) returns (r: Files)
    requires Ascending(files) && forall f :: f in files && f.number == t.number ==> f == t
    ensures Ascending(r) && SetOf(r) == SetOf(files) + {t}
  {
    var i := 0;
    while i < |files| && Less(files[i], t)
      invariant 0 <= i <= |files|
      invariant forall k :: 0 <= k < i ==> Less(files[k], t)
    {
      i := i + 1;
    }
    if i < |files| && !Less(t, files[i]) {
      assert files[i] in files && files[i] == t;
      return files;
    }
    r := files[..i] + [t] + files[i..];
    InsertedAscend(files, t, i);
  }

  lemma InsertedAscend(files: Files, t: Table, i: nat)
    requires Ascending(files) && i <= |files|
    requires forall k :: 0 <= k < i ==> Less(files[k], t)
    requires i < |files| ==> Less(t, files[i])
    ensures Ascending(files[..i] + [t] + files[i..])
    ensures SetOf(files[..i] + [t] + files[i..]) == SetOf(files) + {t}
  {
    var r := files[..i] + [t] + files[i..];
    assert files == files[..i] + files[i..];
    assert forall k :: i <= k < |files| ==> Less(t, files[k]);
  }
}
