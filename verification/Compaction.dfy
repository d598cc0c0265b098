/** What one compaction may drop, and when dropping it goes unnoticed. */
module Compaction {
  import opened Keys
  import opened Layers

  /** Inputs of a compaction from `level` into `level + 1`; [lo, hi] spans the user keys of
    * the upper inputs. */
  datatype Job = Job(level: nat, upper: set<Table>, lower: set<Table>, lo: UserKey, hi: UserKey)

  ghost function Inputs(j: Job): set<Entry> {
    Contents(j.upper) + Contents(j.lower)
  }

  /** A table left at the upper level shares a user key with an input only when it holds the
    * newer entries: the promise of the level-0 closure and of the boundary files. */
  ghost predicate NewerStays(tables: set<Table>, chosen: set<Table>) {
    forall f, g, a, b ::
      f in tables && f !in chosen && g in chosen && a in f.entries && b in g.entries && a.key.user == b.key.user
      ==> a.key.seqno > b.key.seqno
  }

  ghost predicate Selected(levels: seq<set<Table>>, j: Job)
    requires |levels| == NUM_LEVELS
  {
    && j.level + 1 < NUM_LEVELS
    && j.upper <= levels[j.level]
    && j.lower <= levels[j.level + 1]
    && (forall g :: g in j.upper ==> j.lo <= g.smallest.user && g.largest.user <= j.hi)
    && (forall f :: f in levels[j.level + 1] ==> (f in j.lower <==> f.Overlaps(j.lo, j.hi)))
  }

  function Compacted(levels: seq<set<Table>>, j: Job, outs: set<Table>): seq<set<Table>>
    requires j.level + 1 < |levels|
  {
    levels[j.level := levels[j.level] - j.upper][j.level + 1 := levels[j.level + 1] - j.lower + outs]
  }

  /** Output tables: well formed, apart from one another, holding only input entries. */
  ghost predicate Outputs(j: Job, outs: set<Table>) {
    && (forall t :: t in outs ==> t.Valid())
    && Disjoint(outs)
    && Contents(outs) <= Inputs(j)
  }

  // ---------------------------------------------------------------- the layers survive

  lemma OutputApartFromRest(levels: seq<set<Table>>, j: Job, outs: set<Table>, f: Table, t: Table)
    requires Shaped(levels) && Selected(levels, j) && Outputs(j, outs)
    requires f in levels[j.level + 1] && f !in j.lower && t in outs
    ensures Apart(f, t)
  {
    var first, last := t.entries[0], t.entries[|t.entries| - 1];
    assert first in t.entries && last in t.entries;
    InputApartFromRest(levels, j, f, first);
    InputApartFromRest(levels, j, f, last);
  }

  /** Every input entry lies on the side of a left-out table that its range tells. */
  lemma InputApartFromRest(levels: seq<set<Table>>, j: Job, f: Table, e: Entry)
    requires Shaped(levels) && Selected(levels, j)
    requires f in levels[j.level + 1] && f !in j.lower && e in Inputs(j)
    ensures f.largest.user < j.lo ==> f.largest.Before(e.key)
    ensures j.hi < f.smallest.user ==> e.key.Before(f.smallest)
    ensures f.largest.user < j.lo || j.hi < f.smallest.user
  {
    assert !f.Overlaps(j.lo, j.hi);
    assert f.Valid();
    f.Bounds(f.entries[0]);
    if e in Contents(j.upper) {
      var g :| g in j.upper && e in g.entries;
      assert g in levels[j.level];
      g.Bounds(e);
    } else {
      var g :| g in j.lower && e in g.entries;
      g.Bounds(e);
      g.Bounds(g.entries[0]);
      assert g.Overlaps(j.lo, j.hi) && Apart(f, g);
    }
  }

  lemma CompactionKeepsShape(levels: seq<set<Table>>, j: Job, outs: set<Table>)
    requires Shaped(levels) && Selected(levels, j) && Outputs(j, outs)
    ensures Shaped(Compacted(levels, j, outs))
  {
    var levels' := Compacted(levels, j, outs);
    assert forall l :: 0 <= l < |levels'| && l != j.level + 1 ==> levels'[l] <= levels[l];
    forall f, g | f in levels'[j.level + 1] && g in levels'[j.level + 1] && f != g
      ensures Apart(f, g)
    {
      if f in outs && g !in outs { OutputApartFromRest(levels, j, outs, g, f); }
      if g in outs && f !in outs { OutputApartFromRest(levels, j, outs, f, g); }
    }
  }

  function After(st: Store, j: Job, outs: set<Table>): Store
    requires j.level + 1 < |st.levels|
  {
    st.(levels := Compacted(st.levels, j, outs))
  }

  function UpperPlace(level: nat, t: Table): Place {
    if level == 0 then Level0(t.number) else Level(level)
  }

  /** An entry that moved came from an upper input. */
  lemma Moved(st: Store, j: Job, outs: set<Table>, p: Place, e: Entry) returns (home: Place, g: Table)
    requires |st.levels| == NUM_LEVELS && Selected(st.levels, j) && Contents(outs) <= Inputs(j)
    requires At(After(st, j, outs), p, e) && !At(st, p, e)
    ensures p == Level(j.level + 1) && g in j.upper && e in g.entries
    ensures home == UpperPlace(j.level, g) && At(st, home, e)
  {
    var t :| t in Compacted(st.levels, j, outs)[if p.Level0? then 0 else p.level] && e in t.entries;
    assert t in outs;
    assert e in Contents(outs);
    forall f | f in j.lower
      ensures e !in f.entries
    {
      assert f in st.levels[j.level + 1];
    }
    g :| g in j.upper && e in g.entries;
    home := UpperPlace(j.level, g);
  }

  /** An entry still found at the upper level is in a table that was left there. */
  lemma Stayed(st: Store, j: Job, outs: set<Table>, p: Place, e: Entry) returns (f: Table)
    requires |st.levels| == NUM_LEVELS && j.level + 1 < NUM_LEVELS
    requires At(After(st, j, outs), p, e) && (if j.level == 0 then p.Level0? else p == Level(j.level))
    ensures f in st.levels[j.level] && f !in j.upper && e in f.entries
  {
    f :| f in st.levels[j.level] - j.upper && e in f.entries;
  }

  lemma CompactedPair(st: Store, j: Job, outs: set<Table>, p: Place, q: Place, a: Entry, b: Entry)
    requires Layered(st) && |st.levels| == NUM_LEVELS && Selected(st.levels, j) && Contents(outs) <= Inputs(j)
    requires NewerStays(st.levels[j.level], j.upper)
    requires At(After(st, j, outs), p, a) && At(After(st, j, outs), q, b) && Above(p, q) && a.key.user == b.key.user
    ensures a.key.seqno > b.key.seqno
  {
    if At(st, p, a) && At(st, q, b) {
    } else if At(st, q, b) {
      var home, g := Moved(st, j, outs, p, a);
      assert Above(home, q);
    } else {
      var home, g := Moved(st, j, outs, q, b);
      if At(st, p, a) && Above(p, home) {
      } else {
        var f := Stayed(st, j, outs, p, a);
      }
    }
  }

  /** A compaction keeps every layer, whichever of its inputs' entries it drops. */
  lemma CompactionKeepsLayers(st: Store, j: Job, outs: set<Table>)
    requires WellFormed(st) && Selected(st.levels, j) && Outputs(j, outs)
    requires NewerStays(st.levels[j.level], j.upper)
    requires NumbersUnique(Compacted(st.levels, j, outs))
    ensures WellFormed(After(st, j, outs))
  {
    CompactionKeepsShape(st.levels, j, outs);
    forall p, q, a, b | At(After(st, j, outs), p, a) && At(After(st, j, outs), q, b) && Above(p, q) && a.key.user == b.key.user
      ensures a.key.seqno > b.key.seqno
    {
      CompactedPair(st, j, outs, p, q, a, b);
    }
  }

  // ---------------------------------------------------------------- what is dropped

  /** No table below the two input levels has `u` in its range. */
  ghost predicate BaseLevel(levels: seq<set<Table>>, level: nat, u: UserKey) {
    forall k, f :: level + 2 <= k < |levels| && f in levels[k] ==> !f.Overlaps(u, u)
  }

  /** Rule (A): a newer entry of the same key is itself visible to every snapshot. */
  ghost predicate Hidden(inputs: set<Entry>, smallest: nat, e: Entry) {
    exists x :: x in inputs && x.key.user == e.key.user && e.key.seqno < x.key.seqno <= smallest
  }

  ghost predicate ObsoleteTombstone(levels: seq<set<Table>>, j: Job, smallest: nat, e: Entry) {
    e.key.kind.Deletion? && e.key.seqno <= smallest && BaseLevel(levels, j.level, e.key.user)
  }

  ghost predicate Dropped(levels: seq<set<Table>>, j: Job, smallest: nat, e: Entry) {
    Hidden(Inputs(j), smallest, e) || ObsoleteTombstone(levels, j, smallest, e)
  }

  ghost function Kept(levels: seq<set<Table>>, j: Job, smallest: nat): set<Entry> {
    set e | e in Inputs(j) && !Dropped(levels, j, smallest, e)
  }

  /** Entries of the level-(n+1) tables the compaction leaves alone. */
  ghost function LeftBelow(levels: seq<set<Table>>, j: Job): set<Entry>
    requires j.level + 1 < |levels|
  {
    Contents(levels[j.level + 1] - j.lower)
  }

  /** The one way a compaction can change a read: the tombstone `d` is the newest entry of its
    * key at `smallest`, it is dropped from the lower inputs, and a table left out right after
    * them holds a value it was hiding. */
  ghost predicate Resurrects(st: Store, j: Job, smallest: nat, d: Entry)
    requires j.level + 1 < |st.levels|
  {
    && d in Contents(j.lower)
    && ObsoleteTombstone(st.levels, j, smallest, d)
    && Newest(All(st), d.key.user, smallest) == Some(d)
    && Reads(LeftBelow(st.levels, j), d.key.user, smallest).Some?
  }

  /** The level-(n+1) counterpart of the boundary rule, which the code does not enforce: no
    * table left out of the lower inputs starts with a user key that ends one of them. */
  ghost predicate ClosedAtParent(levels: seq<set<Table>>, j: Job)
    requires j.level + 1 < |levels|
  {
    forall f, g :: f in levels[j.level + 1] && f !in j.lower && g in j.lower && g.largest.Before(f.smallest)
      ==> g.largest.user != f.smallest.user
  }

  ghost predicate SameReads(s: set<Entry>, t: set<Entry>, from: nat) {
    forall u, n :: n >= from ==> Reads(s, u, n) == Reads(t, u, n)
  }

  // ---------------------------------------------------------------- reads survive, exactly when

  /** The setting of one compaction that drops by the rules above. */
  ghost predicate Compacts(st: Store, j: Job, smallest: nat, outs: set<Table>) {
    && WellFormed(st)
    && UniqueSequences(All(st))
    && Selected(st.levels, j)
    && NewerStays(st.levels[j.level], j.upper)
    && Outputs(j, outs)
    && Contents(outs) == Kept(st.levels, j, smallest)
  }

  lemma InputAt(st: Store, j: Job, e: Entry) returns (p: Place, g: Table)
    requires |st.levels| == NUM_LEVELS && Selected(st.levels, j) && e in Inputs(j)
    ensures At(st, p, e) && e in g.entries && (g in j.upper || g in j.lower)
    ensures g in j.upper ==> p == UpperPlace(j.level, g)
    ensures g !in j.upper ==> p == Level(j.level + 1) && e !in Contents(j.upper)
  {
    if e in Contents(j.upper) {
      g :| g in j.upper && e in g.entries;
      p := UpperPlace(j.level, g);
    } else {
      g :| g in j.lower && e in g.entries;
      p := Level(j.level + 1);
    }
  }

  /** Entries outside the inputs are found where they were. */
  ghost function Rest(st: Store, j: Job): set<Entry>
    requires j.level + 1 < |st.levels|
  {
    st.mem + st.imm + InLevels(Compacted(st.levels, j, {}))
  }

  lemma AllAfter(st: Store, j: Job, outs: set<Table>)
    requires |st.levels| == NUM_LEVELS && Selected(st.levels, j)
    ensures All(After(st, j, outs)) == Rest(st, j) + Contents(outs)
    ensures All(st) == Rest(st, j) + Inputs(j)
    ensures LeftBelow(st.levels, j) <= Rest(st, j)
  {
    var before, none, after := st.levels, Compacted(st.levels, j, {}), Compacted(st.levels, j, outs);
    forall e | e in InLevels(none) ensures e in InLevels(after) && e in InLevels(before) {
      var l, t: Table :| 0 <= l < |none| && t in none[l] && e in t.entries;
      assert t in after[l] && t in before[l];
    }
    forall e | e in Contents(outs) ensures e in InLevels(after) {
      var t :| t in outs && e in t.entries;
      assert t in after[j.level + 1];
    }
    forall e | e in InLevels(after) ensures e in InLevels(none) || e in Contents(outs) {
      var l, t: Table :| 0 <= l < |after| && t in after[l] && e in t.entries;
      assert t in outs || t in none[l];
    }
    forall e | e in Inputs(j) ensures e in InLevels(before) {
      var p, g := InputAt(st, j, e);
      assert g in before[j.level] || g in before[j.level + 1];
    }
    forall e | e in InLevels(before) ensures e in InLevels(none) || e in Inputs(j) {
      var l, t: Table :| 0 <= l < |before| && t in before[l] && e in t.entries;
      assert t in j.upper || t in j.lower || t in none[l];
    }
    forall e | e in LeftBelow(before, j) ensures e in InLevels(none) {
      var t :| t in before[j.level + 1] - j.lower && e in t.entries;
      assert t in none[j.level + 1];
    }
  }

  /** An entry of the rest that is not newer than an input of its key is below the upper level. */
  lemma NotAboveInput(st: Store, j: Job, p: Place, g: Table, e: Entry, q: Place, x: Entry)
    requires |st.levels| == NUM_LEVELS && Layered(st) && j.level + 1 < NUM_LEVELS
    requires NewerStays(st.levels[j.level], j.upper)
    requires At(st, p, e) && e in g.entries
    requires (g in j.upper && p == UpperPlace(j.level, g)) || p == Level(j.level + 1)
    requires At(After(st, j, {}), q, x) && At(st, q, x)
    requires x.key.user == e.key.user && x.key.seqno <= e.key.seqno
    ensures q.Level? && q.level > j.level
  {
    if !(q.Level? && q.level > j.level) {
      if Above(q, p) {
        assert false;
      } else {
        var f := Stayed(st, j, {}, q, x);
        assert false;
      }
    }
  }

  /** Neither does it lie in a table the compaction would have had to pick. */
  lemma BelowInput(levels: seq<set<Table>>, j: Job, g: Table, e: Entry, f: Table, k: nat, x: Entry)
    requires Shaped(levels) && Selected(levels, j) && BaseLevel(levels, j.level, e.key.user)
    requires e in g.entries && (g in j.upper || g in j.lower)
    requires j.level < k < NUM_LEVELS && f in Compacted(levels, j, {})[k]
    requires x in f.entries && x.key.user == e.key.user
    ensures k == j.level + 1 && f !in j.lower && g !in j.upper
    ensures x != e
  {
    assert g.Valid() && f in levels[k];
    assert k >= j.level + 2 ==> !f.Overlaps(e.key.user, e.key.user);
    f.Bounds(x);
    g.Bounds(e);
    if k == j.level + 1 && g in j.lower {
      assert Apart(f, g);
      if x == e { f.Bounds(e); }
    }
  }

  lemma RestBelowInput(st: Store, j: Job, e: Entry, x: Entry)
    requires Shaped(st.levels) && Layered(st) && Selected(st.levels, j) && NewerStays(st.levels[j.level], j.upper)
    requires e in Inputs(j) && x in Rest(st, j) && x.key.user == e.key.user && x.key.seqno <= e.key.seqno
    requires BaseLevel(st.levels, j.level, e.key.user)
    ensures x in LeftBelow(st.levels, j) && e in Contents(j.lower) && x != e
  {
    var p, g := InputAt(st, j, e);
    var q := SomewhereAt(After(st, j, {}), x);
    RestWasThere(st, j, q, x);
    NotAboveInput(st, j, p, g, e, q, x);
    var f :| f in Compacted(st.levels, j, {})[q.level] && x in f.entries;
    BelowInput(st.levels, j, g, e, f, q.level, x);
  }

  lemma RestWasThere(st: Store, j: Job, q: Place, x: Entry)
    requires |st.levels| == NUM_LEVELS && j.level + 1 < NUM_LEVELS
    requires At(After(st, j, {}), q, x)
    ensures At(st, q, x)
  {
  }

  /** The same argument on plain sets: `inputs` shrink by rule (A) and by the tombstones in
    * `gone`; whatever of `rest` is not newer than such a tombstone lies in `below`. */
  ghost predicate Shrinks(rest: set<Entry>, inputs: set<Entry>, kept: set<Entry>, below: set<Entry>, gone: set<Entry>, smallest: nat) {
    && UniqueSequences(rest + inputs)
    && below <= rest
    && gone <= inputs
    && (forall e :: e in gone ==> e.key.kind.Deletion? && e.key.seqno <= smallest)
    && (forall e :: e in kept <==> e in inputs && e !in gone && !Hidden(inputs, smallest, e))
    && (forall e, x :: e in gone && x in rest && x.key.user == e.key.user && x.key.seqno <= e.key.seqno
          ==> x in below && x != e)
  }

  lemma ShrunkReads(rest: set<Entry>, inputs: set<Entry>, kept: set<Entry>, below: set<Entry>, gone: set<Entry>, smallest: nat,
                    u: UserKey, n: nat)
    requires Shrinks(rest, inputs, kept, below, gone, smallest) && n >= smallest
    requires forall d :: d in gone && Newest(rest + inputs, d.key.user, smallest) == Some(d)
               ==> Reads(below, d.key.user, smallest).None?
    ensures Reads(rest + kept, u, n) == Reads(rest + inputs, u, n)
  {
    var before, after := rest + inputs, rest + kept;
    var r := Newest(before, u, n);
    if r.Some? && r.value in after {
      NewestIs(after, u, n, r.value);
    } else if r.Some? {
      var e := r.value;
      assert e in gone;
      var r' := Newest(after, u, n);
      if r'.Some? {
        var x := r'.value;
        assert x !in inputs || x == e || Hidden(inputs, smallest, x);
        NewestIs(before, u, smallest, e);
        NewestIs(below, u, smallest, x);
      }
    }
  }

  lemma ShrunkReadsDiffer(rest: set<Entry>, inputs: set<Entry>, kept: set<Entry>, below: set<Entry>, gone: set<Entry>, smallest: nat,
                          d: Entry)
    requires Shrinks(rest, inputs, kept, below, gone, smallest)
    requires d in gone && Newest(rest + inputs, d.key.user, smallest) == Some(d)
    requires Reads(below, d.key.user, smallest).Some?
    ensures Reads(rest + inputs, d.key.user, smallest) == None
    ensures Reads(rest + kept, d.key.user, smallest) == Reads(below, d.key.user, smallest)
  {
    var u, after := d.key.user, rest + kept;
    var y := Newest(below, u, smallest).value;
    var z := Newest(after, u, smallest).value;
    assert y in rest && y in after;
    assert d !in rest;
    assert z !in inputs || z == d || Hidden(inputs, smallest, z);
    NewestIs(after, u, smallest, y);
  }

  ghost function ObsoleteTombstones(levels: seq<set<Table>>, j: Job, smallest: nat): set<Entry> {
    set e | e in Inputs(j) && ObsoleteTombstone(levels, j, smallest, e)
  }

  lemma CompactionShrinks(st: Store, j: Job, smallest: nat, outs: set<Table>)
    requires Compacts(st, j, smallest, outs)
    ensures Shrinks(Rest(st, j), Inputs(j), Contents(outs), LeftBelow(st.levels, j), ObsoleteTombstones(st.levels, j, smallest), smallest)
  {
    AllAfter(st, j, outs);
    var gone := ObsoleteTombstones(st.levels, j, smallest);
    forall e, x | e in gone && x in Rest(st, j) && x.key.user == e.key.user && x.key.seqno <= e.key.seqno
      ensures x in LeftBelow(st.levels, j) && x != e
    {
      RestBelowInput(st, j, e, x);
    }
  }

  /** A resurrected tombstone always comes from the lower inputs. */
  lemma ResurrectedFromLower(st: Store, j: Job, smallest: nat, outs: set<Table>, d: Entry)
    requires Compacts(st, j, smallest, outs)
    requires d in ObsoleteTombstones(st.levels, j, smallest) && Newest(All(st), d.key.user, smallest) == Some(d)
    requires Reads(LeftBelow(st.levels, j), d.key.user, smallest).Some?
    ensures Resurrects(st, j, smallest, d)
  {
    AllAfter(st, j, outs);
    RestBelowInput(st, j, d, Newest(LeftBelow(st.levels, j), d.key.user, smallest).value);
  }

  /** A resurrecting compaction turns a deleted key into the value left below. */
  lemma ResurrectionShows(st: Store, j: Job, smallest: nat, outs: set<Table>, d: Entry)
    requires Compacts(st, j, smallest, outs) && Resurrects(st, j, smallest, d)
    ensures Reads(All(st), d.key.user, smallest) == None
    ensures Reads(All(After(st, j, outs)), d.key.user, smallest) == Reads(LeftBelow(st.levels, j), d.key.user, smallest)
  {
    AllAfter(st, j, outs);
    CompactionShrinks(st, j, smallest, outs);
    ShrunkReadsDiffer(Rest(st, j), Inputs(j), Contents(outs), LeftBelow(st.levels, j), ObsoleteTombstones(st.levels, j, smallest), smallest, d);
  }

  /** A compaction preserves every read at or above the smallest snapshot if and only if it
    * resurrects nothing. */
  lemma CompactionPreservesReads(st: Store, j: Job, smallest: nat, outs: set<Table>)
    requires Compacts(st, j, smallest, outs)
    ensures SameReads(All(After(st, j, outs)), All(st), smallest) <==> forall d :: !Resurrects(st, j, smallest, d)
  {
    AllAfter(st, j, outs);
    CompactionShrinks(st, j, smallest, outs);
    var rest, below, gone := Rest(st, j), LeftBelow(st.levels, j), ObsoleteTombstones(st.levels, j, smallest);
    if d :| Resurrects(st, j, smallest, d) {
      ResurrectionShows(st, j, smallest, outs, d);
    } else {
      forall u, n | n >= smallest
        ensures Reads(All(After(st, j, outs)), u, n) == Reads(All(st), u, n)
      {
        forall d | d in gone && Newest(All(st), d.key.user, smallest) == Some(d)
          ensures Reads(below, d.key.user, smallest).None?
        {
          if Reads(below, d.key.user, smallest).Some? {
            ResurrectedFromLower(st, j, smallest, outs, d);
          }
        }
        ShrunkReads(rest, Inputs(j), Contents(outs), below, gone, smallest, u, n);
      }
    }
  }

  lemma SharedBoundary(g: Table, d: Entry, f: Table, y: Entry)
    requires g.Valid() && f.Valid() && Apart(f, g) && d in g.entries && y in f.entries
    requires y.key.user == d.key.user && y.key.seqno <= d.key.seqno && d.key.kind.Deletion? && y.key.kind.Put?
    requires y.key.seqno != d.key.seqno
    ensures g.largest.Before(f.smallest) && g.largest.user == f.smallest.user
  {
    f.Bounds(y);
    g.Bounds(d);
  }

  lemma ClosedAtParentResurrectsNothing(st: Store, j: Job, smallest: nat, d: Entry)
    requires Shaped(st.levels) && Selected(st.levels, j) && UniqueSequences(All(st))
    requires ClosedAtParent(st.levels, j)
    ensures !Resurrects(st, j, smallest, d)
  {
    if Resurrects(st, j, smallest, d) {
      var y := Newest(LeftBelow(st.levels, j), d.key.user, smallest).value;
      var f :| f in st.levels[j.level + 1] - j.lower && y in f.entries;
      var g :| g in j.lower && d in g.entries;
      assert y in All(st) by { AllAfter(st, j, {}); }
      SharedBoundary(g, d, f, y);
    }
  }
}
