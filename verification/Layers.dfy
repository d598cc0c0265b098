/** The layers of the store: memtable, immutable memtable, level 0, and the sorted levels.
  *
  * A layer hides the ones below it: for one user key, sequence numbers strictly fall from
  * one layer to the next. Everything a reader may conclude from an early exit, and
  * everything a compaction may drop, rests on this invariant.
  */
module Layers {
  import opened Keys

  const NUM_LEVELS := 7

  /** A table file: its number, its byte size, its key range and what it holds. */
  datatype Table = Table(number: nat, size: nat, smallest: InternalKey, largest: InternalKey, entries: seq<Entry>) {
    ghost predicate Valid() {
      && entries != []
      && Sorted(entries)
      && smallest == entries[0].key
      && largest == entries[|entries| - 1].key
      && forall e :: e in entries ==> e.key.seqno <= MAX_SEQUENCE
    }

    predicate Overlaps(lo: UserKey, hi: UserKey) {
      smallest.user <= hi && lo <= largest.user
    }

    lemma Bounds(e: Entry)
      requires Valid() && e in entries
      ensures smallest == e.key || smallest.Before(e.key)
      ensures largest == e.key || e.key.Before(largest)
      ensures smallest.user <= e.key.user <= largest.user
    {
      var i :| 0 <= i < |entries| && entries[i] == e;
    }
  }

  /** A version lists each level's files; levels from 1 up are sorted and disjoint. */
  type Files = seq<Table>

  function SetOf(files: Files): set<Table> {
    set f | f in files
  }

  ghost function Contents(tables: set<Table>): set<Entry> {
    set t, e | t in tables && e in t.entries :: e
  }

  /** Two tables of a sorted level: one lies wholly before the other. */
  predicate Apart(f: Table, g: Table) {
    f.largest.Before(g.smallest) || g.largest.Before(f.smallest)
  }

  ghost predicate Disjoint(tables: set<Table>) {
    forall f, g :: f in tables && g in tables && f != g ==> Apart(f, g)
  }

  datatype Store = Store(mem: set<Entry>, imm: set<Entry>, levels: seq<set<Table>>)

  // ---------------------------------------------------------------- where an entry is

  datatype Place = Memtable | Immutable | Level0(number: nat) | Level(level: nat)

  ghost predicate At(st: Store, p: Place, e: Entry) {
    match p
    case Memtable => e in st.mem
    case Immutable => e in st.imm
    case Level0(n) => |st.levels| > 0 && exists t :: t in st.levels[0] && t.number == n && e in t.entries
    case Level(l) => 1 <= l < |st.levels| && exists t :: t in st.levels[l] && e in t.entries
  }

  /** `p` is searched before `q`. */
  predicate Above(p: Place, q: Place) {
    match (p, q)
    case (Memtable, _) => q != Memtable
    case (Immutable, Memtable) => false
    case (Immutable, _) => q != Immutable
    case (Level0(m), Level0(n)) => m > n
    case (Level0(_), Level(_)) => true
    case (Level(i), Level(j)) => i < j
    case (_, _) => false
  }

  /** Along one user key, sequence numbers strictly fall from layer to layer. */
  ghost predicate Layered(st: Store) {
    forall p, q, a, b :: At(st, p, a) && At(st, q, b) && Above(p, q) && a.key.user == b.key.user
      ==> a.key.seqno > b.key.seqno
  }

  ghost predicate TablesValid(levels: seq<set<Table>>) {
    forall l, t :: 0 <= l < |levels| && t in levels[l] ==> t.Valid()
  }

  ghost predicate NumbersUnique(levels: seq<set<Table>>) {
    forall l, k, f, g :: 0 <= l < |levels| && 0 <= k < |levels| && f in levels[l] && g in levels[k] && f.number == g.number
      ==> l == k && f == g
  }

  ghost predicate LevelsDisjoint(levels: seq<set<Table>>) {
    forall l :: 1 <= l < |levels| ==> Disjoint(levels[l])
  }

  /** The tables of a version are well formed and the sorted levels are sorted. */
  ghost predicate Shaped(levels: seq<set<Table>>) {
    && |levels| == NUM_LEVELS
    && TablesValid(levels)
    && LevelsDisjoint(levels)
  }

  ghost predicate WellFormed(st: Store) {
    Shaped(st.levels) && NumbersUnique(st.levels) && Layered(st)
  }

  ghost function InLevels(levels: seq<set<Table>>): set<Entry> {
    set l, t, e | 0 <= l < |levels| && t in levels[l] && e in t.entries :: e
  }

  ghost function All(st: Store): set<Entry> {
    st.mem + st.imm + InLevels(st.levels)
  }

  lemma SomewhereAt(st: Store, e: Entry) returns (p: Place)
    requires e in All(st)
    ensures At(st, p, e)
  {
    if e in st.mem {
      p := Memtable;
    } else if e in st.imm {
      p := Immutable;
    } else {
      var l, t :| 0 <= l < |st.levels| && t in st.levels[l] && e in t.entries;
      p := if l == 0 then Level0(t.number) else Level(l);
    }
  }

  lemma AtIsSomewhere(st: Store, p: Place, e: Entry)
    requires At(st, p, e)
    ensures e in All(st)
  {
  }

  // ---------------------------------------------------------------- memtable steps

  /** Newer entries join the memtable. */
  lemma InsertKeepsLayers(st: Store, added: set<Entry>, last: nat)
    requires WellFormed(st)
    requires forall e :: e in All(st) ==> e.key.seqno <= last
    requires forall e :: e in added ==> e.key.seqno > last
    ensures WellFormed(st.(mem := st.mem + added))
    ensures All(st.(mem := st.mem + added)) == All(st) + added
  {
    var st' := st.(mem := st.mem + added);
    forall p, q, a, b | At(st', p, a) && At(st', q, b) && Above(p, q) && a.key.user == b.key.user
      ensures a.key.seqno > b.key.seqno
    {
      assert At(st, q, b);
      AtIsSomewhere(st, q, b);
      assert a in added || At(st, p, a);
    }
  }

  /** A full memtable becomes the immutable one. */
  lemma SwitchKeepsLayers(st: Store)
    requires WellFormed(st) && st.imm == {}
    ensures WellFormed(st.(mem := {}, imm := st.mem))
    ensures All(st.(mem := {}, imm := st.mem)) == All(st)
  {
    var st' := st.(mem := {}, imm := st.mem);
    forall p, q, a, b | At(st', p, a) && At(st', q, b) && Above(p, q) && a.key.user == b.key.user
      ensures a.key.seqno > b.key.seqno
    {
      assert At(st, if p == Immutable then Memtable else p, a);
      assert At(st, q, b);
    }
  }

  // ---------------------------------------------------------------- flush

  /** A table may go to level `l` when nothing at levels 0 to `l` overlaps its key range;
    * level 0 takes anything, provided its number is the largest there. */
  ghost predicate MayFlushTo(levels: seq<set<Table>>, t: Table, l: nat)
    requires |levels| == NUM_LEVELS
  {
    && l < NUM_LEVELS
    && (forall k, f :: 0 <= k <= l && l > 0 && f in levels[k] ==> !f.Overlaps(t.smallest.user, t.largest.user))
    && (forall k, f :: 0 <= k < NUM_LEVELS && f in levels[k] ==> f.number < t.number)
  }

  function AddTo(levels: seq<set<Table>>, l: nat, t: Table): seq<set<Table>>
    requires l < |levels|
  {
    levels[l := levels[l] + {t}]
  }

  lemma AddedTableKeepsShape(levels: seq<set<Table>>, t: Table, l: nat)
    requires Shaped(levels) && t.Valid() && MayFlushTo(levels, t, l)
    ensures Shaped(AddTo(levels, l, t))
    ensures NumbersUnique(levels) ==> NumbersUnique(AddTo(levels, l, t))
    ensures InLevels(AddTo(levels, l, t)) == InLevels(levels) + Elements(t.entries)
  {
    var levels' := AddTo(levels, l, t);
    forall k, f, g | 1 <= k < |levels'| && f in levels'[k] && g in levels'[k] && f != g
      ensures Apart(f, g)
    {
      if k == l && (f == t || g == t) {
        var other := if f == t then g else f;
        assert other in levels[l];
        assert !other.Overlaps(t.smallest.user, t.largest.user);
      }
    }
    forall e | e in InLevels(levels) + Elements(t.entries)
      ensures e in InLevels(levels')
    {
      if e in t.entries {
        assert t in levels'[l];
      } else {
        var k, f :| 0 <= k < |levels| && f in levels[k] && e in f.entries;
        assert f in levels'[k];
      }
    }
  }

  function FlushTo(st: Store, t: Table, l: nat): Store
    requires l < |st.levels|
  {
    st.(imm := {}, levels := AddTo(st.levels, l, t))
  }

  lemma PlacesAfterFlush(st: Store, t: Table, l: nat, p: Place, e: Entry)
    requires l < |st.levels| && Elements(t.entries) == st.imm
    requires At(FlushTo(st, t, l), p, e)
    ensures At(st, p, e) || (p == (if l == 0 then Level0(t.number) else Level(l)) && At(st, Immutable, e))
    ensures p != Immutable
  {
  }

  /** Nothing of the flushed table's user keys lies above it inside the version. */
  lemma NothingOverFlushed(levels: seq<set<Table>>, t: Table, l: nat, k: nat, a: Entry, b: Entry)
    requires Shaped(levels) && t.Valid() && MayFlushTo(levels, t, l)
    requires 0 < l && k <= l && b in t.entries && a.key.user == b.key.user
    ensures forall f :: f in levels[k] ==> a !in f.entries
  {
    t.Bounds(b);
    forall f | f in levels[k]
      ensures a !in f.entries
    {
      assert !f.Overlaps(t.smallest.user, t.largest.user);
      if a in f.entries {
        f.Bounds(a);
      }
    }
  }

  lemma FlushedPair(st: Store, t: Table, l: nat, p: Place, q: Place, a: Entry, b: Entry)
    requires WellFormed(st) && t.Valid() && Elements(t.entries) == st.imm && MayFlushTo(st.levels, t, l)
    requires At(FlushTo(st, t, l), p, a) && At(FlushTo(st, t, l), q, b) && Above(p, q) && a.key.user == b.key.user
    ensures a.key.seqno > b.key.seqno
  {
    PlacesAfterFlush(st, t, l, p, a);
    PlacesAfterFlush(st, t, l, q, b);
    if !At(st, p, a) {
      assert Above(Immutable, q) && At(st, q, b);
    } else if !At(st, q, b) {
      if p == Memtable {
        assert Above(p, Immutable);
      } else if l > 0 {
        NothingOverFlushed(st.levels, t, l, if p.Level0? then 0 else p.level, a, b);
      }
    }
  }

  /** Flushing the immutable memtable keeps every entry and every layer. */
  lemma FlushKeepsLayers(st: Store, t: Table, l: nat)
    requires WellFormed(st) && t.Valid() && Elements(t.entries) == st.imm && MayFlushTo(st.levels, t, l)
    ensures WellFormed(FlushTo(st, t, l))
    ensures All(FlushTo(st, t, l)) == All(st)
  {
    var st' := FlushTo(st, t, l);
    AddedTableKeepsShape(st.levels, t, l);
    forall p, q, a, b | At(st', p, a) && At(st', q, b) && Above(p, q) && a.key.user == b.key.user
      ensures a.key.seqno > b.key.seqno
    {
      FlushedPair(st, t, l, p, q, a, b);
    }
  }
}
