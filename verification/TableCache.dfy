/** Open table files, and the search of a version in the bytes of its files. */
module TableCaches {
  import opened ByteNumbers
  import opened Coding
  import opened Keys
  import opened Layers
  import opened History
  import opened Engine
  import opened VersionSet
  import opened PointLookup
  import opened Database
  import Bloom
  import Bytewise
  import TableFormat
  import opened TableBuilding
  import opened TableReading

  /** The run of entries a table file holds. */
  function RunOf(im: Image): seq<Entry> {
    TableFormat.Run(TableFormat.Flat(im.blocks))
  }

  class TableCache {
    const policy: Bloom.BloomFilterPolicy?
    const name: Bytes
    const verify: bool
    /** The table files of the directory, by number. */
    var files: map<nat, Bytes>
    var tables: map<nat, TableReading.Table>
    ghost var images: map<nat, Image>

    ghost predicate Ok()
      reads this
    {
      && (forall n :: n in images ==> n in files && IsTable(files[n], images[n], name) && ImageFits(images[n]))
      && (forall n :: n in tables ==> n in files && tables[n].Ok() && (n in images ==> tables[n].Opened(images[n])))
    }

    constructor (policy: Bloom.BloomFilterPolicy?, name: Bytes, verify: bool)
      ensures Ok() && files == map[] && images == map[]
    {
      this.policy, this.name, this.verify := policy, name, verify;
      files, tables, images := map[], map[], map[];
    }

    /** A file appears under a new number; it may hold a table. */
    method AddFile(number: nat, file: Bytes, ghost im: Image)
      requires Ok() && number !in files
      modifies this`files, this`images
      ensures Ok() && files == old(files)[number := file]
      ensures images == if IsTable(file, im, name) && ImageFits(im) then old(images)[number := im] else old(images)
    {
      hide IsTable, ImageFits, TableReading.Table.Opened;
      files := files[number := file];
      if IsTable(file, im, name) && ImageFits(im) {
        images := images[number := im];
      }
    }

    /** The table of that number, opened now or before; a failure to open is not remembered. */
    method FindTable(number: nat) returns (t: TableReading.Table?)
      requires Ok()
      modifies this`tables
      ensures Ok() && (t != null ==> t.Ok()) && (number in images ==> t != null && t.Opened(images[number]))
      ensures tables == if t != null then old(tables)[number := t] else old(tables)
    {
      hide IsTable, ImageFits, TableReading.Table.Opened;
      if number in tables {
        return tables[number];
      }
      t := null;
      if number in files {
        ghost var im :| number in images ==> im == images[number];
        t := Open(files[number], policy, name, verify, im);
        if t != null {
          tables := tables[number := t];
        }
      }
    }

    /** What the table of that number holds as the newest version of `u` up to `s`. */
    method Get(number: nat, u: Bytes, s: nat) returns (found: Option<Entry>)
      requires Ok() && s <= MAX_SEQUENCE
      modifies this`tables
      ensures Ok() && (number in images ==> found == Lookup(RunOf(images[number]), Bytewise.Rank(u), s))
    {
      hide IsTable, ImageFits, TableReading.Table.Opened, Lookup, Bytewise.Rank;
      var t := FindTable(number);
      found := None;
      if t != null {
        ghost var im :| number in images ==> im == images[number];
        var pair, _ := t.InternalGet(u, s, im);
        found := TableFormat.Answer(pair, u);
      }
    }

    /** A file is removed: its table is closed. */
    method Evict(number: nat)
      requires Ok()
      modifies this
      ensures Ok() && tables == old(tables) - {number} && files == old(files) - {number} && images == old(images) - {number}
    {
      hide IsTable, ImageFits, TableReading.Table.Opened;
      files, tables, images := files - {number}, tables - {number}, images - {number};
    }
  }

  // ---------------------------------------------------------------- which files a search opens

  /** Searching these tables in turn, the first with a visible version answers for the store. */
  ghost predicate Decides(plan: Files, st: Store, u: UserKey, n: nat) {
    && (forall i :: 0 <= i < |plan| && Answers(plan, i, u, n) ==> Newest(All(st), u, n) == Newest(Elements(plan[i].entries), u, n))
    && (Silent(plan, u, n) ==> Newest(All(st), u, n) == None)
  }

  ghost predicate Silent(plan: Files, u: UserKey, n: nat) {
    forall i :: 0 <= i < |plan| ==> Newest(Elements(plan[i].entries), u, n) == None
  }

  ghost predicate Answers(plan: Files, i: nat, u: UserKey, n: nat)
    requires i < |plan|
  {
    Silent(plan[..i], u, n) && Newest(Elements(plan[i].entries), u, n).Some?
  }

  ghost predicate NothingAbove(st: Store, l: nat, u: UserKey, n: nat)
    requires l <= |st.levels|
  {
    forall k, t, x :: 0 <= k < l && t in st.levels[k] && x in t.entries ==> !Visible(x, u, n)
  }

  lemma Level0Decides(version: seq<Files>, st: Store, u: UserKey, n: nat, candidates: Files)
    requires VersionOk(version) && st.levels == Sets(version) && WellFormed(st) && UniqueSequences(All(st))
    requires forall x :: x in st.mem + st.imm ==> !Visible(x, u, n)
    requires NewestFirst(candidates) && forall f :: f in candidates <==> f in version[0] && f.Overlaps(u, u)
    ensures forall i :: 0 <= i < |candidates| && Answers(candidates, i, u, n) ==> Newest(All(st), u, n) == Newest(Elements(candidates[i].entries), u, n)
    ensures Silent(candidates, u, n) ==> NothingAbove(st, 1, u, n)
  {
    hide WellFormed, UniqueSequences, All;
    forall i | 0 <= i < |candidates| && Answers(candidates, i, u, n)
      ensures Newest(All(st), u, n) == Newest(Elements(candidates[i].entries), u, n)
    {
      var f := candidates[i];
      assert f in version[0];
      forall g, x | g in version[0] && g.number > f.number && x in g.entries ensures !Visible(x, u, n) {
        NotCandidate(version[0], candidates, u, n, g, x);
        if g in candidates {
          var k :| 0 <= k < |candidates| && candidates[k] == g;
          assert k < i && candidates[..i][k] == g && x in Elements(g.entries);
        }
      }
      Level0Wins(st, version[0], u, n, Newest(Elements(f.entries), u, n).value, f.number);
    }
    if Silent(candidates, u, n) {
      forall g, x | g in version[0] && x in g.entries ensures !Visible(x, u, n) {
        NotCandidate(version[0], candidates, u, n, g, x);
        if g in candidates {
          var k :| 0 <= k < |candidates| && candidates[k] == g;
          assert x in Elements(g.entries);
        }
      }
    }
  }

  /** The tables to search for `u` at `n`, in order: level 0 newest first, then at most one of
    * each sorted level. */
  method FilesToSearch(version: seq<Files>, u: UserKey, n: nat, ghost st: Store) returns (plan: Files)
    requires VersionOk(version) && st.levels == Sets(version) && WellFormed(st) && UniqueSequences(All(st))
    requires forall i, j :: 0 <= i < j < |version[0]| ==> version[0][i].number != version[0][j].number
    requires forall x :: x in st.mem + st.imm ==> !Visible(x, u, n)
    ensures Decides(plan, st, u, n)
    ensures forall f :: f in plan ==> exists l :: 0 <= l < NUM_LEVELS && f in version[l]
  {
    hide WellFormed, UniqueSequences, All, AllValid, SortedFiles, Unique, Newest;
    plan := Level0Candidates(version[0], u);
    Level0Decides(version, st, u, n, plan);
    for l := 1 to NUM_LEVELS
      invariant forall i :: 0 <= i < |plan| && Answers(plan, i, u, n) ==> Newest(All(st), u, n) == Newest(Elements(plan[i].entries), u, n)
      invariant Silent(plan, u, n) ==> NothingAbove(st, l, u, n)
      invariant forall f :: f in plan ==> exists k :: 0 <= k < NUM_LEVELS && f in version[k]
    {
      var index := FindFile(version[l], SeekKey(u, n));
      LevelLookup(version[l], u, n, index);
      if index < |version[l]| && version[l][index].smallest.user <= u {
        OneMore(version, st, u, n, plan, l, index);
        plan := plan + [version[l][index]];
      } else {
        NothingInLevel(version, l, u, n, st);
      }
    }
    if Silent(plan, u, n) {
      NothingAnywhere(st, u, n);
    }
  }

  lemma OneMore(version: seq<Files>, st: Store, u: UserKey, n: nat, plan: Files, l: nat, index: nat)
    requires VersionOk(version) && st.levels == Sets(version) && WellFormed(st) && UniqueSequences(All(st))
    requires forall x :: x in st.mem + st.imm ==> !Visible(x, u, n)
    requires 1 <= l < NUM_LEVELS && index < |version[l]| && version[l][index].smallest.user <= u
    requires LookAt(version[l], index, u, n) == Newest(Contents(SetOf(version[l])), u, n)
    requires forall i :: 0 <= i < |plan| && Answers(plan, i, u, n) ==> Newest(All(st), u, n) == Newest(Elements(plan[i].entries), u, n)
    requires Silent(plan, u, n) ==> NothingAbove(st, l, u, n)
    ensures var plan' := plan + [version[l][index]];
      && (forall i :: 0 <= i < |plan'| && Answers(plan', i, u, n) ==> Newest(All(st), u, n) == Newest(Elements(plan'[i].entries), u, n))
      && (Silent(plan', u, n) ==> NothingAbove(st, l + 1, u, n))
  {
    hide WellFormed, UniqueSequences, All, SortedFiles, Newest, Lookup;
    var f, plan' := version[l][index], plan + [version[l][index]];
    TableLookup(version[l], index, u, n);
    assert plan'[..|plan|] == plan;
    forall i | 0 <= i < |plan'| && Answers(plan', i, u, n)
      ensures Newest(All(st), u, n) == Newest(Elements(plan'[i].entries), u, n)
    {
      if i < |plan| {
        assert plan'[..i] == plan[..i];
      } else {
        LevelWins(st, l, u, n, Newest(Elements(f.entries), u, n).value);
      }
    }
    if Silent(plan', u, n) {
      assert plan'[|plan|] == f;
      forall i | 0 <= i < |plan| ensures Newest(Elements(plan[i].entries), u, n) == None {
        assert plan'[i] == plan[i];
      }
      NothingInLevel(version, l, u, n, st);
    }
  }

  // ---------------------------------------------------------------- from bytes to the history

  /** A finished table becomes a file that answers for what was added to it. */
  method StoreTable(cache: TableCache, number: nat, b: TableBuilder) returns (ghost im: Image)
    requires cache.Ok() && number !in cache.files && b.Ok() && |cache.name| < LIMIT32
    modifies cache`files, cache`images, b, b.filterBlock, b.dataBlock, b.indexBlock
    ensures cache.Ok() && (ImageFits(im) ==> number in cache.images && RunOf(cache.images[number]) == TableFormat.Run(old(b.Entries())))
    ensures forall n :: n in old(cache.images) ==> n in cache.images && cache.images[n] == old(cache.images)[n]
  {
    hide IsTable, ImageFits, TableBuilder.Ok, TableReading.Table.Opened;
    im := b.Finish(cache.name);
    cache.AddFile(number, b.dest, im);
  }

  /** The files of a version hold its tables. */
  ghost predicate Backed(version: seq<Files>, images: map<nat, Image>) {
    forall l, f :: 0 <= l < |version| && f in version[l] ==> f.number in images && RunOf(images[f.number]) == f.entries
  }

  /** The search of a version in the bytes of its files. */
  method VersionGetBytes(cache: TableCache, version: seq<Files>, u: Bytes, n: nat, ghost st: Store) returns (found: Option<Entry>)
    requires cache.Ok() && Backed(version, cache.images) && n <= MAX_SEQUENCE
    requires VersionOk(version) && st.levels == Sets(version) && WellFormed(st) && UniqueSequences(All(st))
    requires forall i, j :: 0 <= i < j < |version[0]| ==> version[0][i].number != version[0][j].number
    requires forall x :: x in st.mem + st.imm ==> !Visible(x, Bytewise.Rank(u), n)
    modifies cache`tables
    ensures cache.Ok() && found == Newest(All(st), Bytewise.Rank(u), n)
  {
    hide WellFormed, UniqueSequences, All, Unique, Newest, Lookup, Bytewise.Rank, TableCache.Ok;
    var plan := FilesToSearch(version, Bytewise.Rank(u), n, st);
    for i := 0 to |plan|
      invariant cache.Ok() && Silent(plan[..i], Bytewise.Rank(u), n)
    {
      assert plan[..i + 1] == plan[..i] + [plan[i]] && plan[i] in plan;
      var l :| 0 <= l < NUM_LEVELS && plan[i] in version[l];
      var at :| 0 <= at < |version[l]| && version[l][at] == plan[i];
      TableLookup(version[l], at, Bytewise.Rank(u), n);
      found := cache.Get(plan[i].number, u, n);
      if found.Some? {
        assert Answers(plan, i, Bytewise.Rank(u), n);
        return;
      }
    }
    assert plan[..|plan|] == plan;
    found := None;
  }

  /** A read of the engine that goes down to the bytes of its table files: it shows what a replay
    * of the history shows, and so what the engine's own read of abstract tables shows. */
  method GetFromFiles(db: Db, cache: TableCache, u: Bytes, snapshot: Option<nat>) returns (value: Option<Value>)
    requires db.Ok() && (snapshot.Some? ==> snapshot.value in db.snapshots)
    requires cache.Ok() && Backed(db.version, cache.images)
    modifies cache`tables
    ensures cache.Ok() && db.Ok() && value == Replay(db.history, Bytewise.Rank(u), if snapshot.Some? then snapshot.value else db.last)
  {
    hide Inv, WellFormed, UniqueSequences, Newest, Replay, Sets, VersionOk, Bytewise.Rank, TableCache.Ok, Backed, All;
    var n := if snapshot.Some? then snapshot.value else db.last;
    ReaderFacts(db.State(), n);
    StoreFacts(db.State());
    NumbersFit(db.State());
    var found := db.MemtableGet(Bytewise.Rank(u), n);
    if found.None? {
      db.NumbersAreDistinct();
      found := VersionGetBytes(cache, db.version, u, n, db.State().store);
    }
    value := ValueOf(found);
  }

  lemma NumbersFit(s: State)
    requires Inv(s)
    ensures |s.history| < MAX_SEQUENCE
  {
  }
}
