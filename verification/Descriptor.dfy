/** The descriptor: a snapshot of the version, then one record for every edit since.
  *
  * A record names files by number and key range; what they hold is on disk under their
  * numbers. Recovery replays all records through one builder. Here it is shown that this
  * gives back the version that was live when the last record was written.
  */
module Descriptor {
  import opened Keys
  import opened Layers
  import opened VersionEdits

  datatype FileMeta = FileMeta(number: nat, size: nat, smallest: InternalKey, largest: InternalKey)

  datatype EditRecord = EditRecord(
    deleted: set<(nat, nat)>,
    added: seq<(nat, FileMeta)>,
    logNumber: Option<nat>,
    nextFile: Option<nat>,
    last: Option<nat>)

  /** What table files hold, by number. */
  type TableFiles = map<nat, seq<Entry>>

  /** Replaying the descriptor yields, besides the version, the last value given for each
    * counter; without all three the descriptor is corrupt. */
  datatype Manifest = Manifest(edits: seq<EditRecord>) {
    predicate Complete() {
      GivenLogNumber(edits).Some? && GivenNextFile(edits).Some? && GivenLast(edits).Some?
    }

    function LogNumber(): nat { Or0(GivenLogNumber(edits)) }

    function NextFile(): nat { Or0(GivenNextFile(edits)) }

    function Last(): nat { Or0(GivenLast(edits)) }
  }

  function Or0(n: Option<nat>): nat {
    if n.Some? then n.value else 0
  }

  function Later(before: Option<nat>, given: Option<nat>): Option<nat> {
    if given.Some? then given else before
  }

  function GivenLogNumber(edits: seq<EditRecord>): Option<nat> {
    if edits == [] then None else Later(GivenLogNumber(edits[..|edits| - 1]), edits[|edits| - 1].logNumber)
  }

  function GivenNextFile(edits: seq<EditRecord>): Option<nat> {
    if edits == [] then None else Later(GivenNextFile(edits[..|edits| - 1]), edits[|edits| - 1].nextFile)
  }

  function GivenLast(edits: seq<EditRecord>): Option<nat> {
    if edits == [] then None else Later(GivenLast(edits[..|edits| - 1]), edits[|edits| - 1].last)
  }

  function MetaOf(t: Table): FileMeta {
    FileMeta(t.number, t.size, t.smallest, t.largest)
  }

  /** The table a file number stands for, read back from disk. */
  function Load(m: FileMeta, files: TableFiles): Table {
    Table(m.number, m.size, m.smallest, m.largest, if m.number in files then files[m.number] else [])
  }

  function MetasOf(added: seq<(nat, Table)>): seq<(nat, FileMeta)> {
    seq(|added|, i requires 0 <= i < |added| => (added[i].0, MetaOf(added[i].1)))
  }

  function LoadAll(added: seq<(nat, FileMeta)>, files: TableFiles): seq<(nat, Table)> {
    seq(|added|, i requires 0 <= i < |added| => (added[i].0, Load(added[i].1, files)))
  }

  /** The edit a record describes. */
  function AsEdit(r: EditRecord, files: TableFiles): Edit {
    Edit(r.deleted, LoadAll(r.added, files))
  }

  function AsEdits(edits: seq<EditRecord>, files: TableFiles): seq<Edit> {
    seq(|edits|, i requires 0 <= i < |edits| => AsEdit(edits[i], files))
  }

  /** Every record the engine logs after the snapshot carries all three counters. */
  function RecordOf(e: Edit, logNumber: nat, nextFile: nat, last: nat): EditRecord {
    EditRecord(e.deleted, MetasOf(e.added), Some(logNumber), Some(nextFile), Some(last))
  }

  /** The files of the version, and no counters. */
  function Snapshot(files: seq<(nat, Table)>): EditRecord {
    EditRecord({}, MetasOf(files), None, None, None)
  }

  // ---------------------------------------------------------------- what replaying yields

  /** The records applied one at a time to an empty version. */
  function Described(edits: seq<EditRecord>, l: nat, files: TableFiles): set<Table> {
    ApplyEdits({}, l, AsEdits(edits, files))
  }

  /** All records accumulated by one builder over an empty version, saved once. */
  function ReplayedLevel(edits: seq<EditRecord>, l: nat, files: TableFiles): set<Table> {
    Saved({}, AccumulateAll(NOTHING, l, AsEdits(edits, files)))
  }

  function ReplayedLevels(edits: seq<EditRecord>, files: TableFiles): (levels: seq<set<Table>>)
    ensures |levels| == NUM_LEVELS
  {
    seq(NUM_LEVELS, l requires 0 <= l < NUM_LEVELS => ReplayedLevel(edits, l, files))
  }

  ghost predicate Names(edits: seq<EditRecord>, m: FileMeta) {
    exists k, i :: 0 <= k < |edits| && 0 <= i < |edits[k].added| && edits[k].added[i].1 == m
  }

  /** A file number names one file. */
  ghost predicate OneFileANumber(edits: seq<EditRecord>) {
    forall m, o :: Names(edits, m) && Names(edits, o) && m.number == o.number ==> m == o
  }

  ghost predicate NumbersBelow(edits: seq<EditRecord>, next: nat) {
    forall m :: Names(edits, m) ==> m.number < next
  }

  ghost predicate RecordLevels(r: EditRecord) {
    && (forall d :: d in r.deleted ==> d.0 < NUM_LEVELS)
    && (forall a :: a in r.added ==> a.0 < NUM_LEVELS)
  }

  /** The descriptor describes these levels. */
  ghost predicate Describes(edits: seq<EditRecord>, files: TableFiles, levels: seq<set<Table>>, next: nat) {
    && |levels| == NUM_LEVELS
    && (forall l :: 0 <= l < NUM_LEVELS ==> Described(edits, l, files) == levels[l])
    && OneFileANumber(edits) && NumbersBelow(edits, next)
    && (forall r :: r in edits ==> RecordLevels(r))
  }

  // ---------------------------------------------------------------- one builder is enough

  lemma AddedWasNamed(edits: seq<EditRecord>, k: nat, l: nat, files: TableFiles, t: Table) returns (m: FileMeta)
    requires k < |edits| && t in AddedAt(AsEdit(edits[k], files), l)
    ensures Names(edits, m) && t == Load(m, files)
  {
    var a :| a in LoadAll(edits[k].added, files) && a.0 == l && a.1 == t;
    var i :| 0 <= i < |edits[k].added| && LoadAll(edits[k].added, files)[i] == a;
    m := edits[k].added[i].1;
  }

  lemma {:induction false} AccumulatedWasNamed(edits: seq<EditRecord>, k: nat, l: nat, files: TableFiles, t: Table) returns (m: FileMeta)
    requires k <= |edits| && t in AccumulateAll(NOTHING, l, AsEdits(edits, files)[..k]).added
    ensures Names(edits, m) && t == Load(m, files)
  {
    hide Names;
    var all := AsEdits(edits, files);
    if k > 0 {
      assert all[..k][..k - 1] == all[..k - 1];
      AddAllIs(Started(AccumulateAll(NOTHING, l, all[..k - 1]), l, all[k - 1]), l, all[k - 1].added);
      if t in AddedAt(all[k - 1], l) {
        m := AddedWasNamed(edits, k - 1, l, files, t);
      } else {
        m := AccumulatedWasNamed(edits, k - 1, l, files, t);
      }
    }
  }

  /** Since numbers are never reused, no record re-adds a number with another file. */
  lemma NumbersNeverReadd(edits: seq<EditRecord>, l: nat, files: TableFiles)
    requires OneFileANumber(edits)
    ensures NeverReadds({}, l, AsEdits(edits, files))
  {
    hide Names;
    var all := AsEdits(edits, files);
    forall k | 0 <= k < |all| ensures !Readds({}, AccumulateAll(NOTHING, l, all[..k]), l, all[k]) {
      if Readds({}, AccumulateAll(NOTHING, l, all[..k]), l, all[k]) {
        var p := AccumulateAll(NOTHING, l, all[..k]);
        var t :| t in {} + p.added && t.number in p.deleted && t.number in Numbers(AddedAt(all[k], l)) && t !in AddedAt(all[k], l);
        var u :| u in AddedAt(all[k], l) && u.number == t.number;
        var m := AccumulatedWasNamed(edits, k, l, files, t);
        var o := AddedWasNamed(edits, k, l, files, u);
        assert false;
      }
    }
  }

  /** Replaying the whole descriptor through one builder gives the version it describes. */
  lemma ReplayIsDescribed(edits: seq<EditRecord>, files: TableFiles, levels: seq<set<Table>>, next: nat)
    requires Describes(edits, files, levels, next)
    ensures ReplayedLevels(edits, files) == levels
  {
    hide OneFileANumber, NeverReadds, AccumulateAll, ApplyEdits;
    forall l | 0 <= l < NUM_LEVELS ensures ReplayedLevels(edits, files)[l] == levels[l] {
      NumbersNeverReadd(edits, l, files);
      ReplayAgreesWithLiveVersion({}, l, AsEdits(edits, files));
    }
  }

  // ---------------------------------------------------------------- reading the files again

  function Reloaded(tables: set<Table>, files: TableFiles): set<Table> {
    set t | t in tables :: Load(MetaOf(t), files)
  }

  function ReloadedEdit(e: Edit, files: TableFiles): Edit {
    Edit(e.deleted, LoadAll(MetasOf(e.added), files))
  }

  lemma ReloadedAdded(e: Edit, l: nat, files: TableFiles)
    ensures AddedAt(ReloadedEdit(e, files), l) == Reloaded(AddedAt(e, l), files)
    ensures Numbers(AddedAt(ReloadedEdit(e, files), l)) == Numbers(AddedAt(e, l))
    ensures DeletedAt(ReloadedEdit(e, files), l) == DeletedAt(e, l)
  {
    var e' := ReloadedEdit(e, files);
    forall a | a in e.added && a.0 == l ensures Load(MetaOf(a.1), files) in AddedAt(e', l) {
      var i :| 0 <= i < |e.added| && e.added[i] == a;
      assert e'.added[i] in e'.added;
    }
    forall a | a in e'.added && a.0 == l ensures a.1 in Reloaded(AddedAt(e, l), files) {
      var i :| 0 <= i < |e'.added| && e'.added[i] == a;
      assert e.added[i] in e.added && e.added[i].1 in AddedAt(e, l);
    }
    NumbersReloaded(AddedAt(e, l), files);
  }

  lemma NumbersReloaded(tables: set<Table>, files: TableFiles)
    ensures Numbers(Reloaded(tables, files)) == Numbers(tables)
  {
    forall t | t in tables ensures t.number in Numbers(Reloaded(tables, files)) {
      assert Load(MetaOf(t), files) in Reloaded(tables, files);
    }
  }

  /** Which tables an edit removes and adds does not depend on what they hold. */
  lemma ReloadedApply(tables: set<Table>, l: nat, e: Edit, files: TableFiles)
    ensures ApplyEdit(Reloaded(tables, files), l, ReloadedEdit(e, files)) == Reloaded(ApplyEdit(tables, l, e), files)
  {
    hide AddAll, AddedAt, DeletedAt, ReloadedEdit;
    var e' := ReloadedEdit(e, files);
    AppliedIs(tables, l, e);
    AppliedIs(Reloaded(tables, files), l, e');
    ReloadedAdded(e, l, files);
    ReloadedFilter(tables + AddedAt(e, l), DeletedAt(e, l) - Numbers(AddedAt(e, l)), files);
    assert Reloaded(tables + AddedAt(e, l), files) == Reloaded(tables, files) + Reloaded(AddedAt(e, l), files);
  }

  lemma AppliedIs(tables: set<Table>, l: nat, e: Edit)
    ensures ApplyEdit(tables, l, e) == Without(tables + AddedAt(e, l), DeletedAt(e, l) - Numbers(AddedAt(e, l)))
  {
    AddAllIs(Started(NOTHING, l, e), l, e.added);
  }

  function Without(tables: set<Table>, numbers: set<nat>): set<Table> {
    set t | t in tables && t.number !in numbers
  }

  lemma ReloadedFilter(tables: set<Table>, numbers: set<nat>, files: TableFiles)
    ensures Without(Reloaded(tables, files), numbers) == Reloaded(Without(tables, numbers), files)
  {
    forall t | t in Without(Reloaded(tables, files), numbers) ensures t in Reloaded(Without(tables, numbers), files) {
      var u :| u in tables && t == Load(MetaOf(u), files);
      assert u in Without(tables, numbers);
    }
  }

  lemma ReloadedRecord(r: EditRecord, files: TableFiles, files': TableFiles)
    ensures ReloadedEdit(AsEdit(r, files), files') == AsEdit(r, files')
  {
    var added := ReloadedEdit(AsEdit(r, files), files').added;
    assert forall i :: 0 <= i < |r.added| ==> added[i] == AsEdit(r, files').added[i];
  }

  lemma {:induction false} DescribedReloads(edits: seq<EditRecord>, l: nat, files: TableFiles, files': TableFiles)
    ensures Described(edits, l, files') == Reloaded(Described(edits, l, files), files')
  {
    hide ApplyEdit, AsEdit, Reloaded;
    if edits == [] {
      assert Reloaded({}, files') == {} by { NothingReloaded(files'); }
    } else {
      var n := |edits| - 1;
      DescribedStep(edits[..n], edits[n], l, files);
      DescribedStep(edits[..n], edits[n], l, files');
      assert edits == edits[..n] + [edits[n]];
      DescribedReloads(edits[..n], l, files, files');
      ReloadedApply(Described(edits[..n], l, files), l, AsEdit(edits[n], files), files');
      ReloadedRecord(edits[n], files, files');
    }
  }

  lemma NothingReloaded(files: TableFiles)
    ensures Reloaded({}, files) == {}
  {
  }

  lemma DescribedStep(edits: seq<EditRecord>, r: EditRecord, l: nat, files: TableFiles)
    ensures Described(edits + [r], l, files) == ApplyEdit(Described(edits, l, files), l, AsEdit(r, files))
  {
    hide ApplyEdit;
    var all := AsEdits(edits + [r], files);
    assert all[..|edits|] == AsEdits(edits, files);
  }

  /** Files hold what the tables of these levels hold. */
  ghost predicate Holding(levels: seq<set<Table>>, files: TableFiles) {
    forall l, t :: 0 <= l < |levels| && t in levels[l] ==> Load(MetaOf(t), files) == t
  }

  /** Only what live files hold matters. */
  lemma DescribesAfterFileChange(edits: seq<EditRecord>, files: TableFiles, files': TableFiles, levels: seq<set<Table>>, next: nat, next': nat)
    requires Describes(edits, files, levels, next) && Holding(levels, files') && next <= next'
    ensures Describes(edits, files', levels, next')
  {
    hide OneFileANumber, RecordLevels, Names;
    forall l | 0 <= l < NUM_LEVELS ensures Described(edits, l, files') == levels[l] {
      DescribedReloads(edits, l, files, files');
      assert Reloaded(levels[l], files') == levels[l] by {
        forall t | t in levels[l] ensures Load(MetaOf(t), files') == t {}
      }
    }
  }

  // ---------------------------------------------------------------- one more record

  lemma {:induction false} DescribedWasNamed(edits: seq<EditRecord>, l: nat, files: TableFiles, t: Table)
    requires t in Described(edits, l, files)
    ensures Names(edits, MetaOf(t))
  {
    hide ApplyEdit;
    if edits != [] {
      var n := |edits| - 1;
      assert edits == edits[..n] + [edits[n]];
      DescribedStep(edits[..n], edits[n], l, files);
      AppliedIs(Described(edits[..n], l, files), l, AsEdit(edits[n], files));
      if t in Described(edits[..n], l, files) {
        DescribedWasNamed(edits[..n], l, files, t);
        NamesGrow(edits[..n], edits[n], MetaOf(t));
      } else {
        var m := AddedWasNamed(edits, n, l, files, t);
        assert m == MetaOf(t);
      }
    }
  }

  lemma NamesGrow(edits: seq<EditRecord>, r: EditRecord, m: FileMeta)
    ensures Names(edits + [r], m) <==> Names(edits, m) || Names([r], m)
  {
    var more := edits + [r];
    if Names(edits, m) {
      var k, i :| 0 <= k < |edits| && 0 <= i < |edits[k].added| && edits[k].added[i].1 == m;
      assert more[k].added[i].1 == m;
    }
    if Names([r], m) {
      var k, i :| 0 <= k < 1 && 0 <= i < |[r][k].added| && [r][k].added[i].1 == m;
      assert more[|edits|].added[i].1 == m;
    }
    if Names(more, m) {
      var k, i :| 0 <= k < |more| && 0 <= i < |more[k].added| && more[k].added[i].1 == m;
      if k == |edits| {
        assert [r][0].added[i].1 == m;
      } else {
        assert edits[k].added[i].1 == m;
      }
    }
  }

  /** The files an edit adds: already live, or numbered from `next` up. */
  ghost predicate AddsKnown(e: Edit, levels: seq<set<Table>>, next: nat, next': nat) {
    && (forall a :: a in e.added ==> a.0 < NUM_LEVELS && a.1.number < next')
    && (forall a :: a in e.added ==> a.1.number >= next || exists l :: 0 <= l < |levels| && a.1 in levels[l])
    && (forall a, b :: a in e.added && b in e.added && a.1.number == b.1.number ==> a.1 == b.1)
    && (forall d :: d in e.deleted ==> d.0 < NUM_LEVELS)
  }

  lemma RecordNames(r: EditRecord, e: Edit, m: FileMeta) returns (a: (nat, Table))
    requires r.added == MetasOf(e.added) && Names([r], m)
    ensures a in e.added && MetaOf(a.1) == m
  {
    var k, i :| 0 <= k < 1 && 0 <= i < |[r][k].added| && [r][k].added[i].1 == m;
    a := e.added[i];
  }

  /** A name in a longer descriptor whose number is old was there before. */
  lemma NamedBefore(edits: seq<EditRecord>, r: EditRecord, e: Edit, files: TableFiles, levels: seq<set<Table>>, next: nat, next': nat, m: FileMeta)
    requires Describes(edits, files, levels, next) && r.added == MetasOf(e.added) && AddsKnown(e, levels, next, next')
    requires Names(edits + [r], m) && m.number < next
    ensures Names(edits, m)
  {
    hide OneFileANumber, NumbersBelow, RecordLevels, Names;
    NamesGrow(edits, r, m);
    if !Names(edits, m) {
      var a := RecordNames(r, e, m);
      var l :| 0 <= l < |levels| && a.1 in levels[l];
      DescribedWasNamed(edits, l, files, a.1);
    }
  }

  lemma NumbersStayNames(edits: seq<EditRecord>, r: EditRecord, e: Edit, files: TableFiles, levels: seq<set<Table>>, next: nat, next': nat)
    requires Describes(edits, files, levels, next) && next <= next'
    requires r.added == MetasOf(e.added) && AddsKnown(e, levels, next, next')
    ensures OneFileANumber(edits + [r]) && NumbersBelow(edits + [r], next')
  {
    hide Described, RecordLevels, Names;
    forall m | Names(edits + [r], m) ensures m.number < next' {
      NamesGrow(edits, r, m);
      if Names([r], m) {
        var a := RecordNames(r, e, m);
      }
    }
    forall m, o | Names(edits + [r], m) && Names(edits + [r], o) && m.number == o.number ensures m == o {
      if m.number < next {
        NamedBefore(edits, r, e, files, levels, next, next', m);
        NamedBefore(edits, r, e, files, levels, next, next', o);
      } else {
        NamesGrow(edits, r, m);
        NamesGrow(edits, r, o);
        var a := RecordNames(r, e, m);
        var b := RecordNames(r, e, o);
      }
    }
  }

  /** What the edit adds is on disk. */
  ghost predicate AddsWritten(e: Edit, files: TableFiles) {
    forall a :: a in e.added ==> Load(MetaOf(a.1), files) == a.1
  }

  lemma RecordedEdit(r: EditRecord, e: Edit, files: TableFiles)
    requires r.deleted == e.deleted && r.added == MetasOf(e.added) && AddsWritten(e, files)
    ensures AsEdit(r, files) == e
  {
    forall i | 0 <= i < |e.added| ensures LoadAll(r.added, files)[i] == e.added[i] {
      assert e.added[i] in e.added;
    }
  }

  /** Appending the record of an edit describes the edited levels. */
  lemma DescribesAfterEdit(edits: seq<EditRecord>, r: EditRecord, e: Edit, files: TableFiles, levels: seq<set<Table>>, next: nat, next': nat)
    requires Describes(edits, files, levels, next) && next <= next'
    requires r.deleted == e.deleted && r.added == MetasOf(e.added) && AddsWritten(e, files) && AddsKnown(e, levels, next, next')
    ensures Describes(edits + [r], files, Edited(levels, e), next')
  {
    NumbersStayNames(edits, r, e, files, levels, next, next');
    hide OneFileANumber, NumbersBelow, Names, AddsWritten, Described, ApplyEdit;
    RecordedEdit(r, e, files);
    forall l | 0 <= l < NUM_LEVELS ensures Described(edits + [r], l, files) == Edited(levels, e)[l] {
      DescribedStep(edits, r, l, files);
    }
    forall x | x in edits + [r] ensures RecordLevels(x) {
      if x == r {
        RecordLevelsOf(r, e, levels, next, next');
      }
    }
  }

  lemma RecordLevelsOf(r: EditRecord, e: Edit, levels: seq<set<Table>>, next: nat, next': nat)
    requires r.deleted == e.deleted && r.added == MetasOf(e.added) && AddsKnown(e, levels, next, next')
    ensures RecordLevels(r)
  {
    forall a | a in r.added ensures a.0 < NUM_LEVELS {
      var i :| 0 <= i < |r.added| && r.added[i] == a;
      assert e.added[i] in e.added;
    }
  }

  // ---------------------------------------------------------------- a new descriptor

  /** Every table of the version, each with its level. */
  ghost predicate Lists(files: seq<(nat, Table)>, levels: seq<set<Table>>) {
    forall a :: a in files <==> a.0 < |levels| && a.1 in levels[a.0]
  }

  function NoLevels(): seq<set<Table>> {
    seq(NUM_LEVELS, l => {})
  }

  lemma NothingDescribed(files: TableFiles)
    ensures Describes([], files, NoLevels(), 0)
  {
  }

  /** A snapshot describes the version it lists. */
  lemma SnapshotDescribes(listed: seq<(nat, Table)>, files: TableFiles, levels: seq<set<Table>>, next: nat)
    requires |levels| == NUM_LEVELS && NumbersUnique(levels) && Lists(listed, levels) && Holding(levels, files)
    requires forall l, t :: 0 <= l < |levels| && t in levels[l] ==> t.number < next
    ensures Describes([Snapshot(listed)], files, levels, next)
  {
    hide Describes, ApplyEdit;
    var e := Edit({}, listed);
    NothingDescribed(files);
    assert AddsKnown(e, NoLevels(), 0, next);
    DescribesAfterEdit([], Snapshot(listed), e, files, NoLevels(), 0, next);
    assert [] + [Snapshot(listed)] == [Snapshot(listed)];
    forall l | 0 <= l < NUM_LEVELS ensures Edited(NoLevels(), e)[l] == levels[l] {
      ApplyEditIs({}, l, e);
      assert forall t :: t in levels[l] ==> (l, t) in listed;
      assert AddedAt(e, l) == levels[l];
    }
    assert Edited(NoLevels(), e) == levels;
  }
}
