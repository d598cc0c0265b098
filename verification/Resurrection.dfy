/** A run of the engine after which compaction brings a deleted value back.
  *
  * The boundary rule closes the upper inputs of a compaction, not the lower ones. While a
  * snapshot is held, an output table may end between two versions of one user key. Once the
  * snapshot is gone, a later compaction may pick the table with the newer version alone and
  * drop a tombstone there.
  */
module Resurrection {
  import opened Keys
  import opened Layers
  import opened Compaction
  import opened History
  import opened Engine
  import opened EngineInvariant
  import opened EngineTheorems
  import opened Descriptor
  import opened VersionSet

  const PUT2 := Entry(InternalKey(2.0, 1, Put), [7])
  const OLD1 := Entry(InternalKey(1.0, 2, Put), [])
  const DELETE2 := Entry(InternalKey(2.0, 3, Deletion), [])
  const NEW1 := Entry(InternalKey(1.0, 4, Put), [])

  const OPS: seq<Op> := [Op(2.0, Put, [7]), Op(1.0, Put, []), Op(2.0, Deletion, []), Op(1.0, Put, [])]

  /** Flushed first and moved down to level 3. */
  const BASE := Table(5, 1, PUT2.key, PUT2.key, [PUT2])
  /** Flushed next; then merged with BASE into two tables, cut between the versions of "2.0". */
  const FIRST := Table(7, 1, OLD1.key, DELETE2.key, [OLD1, DELETE2])
  const LOWER := Table(8, 1, OLD1.key, DELETE2.key, [OLD1, DELETE2])
  const REST := Table(9, 1, PUT2.key, PUT2.key, [PUT2])
  const UPPER := Table(11, 1, NEW1.key, NEW1.key, [NEW1])

  const DOWN := Job(2, {BASE}, {}, 2.0, 2.0)
  const REWRITE := Job(2, {FIRST}, {BASE}, 1.0, 2.0)
  const CULPRIT := Job(2, {UPPER}, {LOWER}, 1.0, 1.0)

  function Levels(two: set<Table>, three: set<Table>): seq<set<Table>> {
    [{}, {}, two, three, {}, {}, {}]
  }

  const FROM_RELEASE: seq<Action> := [ReleaseSnapshot(0)] + ([Write(OPS[3..4])] + ([Switch] + ([Flush(UPPER, 2)] + [])))
  const FROM_SWITCH: seq<Action> := [Switch] + ([Flush(FIRST, 2)] + ([Compact(REWRITE, [LOWER, REST], 10)] + FROM_RELEASE))
  const FROM_MOVE: seq<Action> := [Move(DOWN, BASE)] + ([Write(OPS[1..3])] + FROM_SWITCH)
  const RUN: seq<Action> := [Write(OPS[0..1])] + ([TakeSnapshot] + ([Switch] + ([Flush(BASE, 2)] + FROM_MOVE)))

  /** Where the run stands after some of its actions. */
  ghost predicate Stage(s: State, ops: nat, mem: set<Entry>, imm: Option<set<Entry>>, levels: seq<set<Table>>, snapshots: seq<nat>, next: nat)
    requires ops <= |OPS|
  {
    && StoreInv(s) && Inv(s) && s.history == OPS[..ops] && s.last == ops && s.snapshots == snapshots && s.nextFile == next
    && s.store == Store(mem, if imm.Some? then imm.value else {}, levels) && s.hasImm == imm.Some?
  }

  lemma LegalStep(s: State, a: Action, rest: seq<Action>)
    requires Inv(s) && Enabled(s, a) && Inv(Apply(s, a)) && Legal(Apply(s, a), rest)
    ensures Legal(s, [a] + rest) && Run(s, [a] + rest) == Run(Apply(s, a), rest)
  {
    assert ([a] + rest)[1..] == rest;
  }

  lemma Tables()
    ensures BASE.Valid() && FIRST.Valid() && LOWER.Valid() && REST.Valid() && UPPER.Valid()
  {
  }

  lemma Written(s: State, from: nat, to: nat, mem: set<Entry>, levels: seq<set<Table>>, snapshots: seq<nat>, next: nat)
    requires from <= to <= |OPS| && Stage(s, from, mem, None, levels, snapshots, next)
    ensures Enabled(s, Write(OPS[from..to]))
    ensures Stage(Apply(s, Write(OPS[from..to])), to, mem + EntriesOf(OPS, from, to), None, levels, snapshots, next)
  {
    hide WellFormed, Faithful, DiskInv;
    var ops := OPS[from..to];
    assert OPS[..from] + ops == OPS[..to];
    WriteKeepsInv(s, ops);
    assert EntriesOf(OPS[..to], from, to) == EntriesOf(OPS, from, to) by {
      EntriesExtend(OPS[..to], OPS[to..], from, to);
      assert OPS[..to] + OPS[to..] == OPS;
    }
  }

  lemma Switched(s: State, ops: nat, mem: set<Entry>, levels: seq<set<Table>>, snapshots: seq<nat>, next: nat)
    requires ops <= |OPS| && Stage(s, ops, mem, None, levels, snapshots, next)
    ensures Enabled(s, Switch) && Stage(Apply(s, Switch), ops, {}, Some(mem), levels, snapshots, next + 1)
  {
    hide WellFormed, Faithful, DiskInv;
    SwitchKeepsInv(s);
  }

  lemma Flushed(s: State, ops: nat, levels: seq<set<Table>>, snapshots: seq<nat>, t: Table)
    requires ops <= |OPS| && Stage(s, ops, {}, Some(Elements(t.entries)), levels, snapshots, t.number)
    requires t.Valid() && |levels| == NUM_LEVELS && MayFlushTo(levels, t, 2)
    ensures Enabled(s, Flush(t, 2)) && Stage(Apply(s, Flush(t, 2)), ops, {}, None, AddTo(levels, 2, t), snapshots, t.number + 1)
  {
    hide WellFormed, Faithful, DiskInv, MayFlushTo, AddTo, Table.Valid;
    FlushKeepsInv(s, t, 2);
  }

  // ---------------------------------------------------------------- the two compactions

  lemma OneTable(t: Table)
    ensures Contents({t}) == Elements(t.entries) && Contents({}) == {}
  {
  }

  lemma TwoTables(t: Table, o: Table)
    ensures Contents({t, o}) == Elements(t.entries) + Elements(o.entries)
  {
  }

  lemma ElementsListed(a: Entry, b: Entry)
    ensures Elements([a]) == {a} && Elements([a, b]) == {a, b}
  {
    assert [a, b][0] == a && [a, b][1] == b && [a][0] == a;
  }

  lemma RewriteInputs()
    ensures Inputs(REWRITE) == {OLD1, DELETE2, PUT2} && Contents({LOWER, REST}) == {OLD1, DELETE2, PUT2}
  {
    OneTable(FIRST);
    OneTable(BASE);
    TwoTables(LOWER, REST);
    ElementsListed(OLD1, DELETE2);
    ElementsListed(PUT2, PUT2);
    hide Contents, Elements;
  }

  lemma RewriteSelected(levels: seq<set<Table>>)
    requires levels == Levels({FIRST}, {BASE})
    ensures Selected(levels, REWRITE) && NewerStays(levels[2], {FIRST})
  {
    LevelsAre({FIRST}, {BASE});
    hide Levels;
  }

  /** With the snapshot held, the older "2.0" is kept, and so is the tombstone above it. */
  lemma RewriteKeepsAll(levels: seq<set<Table>>)
    requires levels == Levels({FIRST}, {BASE})
    ensures Outputs(REWRITE, {LOWER, REST}) && Contents({LOWER, REST}) == Kept(levels, REWRITE, 1)
  {
    hide Contents, Elements, Inputs, Table.Valid, Levels;
    Tables();
    RewriteInputs();
    assert Kept(levels, REWRITE, 1) == Inputs(REWRITE);
    assert Disjoint({LOWER, REST});
  }

  lemma RewrittenLevels()
    ensures Compacted(Levels({FIRST}, {BASE}), REWRITE, {LOWER, REST}) == Levels({}, {LOWER, REST})
    ensures Compacted(Levels({BASE}, {}), DOWN, {BASE}) == Levels({}, {BASE})
  {
    forall l | 0 <= l < NUM_LEVELS
      ensures Compacted(Levels({FIRST}, {BASE}), REWRITE, {LOWER, REST})[l] == Levels({}, {LOWER, REST})[l]
      ensures Compacted(Levels({BASE}, {}), DOWN, {BASE})[l] == Levels({}, {BASE})[l]
    {
    }
  }

  lemma LevelGains(three: set<Table>, t: Table)
    ensures AddTo(Levels({}, three), 2, t) == Levels({t}, three)
  {
    forall l | 0 <= l < NUM_LEVELS ensures AddTo(Levels({}, three), 2, t)[l] == Levels({t}, three)[l] {}
  }

  lemma Rewritten(s: State)
    requires Stage(s, 3, {}, None, Levels({FIRST}, {BASE}), [1], 8)
    ensures Enabled(s, Compact(REWRITE, [LOWER, REST], 10))
    ensures Stage(Apply(s, Compact(REWRITE, [LOWER, REST], 10)), 3, {}, None, Levels({}, {LOWER, REST}), [1], 10)
  {
    hide WellFormed, Faithful, DiskInv, Selected, NewerStays, Outputs, Kept, Contents, Levels, Compacted;
    var outs := [LOWER, REST];
    assert SetOf(outs) == {LOWER, REST};
    LevelsAre({FIRST}, {BASE});
    RewriteSelected(s.store.levels);
    RewriteKeepsAll(s.store.levels);
    forall d ensures !Resurrects(s.store, REWRITE, 1, d) {
      OneTable(FIRST);
      OneTable(BASE);
    }
    RewrittenLevels();
    CompactKeepsInv(s, REWRITE, outs, 10);
  }

  lemma Moved(s: State)
    requires Stage(s, 1, {}, None, Levels({BASE}, {}), [1], 6)
    ensures Enabled(s, Move(DOWN, BASE))
    ensures Stage(Apply(s, Move(DOWN, BASE)), 1, {}, None, Levels({}, {BASE}), [1], 6)
  {
    hide WellFormed, Faithful, DiskInv, Levels, Compacted, Table.Valid;
    LevelsAre({BASE}, {});
    MaySelectBase(s.store.levels);
    RewrittenLevels();
    MoveKeepsInv(s, DOWN, BASE);
  }

  lemma MaySelectBase(levels: seq<set<Table>>)
    requires levels == Levels({BASE}, {})
    ensures Selected(levels, DOWN) && NewerStays(levels[2], {BASE})
  {
    LevelsAre({BASE}, {});
    hide Levels;
  }

  lemma LevelsAre(two: set<Table>, three: set<Table>)
    ensures Levels(two, three)[2] == two && Levels(two, three)[3] == three && |Levels(two, three)| == NUM_LEVELS
    ensures forall l :: 0 <= l < NUM_LEVELS && l != 2 && l != 3 ==> Levels(two, three)[l] == {}
  {
  }

  /** The run is one the engine may perform; it ends with the latest "2.0" deleted. */
  lemma RunIsLegal()
    ensures Legal(Created(), RUN)
    ensures Stage(Run(Created(), RUN), 4, {}, None, Levels({UPPER}, {LOWER, REST}), [], 12)
  {
    hide Inv, Enabled, Apply, Legal, Run, Levels, EntriesOf, Elements, Table.Valid;
    var s0 := Created();
    CreatedStage();
    Written(s0, 0, 1, {}, Levels({}, {}), [], 4);
    MemtableContents();
    var s1 := Apply(s0, Write(OPS[0..1]));
    Snapshotted(s1, 1, Elements(BASE.entries));
    var s2 := Apply(s1, TakeSnapshot);
    Switched(s2, 1, Elements(BASE.entries), Levels({}, {}), [1], 4);
    var s3 := Apply(s2, Switch);
    MayFlushBoth();
    Flushed(s3, 1, Levels({}, {}), [1], BASE);
    LevelGains({}, BASE);
    var s4 := Apply(s3, Flush(BASE, 2));
    RunFromMove(s4);
    LegalStep(s3, Flush(BASE, 2), FROM_MOVE);
    LegalStep(s2, Switch, [Flush(BASE, 2)] + FROM_MOVE);
    LegalStep(s1, TakeSnapshot, [Switch] + ([Flush(BASE, 2)] + FROM_MOVE));
    LegalStep(s0, Write(OPS[0..1]), [TakeSnapshot] + ([Switch] + ([Flush(BASE, 2)] + FROM_MOVE)));
  }

  /** The first table goes down to level 3, then "1.0" is written and "2.0" deleted. */
  lemma RunFromMove(s4: State)
    requires Stage(s4, 1, {}, None, Levels({BASE}, {}), [1], 6)
    ensures Legal(s4, FROM_MOVE)
    ensures Stage(Run(s4, FROM_MOVE), 4, {}, None, Levels({UPPER}, {LOWER, REST}), [], 12)
  {
    hide Inv, Enabled, Apply, Legal, Run, Elements, EntriesOf, Table.Valid;
    Moved(s4);
    var s5 := Apply(s4, Move(DOWN, BASE));
    Written(s5, 1, 3, {}, Levels({}, {BASE}), [1], 6);
    MemtableContents();
    var s6 := Apply(s5, Write(OPS[1..3]));
    RunFromSwitch(s6);
    LegalStep(s5, Write(OPS[1..3]), FROM_SWITCH);
    LegalStep(s4, Move(DOWN, BASE), [Write(OPS[1..3])] + FROM_SWITCH);
  }

  /** Flush those to level 2, then merge them with the table at level 3. */
  lemma RunFromSwitch(s6: State)
    requires Stage(s6, 3, Elements(FIRST.entries), None, Levels({}, {BASE}), [1], 6)
    ensures Legal(s6, FROM_SWITCH)
    ensures Stage(Run(s6, FROM_SWITCH), 4, {}, None, Levels({UPPER}, {LOWER, REST}), [], 12)
  {
    hide Inv, Enabled, Apply, Legal, Run, Elements, Table.Valid;
    Switched(s6, 3, Elements(FIRST.entries), Levels({}, {BASE}), [1], 6);
    var s7 := Apply(s6, Switch);
    MayFlushBoth();
    Flushed(s7, 3, Levels({}, {BASE}), [1], FIRST);
    LevelGains({BASE}, FIRST);
    var s8 := Apply(s7, Flush(FIRST, 2));
    Rewritten(s8);
    var s9 := Apply(s8, Compact(REWRITE, [LOWER, REST], 10));
    RunFromRelease(s9);
    LegalStep(s8, Compact(REWRITE, [LOWER, REST], 10), FROM_RELEASE);
    LegalStep(s7, Flush(FIRST, 2), [Compact(REWRITE, [LOWER, REST], 10)] + FROM_RELEASE);
    LegalStep(s6, Switch, [Flush(FIRST, 2)] + ([Compact(REWRITE, [LOWER, REST], 10)] + FROM_RELEASE));
  }

  lemma MayFlushBoth()
    ensures BASE.Valid() && MayFlushTo(Levels({}, {}), BASE, 2)
    ensures FIRST.Valid() && MayFlushTo(Levels({}, {BASE}), FIRST, 2)
  {
  }

  /** Give up the snapshot and put a newer "1.0" on top. */
  lemma RunFromRelease(s9: State)
    requires Stage(s9, 3, {}, None, Levels({}, {LOWER, REST}), [1], 10)
    ensures Legal(s9, FROM_RELEASE)
    ensures Stage(Run(s9, FROM_RELEASE), 4, {}, None, Levels({UPPER}, {LOWER, REST}), [], 12)
  {
    hide Inv, Enabled, Apply, Elements, EntriesOf, Table.Valid, Legal, Run;
    Released(s9);
    var s10 := Apply(s9, ReleaseSnapshot(0));
    Written(s10, 3, 4, {}, Levels({}, {LOWER, REST}), [], 10);
    MemtableContents();
    var s11 := Apply(s10, Write(OPS[3..4]));
    Switched(s11, 4, Elements(UPPER.entries), Levels({}, {LOWER, REST}), [], 10);
    var s12 := Apply(s11, Switch);
    Tables();
    UpperMayFlush();
    Flushed(s12, 4, Levels({}, {LOWER, REST}), [], UPPER);
    LevelGains({LOWER, REST}, UPPER);
    var s13 := Apply(s12, Flush(UPPER, 2));
    RunEnds(s13);
    LegalStep(s12, Flush(UPPER, 2), []);
    LegalStep(s11, Switch, [Flush(UPPER, 2)] + []);
    LegalStep(s10, Write(OPS[3..4]), [Switch] + ([Flush(UPPER, 2)] + []));
    LegalStep(s9, ReleaseSnapshot(0), [Write(OPS[3..4])] + ([Switch] + ([Flush(UPPER, 2)] + [])));
  }

  lemma UpperMayFlush()
    ensures MayFlushTo(Levels({}, {LOWER, REST}), UPPER, 2)
  {
  }

  lemma RunEnds(s: State)
    requires Inv(s)
    ensures Legal(s, []) && Run(s, []) == s
  {
  }

  lemma CreatedStage()
    ensures Stage(Created(), 0, {}, None, Levels({}, {}), [], 4)
  {
    hide Inv, WellFormed, DiskInv, Faithful;
    InvHoldsStore(Created());
    NoLevelsAre();
    assert EntriesOf([], 0, 0) == {};
  }

  lemma NoLevelsAre()
    ensures NoLevels() == Levels({}, {})
  {
  }

  lemma Snapshotted(s: State, ops: nat, mem: set<Entry>)
    requires ops <= |OPS| && Stage(s, ops, mem, None, Levels({}, {}), [], 4)
    ensures Enabled(s, TakeSnapshot) && Stage(Apply(s, TakeSnapshot), ops, mem, None, Levels({}, {}), [ops], 4)
  {
    hide WellFormed, Faithful, DiskInv;
    SnapshotKeepsInv(s);
  }

  lemma Released(s: State)
    requires Stage(s, 3, {}, None, Levels({}, {LOWER, REST}), [1], 10)
    ensures Enabled(s, ReleaseSnapshot(0)) && Stage(Apply(s, ReleaseSnapshot(0)), 3, {}, None, Levels({}, {LOWER, REST}), [], 10)
  {
    hide WellFormed, Faithful, DiskInv;
    ReleaseKeepsInv(s, 0);
  }

  lemma MemtableContents()
    ensures {} + EntriesOf(OPS, 0, 1) == Elements(BASE.entries)
    ensures {} + EntriesOf(OPS, 1, 3) == Elements(FIRST.entries)
    ensures {} + EntriesOf(OPS, 3, 4) == Elements(UPPER.entries)
  {
    assert EntryOf(OPS, 1) == PUT2 && EntryOf(OPS, 2) == OLD1 && EntryOf(OPS, 3) == DELETE2 && EntryOf(OPS, 4) == NEW1;
    assert BASE.entries[0] == PUT2 && FIRST.entries[0] == OLD1 && FIRST.entries[1] == DELETE2;
    assert UPPER.entries[0] == NEW1;
  }

  // ---------------------------------------------------------------- the compaction that goes wrong

  lemma CulpritPlaces(st: Store, p: Place, e: Entry)
    requires st == Store({}, {}, Levels({UPPER}, {LOWER, REST}))
    ensures At(st, p, e) <==> (p == Level(2) && e in UPPER.entries) || (p == Level(3) && (e in LOWER.entries || e in REST.entries))
  {
    if p.Level? && 1 <= p.level < NUM_LEVELS && p.level != 2 && p.level != 3 {
      assert st.levels[p.level] == {};
    }
  }

  lemma CulpritAll(st: Store)
    requires st == Store({}, {}, Levels({UPPER}, {LOWER, REST}))
    ensures DELETE2 in All(st) && forall e :: e in All(st) ==> e == NEW1 || e == OLD1 || e == DELETE2 || e == PUT2
  {
    hide Levels, All, At;
    assert LOWER.entries[1] == DELETE2;
    CulpritPlaces(st, Level(3), DELETE2);
    AtIsSomewhere(st, Level(3), DELETE2);
    forall e | e in All(st) ensures e == NEW1 || e == OLD1 || e == DELETE2 || e == PUT2 {
      var p := SomewhereAt(st, e);
      CulpritPlaces(st, p, e);
    }
  }

  lemma LatestIsTombstone(st: Store)
    requires st == Store({}, {}, Levels({UPPER}, {LOWER, REST}))
    ensures Newest(All(st), 2.0, 4) == Some(DELETE2)
  {
    CulpritAll(st);
    hide Levels, All;
    NewestIs(All(st), 2.0, 4, DELETE2);
  }

  lemma LeftBelowCulprit(st: Store)
    requires st == Store({}, {}, Levels({UPPER}, {LOWER, REST}))
    ensures Reads(LeftBelow(st.levels, CULPRIT), 2.0, 4) == Some([7])
  {
    assert {LOWER, REST} - {LOWER} == {REST};
    OneTable(REST);
    assert REST.entries[0] == PUT2 && PUT2 in Elements(REST.entries);
    NewestIs(LeftBelow(st.levels, CULPRIT), 2.0, 4, PUT2);
  }

  lemma CulpritResurrects(st: Store)
    requires st == Store({}, {}, Levels({UPPER}, {LOWER, REST}))
    ensures Resurrects(st, CULPRIT, 4, DELETE2)
  {
    LatestIsTombstone(st);
    LeftBelowCulprit(st);
    OneTable(LOWER);
    assert LOWER.entries[1] == DELETE2;
    LevelsAre({UPPER}, {LOWER, REST});
    hide Levels, All, LeftBelow, Reads, Newest, Contents;
    assert ObsoleteTombstone(st.levels, CULPRIT, 4, DELETE2);
  }

  lemma LevelsOfVersion(version: seq<Files>, two: Table, three: set<Table>)
    requires Sets(version) == Levels({two}, three)
    ensures |version| == NUM_LEVELS && SetOf(version[2]) == {two} && SetOf(version[3]) == three
    ensures two in version[2] && forall t :: t in three ==> t in version[3]
  {
    assert |Sets(version)| == NUM_LEVELS;
    assert Sets(version)[2] == {two} && Sets(version)[3] == three;
    assert two in SetOf(version[2]);
  }

  /** What the code picks when it compacts the table at level 2: exactly those inputs. */
  method PickCulprit(version: seq<Files>, expandedLimit: nat) returns (upper: Files, lower: Files, lo: UserKey, hi: UserKey)
    requires VersionOk(version) && Sets(version) == Levels({UPPER}, {LOWER, REST})
    ensures Job(2, SetOf(upper), SetOf(lower), lo, hi) == CULPRIT
  {
    hide VersionOk, InputsFrom, Grandparents, Touched, IsLargest;
    LevelsOfVersion(version, UPPER, {LOWER, REST});
    var grandparents, next;
    upper, lower, lo, hi, grandparents, next := SetupOtherInputs(version, 2, version[2], expandedLimit, 0, |version[2]|);
  }

  /** The same for the compaction before it, which has an input at level 3 and so is no move. */
  method PickRewrite(version: seq<Files>, expandedLimit: nat) returns (upper: Files, lower: Files, lo: UserKey, hi: UserKey)
    requires VersionOk(version) && Sets(version) == Levels({FIRST}, {BASE})
    ensures Job(2, SetOf(upper), SetOf(lower), lo, hi) == REWRITE
  {
    hide VersionOk, InputsFrom, Grandparents, Touched, IsLargest;
    LevelsOfVersion(version, FIRST, {BASE});
    var grandparents, next;
    upper, lower, lo, hi, grandparents, next := SetupOtherInputs(version, 2, version[2], expandedLimit, 0, |version[2]|);
  }

  /** Where the run ends. */
  ghost function Reached(): (s: State)
    ensures Inv(s) && s.history == OPS && s.last == 4 && s.snapshots == []
    ensures s.store == Store({}, {}, Levels({UPPER}, {LOWER, REST}))
  {
    RunIsLegal();
    Run(Created(), RUN)
  }

  /** "2.0" is deleted, and any output of this compaction brings its value back. */
  lemma DeletedValueReturns(outs: set<Table>)
    requires Compacts(Reached().store, CULPRIT, 4, outs)
    ensures Replay(Reached().history, 2.0, 4) == None
    ensures Reads(All(After(Reached().store, CULPRIT, outs)), 2.0, 4) == Some([7])
  {
    var s := Reached();
    hide Inv, Reached, Levels, Compacts;
    CulpritResurrects(s.store);
    ResurrectionShows(s.store, CULPRIT, 4, outs, DELETE2);
    LeftBelowCulprit(s.store);
  }

  /** Such outputs exist: the rules keep the new "1.0" and drop everything else. */
  lemma CulpritHasOutputs()
    ensures Compacts(Reached().store, CULPRIT, 4, {UPPER})
  {
    var s := Reached();
    hide Reached, Levels, Faithful, SnapshotsInv, DiskInv;
    assert WellFormed(s.store);
    Provenance(s);
    hide WellFormed, Inv, StoreInv, Kept, Outputs, Selected, NewerStays, UniqueSequences, All;
    CulpritOutputs(s.store);
  }

  lemma CulpritOutputs(st: Store)
    requires st == Store({}, {}, Levels({UPPER}, {LOWER, REST}))
    ensures Selected(st.levels, CULPRIT) && NewerStays(st.levels[2], {UPPER})
    ensures Outputs(CULPRIT, {UPPER}) && Contents({UPPER}) == Kept(st.levels, CULPRIT, 4)
  {
    CulpritInputs();
    CulpritKeeps(st.levels);
    Tables();
    OneTable(UPPER);
    ElementsListed(NEW1, NEW1);
    LevelsAre({UPPER}, {LOWER, REST});
    hide Levels, Contents, Elements, Kept, Inputs, Table.Valid;
    assert Disjoint({UPPER});
  }

  lemma CulpritInputs()
    ensures Inputs(CULPRIT) == {NEW1, OLD1, DELETE2}
  {
    OneTable(UPPER);
    OneTable(LOWER);
    ElementsListed(NEW1, NEW1);
    ElementsListed(OLD1, DELETE2);
    hide Contents, Elements;
  }

  lemma CulpritKeeps(levels: seq<set<Table>>)
    requires levels == Levels({UPPER}, {LOWER, REST})
    ensures Kept(levels, CULPRIT, 4) == {NEW1}
  {
    CulpritInputs();
    LevelsAre({UPPER}, {LOWER, REST});
    hide Levels, Inputs;
    assert Hidden(Inputs(CULPRIT), 4, OLD1);
    assert ObsoleteTombstone(levels, CULPRIT, 4, DELETE2);
    assert !Dropped(levels, CULPRIT, 4, NEW1);
  }
}
