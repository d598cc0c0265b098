/** What every run of the engine promises its readers. */
module EngineTheorems {
  import opened Keys
  import opened Layers
  import opened Compaction
  import opened VersionEdits
  import opened Descriptor
  import opened History
  import opened Engine
  import opened EngineInvariant
  import opened Recovery

  /** A database just created: the first descriptor hands out numbers from 2, opening it takes
    * one for the next descriptor and one for the first log. */
  function Fresh(): State {
    State([], Store({}, {}, NoLevels()), false, 0, 0, [], 0, 4, 3,
          Disk(LogEdit(Manifest([Snapshot([])]), Edit({}, []), 3, 4, 0), map[3 := []], map[]))
  }

  lemma FreshInv()
    ensures Inv(Fresh())
  {
    var s := Fresh();
    FreshDescriptor();
    assert All(s.store) == {};
    forall p, e ensures !At(s.store, p, e) {}
  }

  lemma FreshDescriptor()
    ensures Describes(LogEdit(Manifest([Snapshot([])]), Edit({}, []), 3, 4, 0).edits, map[], NoLevels(), 4)
  {
    hide Describes, Edited;
    SnapshotDescribes([], map[], NoLevels(), 0);
    EditedByNothing(NoLevels());
    DescribesAfterEdit([Snapshot([])], RecordOf(Edit({}, []), 3, 4, 0), Edit({}, []), map[], NoLevels(), 0, 4);
  }

  ghost function Created(): (s: State)
    ensures Inv(s)
  {
    FreshInv();
    Fresh()
  }

  lemma ActionKeepsInv(s: State, a: Action)
    requires Inv(s) && Enabled(s, a)
    ensures Inv(Apply(s, a))
  {
    match a
    case Write(ops) => WriteKeepsInv(s, ops);
    case Switch => SwitchKeepsInv(s);
    case FlushNothing => FlushNothingKeepsInv(s);
    case Flush(t, l) => FlushKeepsInv(s, t, l);
    case Move(j, t) => MoveKeepsInv(s, j, t);
    case Compact(j, outs, next) => CompactKeepsInv(s, j, outs, next);
    case TakeSnapshot => SnapshotKeepsInv(s);
    case ReleaseSnapshot(i) => ReleaseKeepsInv(s, i);
    case Orphan(entries) => OrphanKeepsInv(s, entries);
    case Collect(pinned) => CollectKeepsInv(s, pinned);
    case Reopen(listed, recovered, cuts, newLog) => ReopenKeepsInv(s, listed, recovered, cuts, newLog);
  }

  ghost predicate Legal(s: State, run: seq<Action>)
    requires Inv(s)
    decreases run
  {
    run == [] || (Enabled(s, run[0]) && (ActionKeepsInv(s, run[0]); Legal(Apply(s, run[0]), run[1..])))
  }

  ghost function Run(s: State, run: seq<Action>): (s': State)
    requires Inv(s) && Legal(s, run)
    ensures Inv(s')
    decreases run
  {
    if run == [] then s else ActionKeepsInv(s, run[0]); Run(Apply(s, run[0]), run[1..])
  }

  /** The operations a run acknowledges, crashes or not. */
  function Committed(run: seq<Action>): seq<Op> {
    if run == [] then [] else Acknowledged(run[0]) + Committed(run[1..])
  }

  function Acknowledged(a: Action): seq<Op> {
    if a.Write? then a.ops else []
  }

  lemma ActionCommits(s: State, a: Action)
    requires Inv(s) && Enabled(s, a)
    ensures Apply(s, a).history == s.history + Acknowledged(a)
  {
    assert s.history + [] == s.history;
  }

  lemma InvHoldsStore(s: State)
    requires Inv(s)
    ensures StoreInv(s)
  {
  }

  lemma {:induction false} HistoryIsCommitted(s: State, run: seq<Action>)
    requires Inv(s) && Legal(s, run)
    ensures Run(s, run).history == s.history + Committed(run)
    decreases run
  {
    hide Inv, StoreInv, SnapshotsInv, Faithful, DiskInv, Enabled, Apply;
    InvHoldsStore(s);
    if run != [] {
      ActionKeepsInv(s, run[0]);
      ActionCommits(s, run[0]);
      var s' := Apply(s, run[0]);
      HistoryIsCommitted(s', run[1..]);
      assert Run(s, run) == Run(s', run[1..]);
    }
  }

  lemma ReaderIsAdmitted(s: State, n: nat)
    requires Inv(s) && (n == s.last || n in s.snapshots)
    ensures s.last == |s.history| && Faithful(s) && Oldest(s) <= n <= s.last
  {
  }

  /** After any run from creation, with any number of crashes in it, the latest state and every
    * live snapshot read as a replay of the acknowledged operations. */
  lemma EveryReaderSeesItsHistory(run: seq<Action>, u: UserKey, n: nat)
    requires Legal(Created(), run)
    requires var s := Run(Created(), run); n == s.last || n in s.snapshots
    ensures n <= |Committed(run)|
    ensures Reads(All(Run(Created(), run).store), u, n) == Replay(Committed(run), u, n)
    ensures Run(Created(), run).last == |Committed(run)|
  {
    hide StoreInv, DiskInv, Enabled, Apply, Reads, Replay;
    var s := Run(Created(), run);
    HistoryIsCommitted(Created(), run);
    assert s.history == Committed(run);
    ReaderIsAdmitted(s, n);
  }

  /** A snapshot's reads never change while it is live. */
  lemma SnapshotIsStable(s: State, run: seq<Action>, u: UserKey, n: nat)
    requires Inv(s) && Legal(s, run) && Oldest(s) <= n <= s.last && n in Run(s, run).snapshots
    ensures Reads(All(Run(s, run).store), u, n) == Reads(All(s.store), u, n)
  {
    HistoryIsCommitted(s, run);
    ReplayExtends(s.history, Committed(run), u, n);
  }

  /** Where tables belong after a step: a flush adds one, a move takes one from a level to the
    * next, a compaction replaces its inputs by its outputs, and nothing else but recovery changes
    * the levels. */
  ghost predicate BelongsAfter(levels: seq<set<Table>>, a: Action, l: nat, t: Table)
    requires l < |levels|
  {
    match a
    case Flush(added, k) => t in levels[l] || (t == added && l == k)
    case Move(j, moved) => if t == moved then l == j.level + 1 else t in levels[l]
    case Compact(j, outs, _) => (t in levels[l] && t !in j.upper && t !in j.lower) || (t in outs && l == j.level + 1)
    case _ => t in levels[l]
  }

  lemma LevelsAfter(s: State, a: Action, l: nat, t: Table)
    requires Inv(s) && Enabled(s, a) && !a.Reopen? && l < NUM_LEVELS
    ensures |s.store.levels| == |Apply(s, a).store.levels| == NUM_LEVELS
    ensures t in Apply(s, a).store.levels[l] <==> BelongsAfter(s.store.levels, a, l, t)
  {
    hide SnapshotsInv, Faithful, DiskInv, Layered, TablesValid, LevelsDisjoint, EntriesOf, InLevels, LogEdit, NeededLogs, NeededTables, Resurrects;
    hide Outputs, Kept, NewerStays, NumberedFrom, Table.Valid, Elements, RecoveredTables, Lists, Compacted, AddTo, NumbersUnique;
    match a
    case Move(j, moved) => CompactedBelongs(s.store.levels, j, {moved}, l, t);
    case Compact(j, outs, _) => CompactedBelongs(s.store.levels, j, SetOf(outs), l, t);
    case Flush(added, k) => AddedBelongs(s.store.levels, k, added, l, t);
    case _ =>
  }

  lemma AddedBelongs(levels: seq<set<Table>>, k: nat, added: Table, l: nat, t: Table)
    requires |levels| == NUM_LEVELS && l < NUM_LEVELS && MayFlushTo(levels, added, k)
    ensures k < NUM_LEVELS && |AddTo(levels, k, added)| == NUM_LEVELS
    ensures t in AddTo(levels, k, added)[l] <==> t in levels[l] || (t == added && l == k)
  {
    FlushLevel(levels, added, k);
  }

  lemma CompactedBelongs(levels: seq<set<Table>>, j: Job, outs: set<Table>, l: nat, t: Table)
    requires |levels| == NUM_LEVELS && NumbersUnique(levels) && Selected(levels, j) && l < NUM_LEVELS
    ensures |Compacted(levels, j, outs)| == NUM_LEVELS
    ensures t in Compacted(levels, j, outs)[l] <==> (t in levels[l] && t !in j.upper && t !in j.lower) || (t in outs && l == j.level + 1)
  {
    assert t in j.upper ==> t in levels[j.level];
    assert t in j.lower ==> t in levels[j.level + 1];
  }

  /** The numbers a step pins for a new snapshot, and those it lets go: one for a release, all of
    * them when the process stops. */
  ghost function TakenBy(s: State, a: Action): multiset<nat> {
    if a.TakeSnapshot? then multiset{s.last} else multiset{}
  }

  ghost function ReleasedBy(s: State, a: Action): multiset<nat> {
    if a.ReleaseSnapshot? && a.index < |s.snapshots| then multiset{s.snapshots[a.index]}
    else if a.Reopen? then multiset(s.snapshots)
    else multiset{}
  }

  ghost function Taken(s: State, run: seq<Action>): multiset<nat>
    requires Inv(s) && Legal(s, run)
    decreases run
  {
    if run == [] then multiset{} else
      ActionKeepsInv(s, run[0]);
      TakenBy(s, run[0]) + Taken(Apply(s, run[0]), run[1..])
  }

  ghost function Released(s: State, run: seq<Action>): multiset<nat>
    requires Inv(s) && Legal(s, run)
    decreases run
  {
    if run == [] then multiset{} else
      ActionKeepsInv(s, run[0]);
      ReleasedBy(s, run[0]) + Released(Apply(s, run[0]), run[1..])
  }

  lemma ActionHoldsSnapshots(s: State, a: Action)
    requires Inv(s) && Enabled(s, a)
    ensures multiset(s.snapshots) + TakenBy(s, a) == multiset(Apply(s, a).snapshots) + ReleasedBy(s, a)
  {
    hide WellFormed, DiskInv, Faithful, SnapshotsInv, EntriesOf, InLevels, Compacted, LogEdit, NeededLogs, NeededTables, ReopenedDisk, RecoveredLevels;
    hide Resurrects, RecoveredTables, Outputs, Kept, Selected, NewerStays, MayFlushTo, NumberedFrom, Lists;
    if a.ReleaseSnapshot? {
      assert s.snapshots == s.snapshots[..a.index] + [s.snapshots[a.index]] + s.snapshots[a.index + 1..];
    }
  }

  /** Taking and giving up in two steps. */
  lemma Balance(before: multiset<nat>, t: multiset<nat>, r: multiset<nat>, mid: multiset<nat>,
                t': multiset<nat>, r': multiset<nat>, after: multiset<nat>)
    requires before + t == mid + r && mid + t' == after + r'
    ensures before + (t + t') == after + (r + r')
  {
    assert before + (t + t') == (before + t) + t';
    assert (mid + r) + t' == (mid + t') + r;
    assert (after + r') + r == after + (r + r');
  }

  lemma StillHeld(before: multiset<nat>, t: multiset<nat>, r: multiset<nat>, after: multiset<nat>, n: nat)
    requires before + t == after + r && r[n] < before[n]
    ensures n in after
  {
    assert (before + t)[n] == (after + r)[n];
  }

  /** The live snapshots are those taken and not yet released. */
  lemma {:induction false} SnapshotsAreHeld(s: State, run: seq<Action>)
    requires Inv(s) && Legal(s, run)
    ensures multiset(s.snapshots) + Taken(s, run) == multiset(Run(s, run).snapshots) + Released(s, run)
    decreases run
  {
    hide Inv, StoreInv, SnapshotsInv, Faithful, DiskInv, Enabled, Apply, TakenBy, ReleasedBy;
    InvHoldsStore(s);
    if run != [] {
      ActionKeepsInv(s, run[0]);
      ActionHoldsSnapshots(s, run[0]);
      var s' := Apply(s, run[0]);
      SnapshotsAreHeld(s', run[1..]);
      assert Run(s, run) == Run(s', run[1..]);
      assert Taken(s, run) == TakenBy(s, run[0]) + Taken(s', run[1..]);
      assert Released(s, run) == ReleasedBy(s, run[0]) + Released(s', run[1..]);
      Balance(multiset(s.snapshots), TakenBy(s, run[0]), ReleasedBy(s, run[0]), multiset(s'.snapshots),
              Taken(s', run[1..]), Released(s', run[1..]), multiset(Run(s, run).snapshots));
    }
  }

  lemma ReaderSees(s: State, u: UserKey, n: nat)
    requires s.last == |s.history| && Faithful(s) && Oldest(s) <= n <= s.last
    ensures Reads(All(s.store), u, n) == Replay(s.history, u, n)
  {
  }

  /** A snapshot of which fewer holders gave it up than had it goes on showing what it showed,
    * whatever others took and released meanwhile. */
  lemma HeldSnapshotIsStable(s: State, run: seq<Action>, u: UserKey, n: nat)
    requires Inv(s) && Legal(s, run) && n in s.snapshots
    requires Released(s, run)[n] < multiset(s.snapshots)[n]
    ensures n in Run(s, run).snapshots
    ensures Reads(All(Run(s, run).store), u, n) == Reads(All(s.store), u, n) == Replay(s.history, u, n)
  {
    hide StoreInv, DiskInv, SnapshotsInv, Faithful, Enabled, Apply, Reads, Replay, Legal, Run, Taken, Released, Oldest, All;
    ReaderIsAdmitted(s, n);
    ReaderSees(s, u, n);
    SnapshotsAreHeld(s, run);
    StillHeld(multiset(s.snapshots), Taken(s, run), Released(s, run), multiset(Run(s, run).snapshots), n);
    SnapshotIsStable(s, run, u, n);
  }

  /** One compaction keeps every admitted reader right if and only if it resurrects nothing. */
  lemma FaithfulExactlyWhen(s: State, j: Job, outs: set<Table>)
    requires Inv(s) && Compacts(s.store, j, Oldest(s), outs)
    ensures s.last == |s.history|
    ensures Faithful(s.(store := After(s.store, j, outs))) <==> forall d :: !Resurrects(s.store, j, Oldest(s), d)
  {
    ReaderIsAdmitted(s, s.last);
    hide StoreInv, DiskInv, Compacts, Resurrects, After, Reads, All;
    var s' := s.(store := After(s.store, j, outs));
    CompactionPreservesReads(s.store, j, Oldest(s), outs);
    if d :| Resurrects(s.store, j, Oldest(s), d) {
      ResurrectionShows(s.store, j, Oldest(s), outs, d);
      ResurrectedReads(s.store, j, Oldest(s), d);
      assert Reads(All(s.store), d.key.user, Oldest(s)) == Replay(s.history, d.key.user, Oldest(s));
      assert Reads(All(s'.store), d.key.user, Oldest(s)) != Replay(s.history, d.key.user, Oldest(s));
      assert Oldest(s') == Oldest(s) && !Faithful(s');
    } else {
      FaithfulBySameReads(s, s');
    }
  }

  lemma ResurrectedReads(st: Store, j: Job, smallest: nat, d: Entry)
    requires j.level + 1 < |st.levels| && Resurrects(st, j, smallest, d)
    ensures Reads(LeftBelow(st.levels, j), d.key.user, smallest).Some?
  {
  }

  /** A crash loses no entry and no sequence number, wherever in a run it happens. */
  lemma CrashLosesNothing(run: seq<Action>, listed: seq<(nat, Table)>, recovered: Files, cuts: seq<nat>, newLog: nat)
    requires Legal(Created(), run) && Enabled(Run(Created(), run), Reopen(listed, recovered, cuts, newLog))
    ensures var s := Run(Created(), run);
      var s' := Apply(s, Reopen(listed, recovered, cuts, newLog));
      All(s'.store) == All(s.store) && s'.last == s.last
  {
    ReopenKeepsStore(Run(Created(), run), listed, recovered, cuts, newLog);
  }

  /** Whenever the process stops, replaying the descriptor through one builder, and reading the
    * files it names, gives the version that was live. */
  lemma DescriptorRebuildsTheVersion(run: seq<Action>)
    requires Legal(Created(), run)
    ensures var s := Run(Created(), run);
      ReplayedLevels(s.disk.manifest.edits, s.disk.tables) == s.store.levels
  {
    ReplayIsLive(Run(Created(), run));
  }

  /** No live table is ever missing from disk, whatever was collected before. */
  lemma LiveTablesAreOnDisk(run: seq<Action>, l: nat, t: Table)
    requires Legal(Created(), run)
    requires var s := Run(Created(), run); l < |s.store.levels| && t in s.store.levels[l]
    ensures var s := Run(Created(), run);
      t.number in s.disk.tables && s.disk.tables[t.number] == t.entries
  {
    assert DiskInv(Run(Created(), run));
  }

  // ---------------------------------------------------------------- layered lookup

  /** The first layer with a visible version of `u` has the newest one. */
  lemma FirstLayerWins(st: Store, p: Place, u: UserKey, n: nat, e: Entry)
    requires Layered(st) && UniqueSequences(All(st))
    requires At(st, p, e) && Visible(e, u, n)
    requires forall x :: At(st, p, x) && Visible(x, u, n) ==> x.key.seqno <= e.key.seqno
    requires forall q, x :: Above(q, p) && At(st, q, x) ==> !Visible(x, u, n)
    ensures Newest(All(st), u, n) == Some(e)
  {
    AtIsSomewhere(st, p, e);
    forall x | x in All(st) && Visible(x, u, n)
      ensures x.key.seqno <= e.key.seqno
    {
      var q := SomewhereAt(st, x);
      assert q == p || Above(q, p) || Above(p, q);
    }
    NewestIs(All(st), u, n, e);
  }
}
