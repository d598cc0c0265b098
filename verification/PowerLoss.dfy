/** A power failure. Tables and the descriptor are synced before anything relies on them; of the
  * logs the end may be lost, at any byte. What recovery reads then is a prefix of the history.
  */
module PowerLoss {
  import opened Keys
  import opened ByteNumbers
  import opened Layers
  import opened Compaction
  import opened VersionEdits
  import opened Descriptor
  import opened History
  import opened Engine
  import opened EngineInvariant
  import opened EngineTheorems
  import opened Recovery
  import opened DurableLogs

  // ---------------------------------------------------------------- what the tables alone show

  /** The store without its memtables. */
  function Tables(st: Store): Store {
    Store({}, {}, st.levels)
  }

  /** The oldest state the tables must show by themselves: the oldest reader's, but at least
    * everything flushed. */
  function Durable(s: State): nat {
    if Oldest(s) < s.immStart then Oldest(s) else s.immStart
  }

  /** Up to what was flushed, the tables read as a replay. */
  ghost predicate Settled(s: State) {
    s.immStart <= |s.history| && forall u, n :: Durable(s) <= n <= s.immStart ==> Reads(InLevels(s.store.levels), u, n) == Replay(s.history, u, n)
  }

  /** A compaction that resurrects nothing even where the memtables' newer entries are lost. */
  ghost predicate Tidy(s: State, a: Action)
    requires StoreInv(s) && Enabled(s, a)
  {
    a.Compact? ==> forall d :: !Resurrects(Tables(s.store), a.job, Durable(s), d)
  }

  ghost predicate TidyRun(s: State, run: seq<Action>)
    requires Inv(s) && Legal(s, run)
    decreases run
  {
    run == [] || (Tidy(s, run[0]) && (ActionKeepsInv(s, run[0]); TidyRun(Apply(s, run[0]), run[1..])))
  }

  lemma {:induction false} HistoryPrefix(history: seq<Op>, to: nat)
    requires to <= |history|
    ensures forall a: nat, b: nat :: a <= b <= to ==> EntriesOf(history[..to], a, b) == EntriesOf(history, a, b)
    ensures forall u, n: nat :: n <= to ==> Replay(history[..to], u, n) == Replay(history, u, n)
  {
    assert history[..to] + history[to..] == history;
    forall a: nat, b: nat | a <= b <= to ensures EntriesOf(history[..to], a, b) == EntriesOf(history, a, b) {
      EntriesExtend(history[..to], history[to..], a, b);
    }
    forall u, n: nat | n <= to ensures Replay(history[..to], u, n) == Replay(history, u, n) {
      ReplayExtends(history[..to], history[to..], u, n);
    }
  }

  /** Tables that answer up to `from`, and the operations that follow, answer up to `to`. */
  lemma TablesAndMore(history: seq<Op>, tables: set<Entry>, from: nat, to: nat, u: UserKey, n: nat)
    requires from <= to <= |history| && n <= to && tables <= EntriesOf(history, 0, from)
    requires var m := if n <= from then n else from; Reads(tables, u, m) == Replay(history, u, m)
    ensures Reads(tables + EntriesOf(history, from, to), u, n) == Replay(history, u, n)
  {
    HistoryPrefix(history, from);
    HistoryPrefix(history, to);
    hide Reads, Replay, EntriesOf;
    var before, ops := history[..from], history[from..to];
    assert before + ops == history[..to];
    ReadsAfterWrite(before, ops, tables, u, n);
  }

  /** Nothing is numbered above `to`, so no later reader sees more. */
  lemma ReadsAbove(history: seq<Op>, store: set<Entry>, to: nat, u: UserKey, n: nat)
    requires to <= |history| && to <= n && store <= EntriesOf(history, 0, to)
    ensures Reads(store, u, n) == Reads(store, u, to)
  {
    assert UniqueSequences(store);
    var r := Newest(store, u, n);
    if r.Some? {
      NewestIs(store, u, to, r.value);
    }
  }

  // ---------------------------------------------------------------- every step keeps it

  lemma SameTablesStaySettled(s: State, s': State)
    requires s.immStart == s'.immStart <= |s.history| && s.history <= s'.history && Settled(s)
    requires Durable(s) <= Durable(s') && InLevels(s'.store.levels) == InLevels(s.store.levels)
    ensures Settled(s')
  {
    assert s.history == s'.history[..|s.history|];
    HistoryPrefix(s'.history, |s.history|);
    hide Replay, Reads, InLevels;
  }

  lemma MoreTablesStaySettled(s: State, s': State)
    requires s.immStart <= s'.immStart <= |s.history| && s'.history == s.history && Settled(s) && Durable(s) <= Durable(s')
    requires InLevels(s.store.levels) <= EntriesOf(s.history, 0, s.immStart)
    requires InLevels(s'.store.levels) == InLevels(s.store.levels) + EntriesOf(s.history, s.immStart, s'.immStart)
    ensures Settled(s')
  {
    hide Replay, Reads, InLevels, EntriesOf;
    forall u, n | Durable(s') <= n <= s'.immStart
      ensures Reads(InLevels(s'.store.levels), u, n) == Replay(s'.history, u, n)
    {
      var m := if n <= s.immStart then n else s.immStart;
      assert Reads(InLevels(s.store.levels), u, m) == Replay(s.history, u, m);
      TablesAndMore(s.history, InLevels(s.store.levels), s.immStart, s'.immStart, u, n);
    }
  }

  lemma TablesAre(s: State)
    requires StoreInv(s)
    ensures WellFormed(Tables(s.store)) && All(Tables(s.store)) == InLevels(s.store.levels)
    ensures InLevels(s.store.levels) <= EntriesOf(s.history, 0, s.immStart) && UniqueSequences(InLevels(s.store.levels))
  {
    TablesAloneLayered(s.store);
    HistoryIsUnique(s.history, InLevels(s.store.levels));
  }

  lemma FlushStaysSettled(s: State, t: Table, l: nat)
    requires Inv(s) && Enabled(s, Flush(t, l)) && Settled(s)
    ensures Settled(Apply(s, Flush(t, l)))
  {
    var s' := Apply(s, Flush(t, l));
    FlushLevel(s.store.levels, t, l);
    AddedContents(s.store.levels, l, t);
    hide WellFormed, DiskInv, Faithful, Settled, MayFlushTo, InLevels, EntriesOf, AddTo, Elements;
    MoreTablesStaySettled(s, s');
  }

  lemma AddedContents(levels: seq<set<Table>>, l: nat, t: Table)
    requires l < |levels|
    ensures InLevels(AddTo(levels, l, t)) == InLevels(levels) + Elements(t.entries)
  {
    var levels' := AddTo(levels, l, t);
    assert t in levels'[l];
    forall e | e in InLevels(levels) ensures e in InLevels(levels') {
      var k, f: Table :| 0 <= k < |levels| && f in levels[k] && e in f.entries;
      assert f in levels'[k];
    }
    forall e | e in InLevels(levels') ensures e in InLevels(levels) || e in Elements(t.entries) {
      var k, f: Table :| 0 <= k < |levels'| && f in levels'[k] && e in f.entries;
      assert f == t || f in levels[k];
    }
  }

  lemma FlushNothingStaysSettled(s: State)
    requires Inv(s) && Enabled(s, FlushNothing) && Settled(s)
    ensures Settled(Apply(s, FlushNothing))
  {
    EntriesEmpty(s.history, s.immStart, s.memStart);
    hide WellFormed, DiskInv, Faithful, Settled, InLevels, EntriesOf;
    SameTablesStaySettled(s, Apply(s, FlushNothing));
  }

  lemma MoveStaysSettled(s: State, j: Job, t: Table)
    requires Inv(s) && Enabled(s, Move(j, t)) && Settled(s)
    ensures Settled(Apply(s, Move(j, t)))
  {
    TablesAre(s);
    hide WellFormed, DiskInv, Faithful, Settled, InLevels, EntriesOf, Selected, NewerStays;
    MoveKeepsStore(Tables(s.store), j, t);
    SameTablesStaySettled(s, Apply(s, Move(j, t)));
  }

  lemma InputsAreFlushed(s: State, j: Job)
    requires StoreInv(s) && Selected(s.store.levels, j)
    ensures forall e :: e in Inputs(j) ==> e.key.seqno <= s.immStart
  {
    AllAfter(Tables(s.store), j, {});
  }

  /** What is kept does not depend on readers above everything in the tables. */
  lemma KeptByDurable(s: State, j: Job)
    requires StoreInv(s) && Selected(s.store.levels, j)
    ensures Kept(s.store.levels, j, Oldest(s)) == Kept(s.store.levels, j, Durable(s))
  {
    InputsAreFlushed(s, j);
    hide WellFormed, Selected, InLevels, EntriesOf, BaseLevel;
  }

  /** The tables stay settled through a compaction if and only if it resurrects nothing among
    * the tables themselves. */
  lemma SettledExactlyWhen(s: State, j: Job, outs: set<Table>)
    requires StoreInv(s) && Settled(s) && Compacts(Tables(s.store), j, Durable(s), outs)
    ensures Settled(s.(store := After(s.store, j, outs))) <==> forall d :: !Resurrects(Tables(s.store), j, Durable(s), d)
  {
    TablesAre(s);
    hide WellFormed, Compacts, Resurrects, Reads, Replay, InLevels, EntriesOf, Compacted, StoreInv;
    var st, s' := Tables(s.store), s.(store := After(s.store, j, outs));
    CompactionPreservesReads(st, j, Durable(s), outs);
    assert All(After(st, j, outs)) == InLevels(s'.store.levels);
    assert Durable(s') == Durable(s);
    if d :| Resurrects(st, j, Durable(s), d) {
      UnsettledBy(s, j, outs, d);
    }
  }

  lemma UnsettledBy(s: State, j: Job, outs: set<Table>, d: Entry)
    requires StoreInv(s) && Settled(s) && Compacts(Tables(s.store), j, Durable(s), outs)
    requires Resurrects(Tables(s.store), j, Durable(s), d)
    ensures !Settled(s.(store := After(s.store, j, outs)))
  {
    hide Resurrects, Reads, Replay, InLevels, EntriesOf, Compacted, Outputs, Kept, NewerStays, NumbersUnique, Layered, TablesValid, LevelsDisjoint;
    var st, s', u, n := Tables(s.store), s.(store := After(s.store, j, outs)), d.key.user, Durable(s);
    ResurrectionShows(st, j, n, outs, d);
    ResurrectedReads(st, j, n, d);
    assert All(st) == InLevels(s.store.levels) && All(After(st, j, outs)) == InLevels(s'.store.levels);
    assert Reads(InLevels(s.store.levels), u, n) == Replay(s.history, u, n);
    assert Durable(s') == n && Reads(InLevels(s'.store.levels), u, n) != Replay(s'.history, u, n);
  }

  /** Tidiness is the stronger demand: a compaction that resurrects nothing among the tables
    * resurrects nothing below the memtables either. */
  lemma TidyResurrectsNothing(s: State, j: Job, d: Entry)
    requires StoreInv(s) && Selected(s.store.levels, j) && Resurrects(s.store, j, Oldest(s), d)
    ensures Resurrects(Tables(s.store), j, Durable(s), d)
  {
    var u, below, tables := d.key.user, LeftBelow(s.store.levels, j), InLevels(s.store.levels);
    InTables(s, j, d);
    hide StoreInv, Selected, InLevels, BaseLevel, LeftBelow, Contents, Newest, All, UniqueSequences;
    StillNewest(tables, All(s.store), u, Oldest(s), Durable(s), d);
    StillRead(tables, below, u, Oldest(s), s.immStart);
  }

  lemma InTables(s: State, j: Job, d: Entry)
    requires StoreInv(s) && Selected(s.store.levels, j) && d in Contents(j.lower)
    ensures d in InLevels(s.store.levels) && LeftBelow(s.store.levels, j) <= InLevels(s.store.levels) <= All(s.store)
    ensures All(Tables(s.store)) == InLevels(s.store.levels)
    ensures UniqueSequences(All(s.store)) && UniqueSequences(InLevels(s.store.levels))
    ensures forall e :: e in InLevels(s.store.levels) ==> e.key.seqno <= s.immStart
  {
    TablesAre(s);
    Provenance(s);
    AllAfter(Tables(s.store), j, {});
    hide WellFormed, Selected, InLevels, LeftBelow, Contents, All, UniqueSequences;
  }

  lemma StillNewest(tables: set<Entry>, all: set<Entry>, u: UserKey, n: nat, m: nat, d: Entry)
    requires UniqueSequences(all) && tables <= all && d in tables && d.key.seqno <= m <= n && Newest(all, u, n) == Some(d)
    ensures Newest(tables, u, m) == Some(d)
  {
    NewestIs(tables, u, m, d);
  }

  /** A reader above everything sees what a reader just there sees. */
  lemma StillRead(tables: set<Entry>, below: set<Entry>, u: UserKey, n: nat, flushed: nat)
    requires UniqueSequences(tables) && below <= tables && forall e :: e in tables ==> e.key.seqno <= flushed
    ensures Newest(below, u, if n < flushed then n else flushed) == Newest(below, u, n)
  {
    var r, m := Newest(below, u, n), if n < flushed then n else flushed;
    if r.Some? {
      NewestIs(below, u, m, r.value);
    }
  }

  /** Inputs closed at the lower level, too, are always tidy. */
  lemma ClosedIsTidy(s: State, j: Job, d: Entry)
    requires StoreInv(s) && Selected(s.store.levels, j) && ClosedAtParent(s.store.levels, j)
    ensures !Resurrects(Tables(s.store), j, Durable(s), d)
  {
    TablesAre(s);
    ClosedAtParentResurrectsNothing(Tables(s.store), j, Durable(s), d);
  }

  lemma CompactStaysSettled(s: State, j: Job, outs: Files, next: nat)
    requires Inv(s) && Enabled(s, Compact(j, outs, next)) && Settled(s) && Tidy(s, Compact(j, outs, next))
    ensures Settled(Apply(s, Compact(j, outs, next)))
  {
    TablesAre(s);
    hide WellFormed, DiskInv, Faithful, Settled, InLevels, EntriesOf, Selected, NewerStays, Outputs, Kept, Resurrects;
    KeptByDurable(s, j);
    SettledExactlyWhen(s, j, SetOf(outs));
    SameTablesStaySettled(s.(store := After(s.store, j, SetOf(outs))), Apply(s, Compact(j, outs, next)));
  }

  lemma ReopenStaysSettled(s: State, listed: seq<(nat, Table)>, recovered: Files, cuts: seq<nat>, newLog: nat)
    requires Inv(s) && Enabled(s, Reopen(listed, recovered, cuts, newLog)) && Settled(s)
    ensures Settled(Apply(s, Reopen(listed, recovered, cuts, newLog)))
  {
    hide WellFormed, Faithful, Settled, InLevels, EntriesOf, Describes, TablesDurable, LogsDurable, RecoveredTables, Lists, MaxSequence, Concat;
    var s' := Apply(s, Reopen(listed, recovered, cuts, newLog));
    Provenance(s);
    ReopenKeepsStore(s, listed, recovered, cuts, newLog);
    MoreTablesStaySettled(s, s');
  }

  lemma StepStaysSettled(s: State, a: Action)
    requires Inv(s) && Enabled(s, a) && Settled(s) && Tidy(s, a)
    ensures Settled(Apply(s, a))
  {
    hide Inv, StoreInv, DiskInv, Faithful, Settled, InLevels, EntriesOf, Tidy, Enabled, Apply;
    match a
    case Flush(t, l) => FlushStaysSettled(s, t, l);
    case FlushNothing => FlushNothingStaysSettled(s);
    case Move(j, t) => MoveStaysSettled(s, j, t);
    case Compact(j, outs, next) => CompactStaysSettled(s, j, outs, next);
    case Reopen(listed, recovered, cuts, newLog) => ReopenStaysSettled(s, listed, recovered, cuts, newLog);
    case _ => OtherStepsStaySettled(s, a);
  }

  lemma OtherStepsStaySettled(s: State, a: Action)
    requires Inv(s) && Enabled(s, a) && Settled(s)
    requires a.Write? || a.Switch? || a.TakeSnapshot? || a.ReleaseSnapshot? || a.Orphan? || a.Collect?
    ensures Settled(Apply(s, a))
  {
    hide WellFormed, DiskInv, Faithful, Settled, InLevels, EntriesOf;
    SameTablesStaySettled(s, Apply(s, a));
  }

  lemma {:induction false} RunStaysSettled(s: State, run: seq<Action>)
    requires Inv(s) && Legal(s, run) && Settled(s) && TidyRun(s, run)
    ensures Settled(Run(s, run))
    decreases run
  {
    hide StoreInv, DiskInv, Faithful, SnapshotsInv, Settled, Enabled, Apply, Tidy;
    if run != [] {
      InvHoldsStore(s);
      StepStaysSettled(s, run[0]);
      ActionKeepsInv(s, run[0]);
      RunStaysSettled(Apply(s, run[0]), run[1..]);
      assert Run(s, run) == Run(Apply(s, run[0]), run[1..]);
    }
  }

  // ---------------------------------------------------------------- the logs lose their end

  function WithLogs(s: State, logs: map<nat, seq<Record>>): State {
    s.(disk := s.disk.(logs := logs))
  }

  /** Of all the records recovery would have replayed, the first `k` are left. */
  ghost predicate LostTail(s: State, logs: map<nat, seq<Record>>, k: nat, newLog: nat) {
    && logs.Keys == s.disk.logs.Keys
    && k <= |ReplayedRecords(s.disk, newLog)|
    && ReplayedRecords(WithLogs(s, logs).disk, newLog) == ReplayedRecords(s.disk, newLog)[..k]
  }

  /** How many operations of the history are left then, in tables or in logs. */
  function Survivors(s: State, k: nat, newLog: nat): nat
    requires k <= |ReplayedRecords(s.disk, newLog)|
  {
    s.immStart + OpsBefore(ReplayedRecords(s.disk, newLog), k)
  }

  /** Counting on from at least `from`, recovery ends at the larger of both. */
  lemma {:induction false} MaxSequenceOver(records: seq<Record>, history: seq<Op>, from: nat, to: nat, last: nat)
    requires from <= to <= |history| && Holds(records, history, from, to) && from <= last
    ensures MaxSequence(records, last) == if to > last then to else last
  {
    if records != [] {
      var mid := from + |records[0].ops|;
      MaxSequenceOver(records[1..], history, mid, to, if mid > last then mid else last);
    }
  }

  /** What the remaining records hold, and the number recovery goes on from. */
  lemma RemainingRecords(s: State, logs: map<nat, seq<Record>>, k: nat, newLog: nat)
    requires StoreInv(s) && DiskInv(s) && LostTail(s, logs, k, newLog) && forall n :: n in logs ==> n < newLog
    ensures s.immStart <= Survivors(s, k, newLog) <= s.last
    ensures Holds(ReplayedRecords(WithLogs(s, logs).disk, newLog), s.history[..Survivors(s, k, newLog)], s.immStart, Survivors(s, k, newLog))
    ensures var p, last := Survivors(s, k, newLog), s.disk.manifest.Last();
      MaxSequence(ReplayedRecords(WithLogs(s, logs).disk, newLog), last) == if p > last then p else last
  {
    hide WellFormed, EntriesOf, InLevels, Describes, TablesDurable, OpsBefore, Concat, MaxSequence, Holds;
    var records, p := ReplayedRecords(s.disk, newLog), Survivors(s, k, newLog);
    ReplayedRecordsHold(s, newLog);
    HoldsSplit(records, k, s.history, s.immStart, s.last);
    HoldsWithin(records[..k], s.history, s.immStart, p);
    MaxSequenceOver(records[..k], s.history, s.immStart, p, s.disk.manifest.Last());
  }

  lemma {:induction false} HoldsWithin(records: seq<Record>, history: seq<Op>, from: nat, to: nat)
    requires from <= to <= |history| && Holds(records, history, from, to)
    ensures Holds(records, history[..to], from, to)
  {
    if records != [] {
      var mid := from + |records[0].ops|;
      HoldsWithin(records[1..], history, mid, to);
      assert history[..to][from..mid] == history[from..mid];
    }
  }

  /** The store recovery builds: the old tables and what is left of the logs, well formed. */
  lemma SurvivingStore(s: State, logs: map<nat, seq<Record>>, k: nat, listed: seq<(nat, Table)>, recovered: Files, cuts: seq<nat>, newLog: nat)
    requires StoreInv(s) && DiskInv(s) && LostTail(s, logs, k, newLog)
    requires Enabled(WithLogs(s, logs), Reopen(listed, recovered, cuts, newLog))
    ensures var p, s' := Survivors(s, k, newLog), Apply(WithLogs(s, logs), Reopen(listed, recovered, cuts, newLog));
      && s.immStart <= p <= s.last && WellFormed(s'.store) && s'.store.mem == s'.store.imm == {}
      && s'.store.levels == WithRecovered(s.store.levels, recovered)
      && InLevels(s'.store.levels) == InLevels(s.store.levels) + EntriesOf(s.history, s.immStart, p)
  {
    hide Describes, Concat, Holds;
    ReplayIsLive(s);
    var levels, lo, p := s.store.levels, s.disk.manifest.NextFile() + 1, Survivors(s, k, newLog);
    var records := ReplayedRecords(WithLogs(s, logs).disk, newLog);
    RemainingRecords(s, logs, k, newLog);
    HistoryPrefix(s.history, p);
    var ends := RecoveredPartition(records, recovered, cuts, lo, newLog, s.history[..p], s.immStart);
    forall i | 0 <= i < |recovered| ensures recovered[i].Valid() {
      assert RecoveredTable(recovered[i], records, cuts, i);
    }
    RecoveredContents(levels, recovered, ends, s.history[..p], s.immStart);
    RecoveredKeepShape(levels, recovered, lo);
    TablesAloneLayered(s.store);
    RecoveredLayers(levels, recovered, lo, s.history[..p], ends, s.immStart);
  }

  /** Whatever the logs lost at their end, recovery leaves the engine reading a replay of a
    * prefix of the history: every operation that is left counts, and none beyond it. */
  lemma PrefixSurvives(s: State, logs: map<nat, seq<Record>>, k: nat, listed: seq<(nat, Table)>, recovered: Files, cuts: seq<nat>, newLog: nat,
                       u: UserKey, n: nat)
    requires StoreInv(s) && DiskInv(s) && Settled(s) && LostTail(s, logs, k, newLog)
    requires Enabled(WithLogs(s, logs), Reopen(listed, recovered, cuts, newLog)) && n >= Survivors(s, k, newLog)
    ensures var p, s' := Survivors(s, k, newLog), Apply(WithLogs(s, logs), Reopen(listed, recovered, cuts, newLog));
      p <= s.last && p <= s'.last && Reads(All(s'.store), u, n) == Replay(s.history, u, p)
  {
    hide WellFormed, InLevels, EntriesOf, Describes, TablesDurable, LogsDurable, MaxSequence, Concat, OpsBefore, RecoveredTables, Holds, Lists, Reads, Replay;
    var p, s' := Survivors(s, k, newLog), Apply(WithLogs(s, logs), Reopen(listed, recovered, cuts, newLog));
    SurvivingStore(s, logs, k, listed, recovered, cuts, newLog);
    RemainingRecords(s, logs, k, newLog);
    assert All(s'.store) == InLevels(s'.store.levels);
    assert Reads(InLevels(s.store.levels), u, s.immStart) == Replay(s.history, u, s.immStart);
    TablesAndMore(s.history, InLevels(s.store.levels), s.immStart, p, u, p);
    EntriesSplit(s.history, 0, s.immStart, p);
    ReadsAbove(s.history, All(s'.store), p, u, n);
  }

  /** The state recovery leaves, with the history cut down to what survived. */
  ghost function Survived(s: State, logs: map<nat, seq<Record>>, k: nat, listed: seq<(nat, Table)>, recovered: Files, cuts: seq<nat>, newLog: nat): State
    requires StoreInv(s) && Enabled(WithLogs(s, logs), Reopen(listed, recovered, cuts, newLog))
    requires k <= |ReplayedRecords(s.disk, newLog)| && Survivors(s, k, newLog) <= |s.history|
  {
    Apply(WithLogs(s, logs), Reopen(listed, recovered, cuts, newLog)).(history := s.history[..Survivors(s, k, newLog)])
  }

  lemma SurvivedDisk(s: State, logs: map<nat, seq<Record>>, k: nat, listed: seq<(nat, Table)>, recovered: Files, cuts: seq<nat>, newLog: nat)
    requires StoreInv(s) && DiskInv(s) && LostTail(s, logs, k, newLog)
    requires Enabled(WithLogs(s, logs), Reopen(listed, recovered, cuts, newLog))
    requires Survivors(s, k, newLog) <= |s.history| && s.disk.manifest.Last() <= Survivors(s, k, newLog)
    ensures var s' := Survived(s, logs, k, listed, recovered, cuts, newLog);
      s'.last == |s'.history| && s'.immStart == s'.memStart == s'.last && DiskInv(s')
  {
    hide Describes, TablesDurable, LogsDurable, MaxSequence, Concat, WellFormed, EntriesOf, InLevels, WithRecovered, OpsBefore, RecoveredTables, Lists;
    var m := s.disk.manifest;
    ReplayIsLive(s);
    RemainingRecords(s, logs, k, newLog);
    Rising(s, logs, listed, recovered, cuts, newLog);
    RecoveredDurable(s.store.levels, m.NextFile(), s.disk.tables, recovered, newLog + 1);
    NewDescriptor(s.store.levels, m.NextFile(), s.disk.tables, listed, recovered, newLog, Survivors(s, k, newLog));
    NewLogIsDurable(Survived(s, logs, k, listed, recovered, cuts, newLog), logs, newLog);
  }

  lemma Rising(s: State, logs: map<nat, seq<Record>>, listed: seq<(nat, Table)>, recovered: Files, cuts: seq<nat>, newLog: nat)
    requires StoreInv(s) && Enabled(WithLogs(s, logs), Reopen(listed, recovered, cuts, newLog))
    ensures |s.store.levels| == NUM_LEVELS && NumbersUnique(s.store.levels)
    ensures RisingNumbers(recovered, s.disk.manifest.NextFile()) && forall i :: 0 <= i < |recovered| ==> recovered[i].number < newLog
    ensures Lists(listed, ReplayedLevels(s.disk.manifest.edits, s.disk.tables))
  {
  }

  /** A log just created holds nothing, and nothing is missing from it. */
  lemma NewLogIsDurable(s: State, logs: map<nat, seq<Record>>, newLog: nat)
    requires s.immStart == s.memStart == s.last == |s.history| && !s.hasImm
    requires s.disk.manifest.Complete() && s.disk.manifest.LogNumber() == s.memLog == newLog < s.nextFile
    requires s.disk.logs == logs[newLog := []] && forall n :: n in logs ==> n < newLog
    ensures LogsDurable(s)
  {
  }

  lemma SurvivedStore(s: State, logs: map<nat, seq<Record>>, k: nat, listed: seq<(nat, Table)>, recovered: Files, cuts: seq<nat>, newLog: nat)
    requires StoreInv(s) && DiskInv(s) && LostTail(s, logs, k, newLog)
    requires Enabled(WithLogs(s, logs), Reopen(listed, recovered, cuts, newLog))
    requires Survivors(s, k, newLog) <= |s.history| && s.disk.manifest.Last() <= Survivors(s, k, newLog)
    ensures StoreInv(Survived(s, logs, k, listed, recovered, cuts, newLog))
  {
    hide WellFormed, InLevels, EntriesOf, Describes, TablesDurable, LogsDurable, MaxSequence, Concat, OpsBefore, RecoveredTables, Holds, Lists, All;
    var p, s' := Survivors(s, k, newLog), Survived(s, logs, k, listed, recovered, cuts, newLog);
    SurvivingStore(s, logs, k, listed, recovered, cuts, newLog);
    RemainingRecords(s, logs, k, newLog);
    SurvivedEntries(s.history, s.immStart, p);
  }

  lemma SurvivedReads(s: State, logs: map<nat, seq<Record>>, k: nat, listed: seq<(nat, Table)>, recovered: Files, cuts: seq<nat>, newLog: nat)
    requires StoreInv(s) && DiskInv(s) && Settled(s) && LostTail(s, logs, k, newLog)
    requires Enabled(WithLogs(s, logs), Reopen(listed, recovered, cuts, newLog))
    requires Survivors(s, k, newLog) <= |s.history| && s.disk.manifest.Last() <= Survivors(s, k, newLog)
    ensures var s' := Survived(s, logs, k, listed, recovered, cuts, newLog);
      s'.snapshots == [] && s'.last == |s'.history| && SnapshotsInv(s') && Faithful(s')
  {
    var p, s' := Survivors(s, k, newLog), Survived(s, logs, k, listed, recovered, cuts, newLog);
    RemainingRecords(s, logs, k, newLog);
    assert s'.snapshots == [] && s'.last == p;
    HistoryPrefix(s.history, p);
    hide StoreInv, DiskInv, EntriesOf, LostTail, Survivors, Reads, Replay, Settled, All, Enabled, Apply;
    forall u, n | n == p ensures Reads(All(s'.store), u, n) == Replay(s'.history, u, n) {
      PrefixSurvives(s, logs, k, listed, recovered, cuts, newLog, u, n);
    }
  }

  lemma SurvivedEntries(history: seq<Op>, from: nat, p: nat)
    requires from <= p <= |history|
    ensures EntriesOf(history[..p], p, p) == {}
    ensures EntriesOf(history, 0, from) + EntriesOf(history, from, p) == EntriesOf(history[..p], 0, p)
  {
    HistoryPrefix(history, p);
    EntriesSplit(history, 0, from, p);
    EntriesEmpty(history[..p], p, p);
  }

  /** The engine then goes on as if the lost operations had never been written, if and only if
    * the descriptor had counted none of them. Otherwise their numbers are not handed out again. */
  lemma GoesOnExactlyWhen(s: State, logs: map<nat, seq<Record>>, k: nat, listed: seq<(nat, Table)>, recovered: Files, cuts: seq<nat>, newLog: nat)
    requires StoreInv(s) && DiskInv(s) && Settled(s) && LostTail(s, logs, k, newLog)
    requires Enabled(WithLogs(s, logs), Reopen(listed, recovered, cuts, newLog))
    ensures Survivors(s, k, newLog) <= |s.history|
    ensures Inv(Survived(s, logs, k, listed, recovered, cuts, newLog)) <==> s.disk.manifest.Last() <= Survivors(s, k, newLog)
  {
    RemainingRecords(s, logs, k, newLog);
    if s.disk.manifest.Last() <= Survivors(s, k, newLog) {
      SurvivedStore(s, logs, k, listed, recovered, cuts, newLog);
      SurvivedReads(s, logs, k, listed, recovered, cuts, newLog);
      SurvivedDisk(s, logs, k, listed, recovered, cuts, newLog);
    }
  }

  // ---------------------------------------------------------------- one log, cut at any byte

  /** The newest log as it is read back once only `size` of its bytes are left. */
  ghost function CutLogs(s: State, reps: seq<Bytes>, size: nat): map<nat, seq<Record>>
    requires s.memLog in s.disk.logs && Logs(reps, s.disk.logs[s.memLog])
  {
    s.disk.logs[s.memLog := s.disk.logs[s.memLog][..LogReader.WhollyInside(0, reps, size)]]
  }

  /** The older log, if it still counts, comes first. */
  ghost function OlderRecords(s: State): seq<Record>
    requires s.disk.manifest.LogNumber() in s.disk.logs
  {
    if s.hasImm then s.disk.logs[s.disk.manifest.LogNumber()] else []
  }

  /** The two logs that count are replayed in order. */
  lemma RecordsInOrder(logs: map<nat, seq<Record>>, older: nat, newer: nat, newLog: nat)
    requires older <= newer < newLog && older in logs && newer in logs
    requires forall n :: n in logs ==> n < newLog && (n >= older ==> n == older || n == newer)
    ensures Concat(logs, older, newLog) == (if older < newer then logs[older] else []) + logs[newer]
  {
    ConcatSkips(logs, newer + 1, newLog, newLog);
    assert Concat(logs, newer, newLog) == logs[newer] + [] == logs[newer];
    if older < newer {
      ConcatSkips(logs, older + 1, newer, newLog);
    }
  }

  lemma AsMany(reps: seq<Bytes>, records: seq<Record>, size: nat)
    requires Logs(reps, records)
    ensures |reps| == |records| && LogReader.WhollyInside(0, reps, size) <= |records|
  {
    hide LogReader.WhollyInside;
  }

  /** Cutting the newest log leaves a prefix of all the records. */
  lemma CutLosesTail(s: State, reps: seq<Bytes>, size: nat, newLog: nat)
    requires LogsCount(s, newLog) && s.memLog in s.disk.logs && s.disk.manifest.LogNumber() in s.disk.logs && Logs(reps, s.disk.logs[s.memLog])
    ensures var k := |OlderRecords(s)| + LogReader.WhollyInside(0, reps, size);
      && LostTail(s, CutLogs(s, reps, size), k, newLog)
      && Survivors(s, k, newLog) == s.memStart + OpsInside(reps, s.disk.logs[s.memLog], size)
  {
    hide LogsDurable, Logs, LogReader.WhollyInside, OpsBefore, CutLogs, Concat;
    OlderOps(s, newLog);
    CutRecords(s, reps, size, newLog);
    AsMany(reps, s.disk.logs[s.memLog], size);
    FirstOf(OlderRecords(s), s.disk.logs[s.memLog], LogReader.WhollyInside(0, reps, size));
  }

  /** What recovery relies on when it replays the logs. */
  ghost predicate LogsCount(s: State, newLog: nat) {
    && s.immStart <= s.memStart <= s.last == |s.history| && (!s.hasImm ==> s.immStart == s.memStart)
    && LogsDurable(s)
    && forall n :: n in s.disk.logs ==> n < newLog
  }

  lemma CutRecords(s: State, reps: seq<Bytes>, size: nat, newLog: nat)
    requires LogsCount(s, newLog) && Logs(reps, s.disk.logs[s.memLog])
    ensures ReplayedRecords(s.disk, newLog) == OlderRecords(s) + s.disk.logs[s.memLog]
    ensures var k := LogReader.WhollyInside(0, reps, size);
      && k <= |s.disk.logs[s.memLog]| && CutLogs(s, reps, size).Keys == s.disk.logs.Keys
      && ReplayedRecords(WithLogs(s, CutLogs(s, reps, size)).disk, newLog) == OlderRecords(s) + s.disk.logs[s.memLog][..k]
  {
    hide Logs, LogReader.WhollyInside, Holds, Concat;
    AsMany(reps, s.disk.logs[s.memLog], size);
    RecordsInOrder(s.disk.logs, s.disk.manifest.LogNumber(), s.memLog, newLog);
    RecordsInOrder(CutLogs(s, reps, size), s.disk.manifest.LogNumber(), s.memLog, newLog);
  }

  lemma InvStarts(s: State)
    requires StoreInv(s)
    ensures s.immStart <= s.memStart <= s.last == |s.history|
  {
  }

  lemma FirstOf(older: seq<Record>, log: seq<Record>, k: nat)
    requires k <= |log|
    ensures (older + log)[..|older| + k] == older + log[..k]
    ensures OpsBefore(older + log, |older| + k) == OpsBefore(older + log, |older|) + OpsBefore(log, k)
  {
    hide OpsBefore;
    OpsBeforeAdds(older + log, |older|, |older| + k);
    assert (older + log)[|older|..] == log;
  }

  lemma OlderOps(s: State, newLog: nat)
    requires LogsCount(s, newLog)
    ensures OpsBefore(OlderRecords(s) + s.disk.logs[s.memLog], |OlderRecords(s)|) == s.memStart - s.immStart
  {
    if s.hasImm {
      AllOps(OlderRecords(s), s.disk.logs[s.memLog], s.history, s.immStart, s.memStart);
    }
  }

  lemma {:induction false} AllOps(records: seq<Record>, more: seq<Record>, history: seq<Op>, from: nat, to: nat)
    requires from <= to <= |history| && Holds(records, history, from, to)
    ensures OpsBefore(records + more, |records|) == to - from
  {
    if records != [] {
      AllOps(records[1..], more, history, from + |records[0].ops|, to);
      assert (records + more)[1..] == records[1..] + more;
    }
  }

  /** After any run whose compactions are tidy, and with the newest log cut off at any byte,
    * recovery leaves the engine reading a replay of a prefix of what was acknowledged. The
    * prefix ends between two batches and reaches at least to the last one synced. */
  lemma CutLogLeavesPrefix(run: seq<Action>, s: State, reps: seq<Bytes>, size: nat, synced: nat,
                           listed: seq<(nat, Table)>, recovered: Files, cuts: seq<nat>, newLog: nat, u: UserKey)
    requires Legal(Created(), run) && TidyRun(Created(), run) && s == Run(Created(), run)
    requires Logs(reps, s.disk.logs[s.memLog]) && synced <= |reps| && |LogFormat.Written(0, reps[..synced])| <= size
    requires Enabled(WithLogs(s, CutLogs(s, reps, size)), Reopen(listed, recovered, cuts, newLog))
    ensures var s' := Apply(WithLogs(s, CutLogs(s, reps, size)), Reopen(listed, recovered, cuts, newLog));
      var log := s.disk.logs[s.memLog];
      var p := s.memStart + OpsInside(reps, log, size);
      && s.memStart + OpsBefore(log, synced) <= p <= |Committed(run)|
      && Reads(All(s'.store), u, s'.last) == Replay(Committed(run), u, p)
  {
    hide *;
    RunFacts(run);
    CutLogRead(s, reps, size, synced, listed, recovered, cuts, newLog, u);
  }

  lemma RunFacts(run: seq<Action>)
    requires Legal(Created(), run) && TidyRun(Created(), run)
    ensures var s := Run(Created(), run); Settled(s) && s.last == |s.history| && s.history == Committed(run)
  {
    assert Created().history == [];
    hide StoreInv, DiskInv, SnapshotsInv, Faithful, Settled, Enabled, Apply, TidyRun, Legal, Run, Created, Committed;
    CreatedIsSettled();
    RunStaysSettled(Created(), run);
    HistoryIsCommitted(Created(), run);
    InvHoldsStore(Run(Created(), run));
    InvStarts(Run(Created(), run));
  }

  lemma CreatedIsSettled()
    ensures Settled(Created())
  {
    assert InLevels(NoLevels()) == {};
  }

  lemma CutLogRead(s: State, reps: seq<Bytes>, size: nat, synced: nat, listed: seq<(nat, Table)>, recovered: Files, cuts: seq<nat>, newLog: nat, u: UserKey)
    requires Inv(s) && Settled(s) && Logs(reps, s.disk.logs[s.memLog])
    requires synced <= |reps| && |LogFormat.Written(0, reps[..synced])| <= size
    requires Enabled(WithLogs(s, CutLogs(s, reps, size)), Reopen(listed, recovered, cuts, newLog))
    ensures var log, s' := s.disk.logs[s.memLog], Apply(WithLogs(s, CutLogs(s, reps, size)), Reopen(listed, recovered, cuts, newLog));
      var p := s.memStart + OpsInside(reps, log, size);
      && s.memStart + OpsBefore(log, synced) <= p <= s.last
      && Reads(All(s'.store), u, s'.last) == Replay(s.history, u, p)
  {
    hide WellFormed, Faithful, SnapshotsInv, EntriesOf, InLevels, Describes, TablesDurable, Logs, LogReader.WhollyInside, LogFormat.Written, Holds, Concat, OpsBefore;
    hide RecoveredTables, Lists, Settled, Survivors, LostTail, Reads, Replay;
    var log, logs, k := s.disk.logs[s.memLog], CutLogs(s, reps, size), |OlderRecords(s)| + LogReader.WhollyInside(0, reps, size);
    var s' := Apply(WithLogs(s, logs), Reopen(listed, recovered, cuts, newLog));
    assert logs.Keys == s.disk.logs.Keys;
    AsMany(reps, log, size);
    CutLosesTail(s, reps, size, newLog);
    TruncatedLogHoldsPrefix(reps, log, s.history, s.memStart, s.last, size, synced);
    RemainingRecords(s, logs, k, newLog);
    PrefixSurvives(s, logs, k, listed, recovered, cuts, newLog, u, s'.last);
  }

  // ---------------------------------------------------------------- both logs cut

  /** When both logs lose their ends, what is left is a prefix if and only if the older log kept
    * every operation or the newer one none. */
  lemma PrefixExactlyWhen(s: State, newLog: nat, k: nat, m: nat)
    requires LogsCount(s, newLog) && k <= |OlderRecords(s)| && m <= |s.disk.logs[s.memLog]|
    ensures var a, b := s.immStart + OpsBefore(OlderRecords(s), k), s.memStart + OpsBefore(s.disk.logs[s.memLog], m);
      var left := ReplayedEntries(OlderRecords(s)[..k] + s.disk.logs[s.memLog][..m]);
      && a <= s.memStart && b <= s.last
      && left == EntriesOf(s.history, s.immStart, a) + EntriesOf(s.history, s.memStart, b)
      && ((exists p :: s.immStart <= p <= s.last && left == EntriesOf(s.history, s.immStart, p)) <==> a == s.memStart || b == s.memStart)
  {
    hide EntriesOf, ReplayedEntries, OpsBefore, Holds;
    var older, newer := OlderRecords(s), s.disk.logs[s.memLog];
    var a, b := s.immStart + OpsBefore(older, k), s.memStart + OpsBefore(newer, m);
    OlderHolds(s, newLog);
    HoldsSplit(older, k, s.history, s.immStart, s.memStart);
    HoldsSplit(newer, m, s.history, s.memStart, s.last);
    ReplayedAre(older[..k], s.history, s.immStart, a);
    ReplayedAre(newer[..m], s.history, s.memStart, b);
    ReplayedConcat(older[..k], newer[..m]);
    TwoStretches(s.history, s.immStart, a, s.memStart, b);
  }

  lemma OlderHolds(s: State, newLog: nat)
    requires LogsCount(s, newLog)
    ensures Holds(OlderRecords(s), s.history, s.immStart, s.memStart) && Holds(s.disk.logs[s.memLog], s.history, s.memStart, s.last)
  {
  }

  lemma {:induction false} ReplayedConcat(a: seq<Record>, b: seq<Record>)
    ensures ReplayedEntries(a + b) == ReplayedEntries(a) + ReplayedEntries(b)
  {
    hide RecordEntries;
    if a == [] {
      assert a + b == b;
    } else {
      ReplayedConcat(a[1..], b);
      assert (a + b)[1..] == a[1..] + b;
    }
  }

  /** Two stretches of the history make one if and only if they touch or one is empty. */
  lemma TwoStretches(history: seq<Op>, from: nat, a: nat, mid: nat, b: nat)
    requires from <= a <= mid <= b <= |history|
    ensures var left := EntriesOf(history, from, a) + EntriesOf(history, mid, b);
      (exists p :: from <= p <= |history| && left == EntriesOf(history, from, p)) <==> a == mid || b == mid
  {
    var left := EntriesOf(history, from, a) + EntriesOf(history, mid, b);
    if a == mid || b == mid {
      EntriesSplit(history, from, mid, b);
      EntriesEmpty(history, mid, mid);
      assert left == EntriesOf(history, from, if a == mid then b else a);
    } else {
      forall p: nat | from <= p <= |history| ensures left != EntriesOf(history, from, p) {
        if p < b {
          assert EntryOf(history, b) in left && EntryOf(history, b) !in EntriesOf(history, from, p);
        } else {
          assert EntryOf(history, a + 1) !in left && EntryOf(history, a + 1) in EntriesOf(history, from, p);
        }
      }
    }
  }
}
