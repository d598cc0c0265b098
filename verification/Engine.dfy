/** The storage engine as a state machine: writes, memtable switches, flushes, trivial moves,
  * compactions, snapshots, garbage collection, and crashes followed by recovery.
  *
  * `history` records every committed operation; nothing in the engine reads it. The theorems
  * at the end compare what the engine answers with a replay of it.
  */
module Engine {
  import opened Keys
  import opened Layers
  import opened Compaction
  import opened VersionEdits
  import opened Descriptor
  import opened History

  /** One record of a write-ahead log: a batch and the number of its first operation. */
  datatype Record = Record(first: nat, ops: seq<Op>)

  datatype Disk = Disk(manifest: Manifest, logs: map<nat, seq<Record>>, tables: TableFiles)

  datatype State = State(
    history: seq<Op>,
    store: Store,
    hasImm: bool,
    immStart: nat,
    memStart: nat,
    snapshots: seq<nat>,
    last: nat,
    nextFile: nat,
    memLog: nat,
    disk: Disk)

  datatype Action =
    | Write(ops: seq<Op>)
    | Switch
    | FlushNothing
    | Flush(table: Table, level: nat)
    | Move(job: Job, moved: Table)
    | Compact(job: Job, outs: Files, next: nat)
    | TakeSnapshot
    | ReleaseSnapshot(index: nat)
    | Orphan(entries: seq<Entry>)
    | Collect(pinned: set<nat>)
    | Reopen(listed: seq<(nat, Table)>, recovered: Files, cuts: seq<nat>, newLog: nat)

  /** The sequence number below which no reader looks: compactions keep everything a reader
    * at or above it can tell apart. */
  function Oldest(s: State): nat {
    if s.snapshots == [] then s.last else s.snapshots[0]
  }

  // ---------------------------------------------------------------- logs

  /** `records` hold exactly operations from+1 to to, in order. */
  ghost predicate Holds(records: seq<Record>, history: seq<Op>, from: nat, to: nat)
    requires from <= to <= |history|
  {
    if records == [] then
      from == to
    else
      var mid := from + |records[0].ops|;
      && records[0].first == from + 1
      && mid <= to
      && history[from..mid] == records[0].ops
      && Holds(records[1..], history, mid, to)
  }

  /** Records of the logs numbered lo to hi-1, in log order. */
  function Concat(logs: map<nat, seq<Record>>, lo: nat, hi: nat): seq<Record>
    decreases hi - lo
  {
    if lo >= hi then [] else (if lo in logs then logs[lo] else []) + Concat(logs, lo + 1, hi)
  }

  // ---------------------------------------------------------------- the invariant

  /** In memory: the memtables hold the newest operations, older ones lie in tables. */
  ghost predicate StoreInv(s: State) {
    && s.last == |s.history| < MAX_SEQUENCE
    && s.immStart <= s.memStart <= s.last
    && (!s.hasImm ==> s.immStart == s.memStart)
    && WellFormed(s.store)
    && s.store.mem == EntriesOf(s.history, s.memStart, s.last)
    && s.store.imm == EntriesOf(s.history, s.immStart, s.memStart)
    && InLevels(s.store.levels) <= EntriesOf(s.history, 0, s.immStart)
  }

  ghost predicate SnapshotsInv(s: State) {
    && (forall i :: 0 <= i < |s.snapshots| ==> s.snapshots[i] <= s.last)
    && (forall i, k :: 0 <= i < k < |s.snapshots| ==> s.snapshots[i] <= s.snapshots[k])
  }

  /** Every reader the engine admits sees what a replay would show. */
  ghost predicate Faithful(s: State)
    requires s.last == |s.history|
  {
    forall u, n :: Oldest(s) <= n <= s.last ==> Reads(All(s.store), u, n) == Replay(s.history, u, n)
  }

  /** Every table of the version is on disk, under a number already handed out. */
  ghost predicate TablesDurable(levels: seq<set<Table>>, nextFile: nat, tables: TableFiles) {
    forall l, t :: 0 <= l < |levels| && t in levels[l]
      ==> t.number < nextFile && t.number in tables && tables[t.number] == t.entries
  }

  /** The live logs hold what the memtables hold: the immutable one's log is the oldest the
    * manifest still names. */
  ghost predicate LogsDurable(s: State)
    requires s.last == |s.history| && s.immStart <= s.memStart <= s.last
  {
    var logNumber := s.disk.manifest.LogNumber();
    && logNumber <= s.memLog < s.nextFile
    && (logNumber == s.memLog <==> !s.hasImm)
    && logNumber in s.disk.logs && s.memLog in s.disk.logs
    && (forall n :: n in s.disk.logs && n >= logNumber ==> n == logNumber || n == s.memLog)
    && (s.hasImm ==> Holds(s.disk.logs[logNumber], s.history, s.immStart, s.memStart))
    && Holds(s.disk.logs[s.memLog], s.history, s.memStart, s.last)
  }

  /** On disk: the descriptor's records describe the live version, its tables are there, and
    * the live logs hold the rest. */
  ghost predicate DiskInv(s: State)
    requires s.last == |s.history| && s.immStart <= s.memStart <= s.last
  {
    var m := s.disk.manifest;
    && Describes(m.edits, s.disk.tables, s.store.levels, m.NextFile())
    && m.Complete() && m.NextFile() <= s.nextFile
    && s.immStart <= m.Last() <= s.last
    && TablesDurable(s.store.levels, m.NextFile(), s.disk.tables)
    && LogsDurable(s)
  }

  ghost predicate Inv(s: State) {
    StoreInv(s) && SnapshotsInv(s) && Faithful(s) && DiskInv(s)
  }

  // ---------------------------------------------------------------- actions

  /** LogAndApply: the edit reaches the descriptor together with the counters, then the new
    * version is installed. */
  function Install(s: State, levels: seq<set<Table>>, e: Edit, logNumber: nat, nextFile: nat): State {
    s.(store := s.store.(levels := levels),
       nextFile := nextFile,
       disk := s.disk.(manifest := LogEdit(s.disk.manifest, e, logNumber, nextFile, s.last)))
  }

  function LogEdit(m: Manifest, e: Edit, logNumber: nat, nextFile: nat, last: nat): (m': Manifest)
    ensures m'.Complete() && m'.LogNumber() == logNumber && m'.NextFile() == nextFile && m'.Last() == last
  {
    Manifest(m.edits + [RecordOf(e, logNumber, nextFile, last)])
  }

  function AddTables(d: Disk, tables: TableFiles): Disk {
    d.(tables := d.tables + tables)
  }

  function FileOf(outs: set<Table>): TableFiles
    requires forall t, u :: t in outs && u in outs && t.number == u.number ==> t == u
  {
    map t | t in outs :: t.number := t.entries
  }

  ghost predicate NumberedFrom(outs: set<Table>, lo: nat, hi: nat) {
    && (forall t :: t in outs ==> lo <= t.number < hi)
    && (forall t, u :: t in outs && u in outs && t.number == u.number ==> t == u)
  }

  // ---------------------------------------------------------------- recovery

  /** The entry of the k-th operation of a record; numbers are consecutive from its first. */
  function OpEntry(r: Record, k: nat): Entry
    requires k < |r.ops|
  {
    Entry(InternalKey(r.ops[k].user, r.first + k, r.ops[k].kind), if r.ops[k].kind.Put? then r.ops[k].value else [])
  }

  /** The entries a record inserts into a memtable. */
  function RecordEntries(r: Record): set<Entry> {
    set k | 0 <= k < |r.ops| :: OpEntry(r, k)
  }

  ghost function ReplayedEntries(records: seq<Record>): set<Entry> {
    if records == [] then {} else RecordEntries(records[0]) + ReplayedEntries(records[1..])
  }

  /** The largest number any record hands out, counting from `last`. */
  function MaxSequence(records: seq<Record>, last: nat): nat {
    if records == [] then
      last
    else
      var end: int := records[0].first + |records[0].ops| - 1;
      MaxSequence(records[1..], if end > last then end else last)
  }

  /** The logs recovery replays: those the manifest still needs, oldest first. */
  function ReplayedRecords(d: Disk, newLog: nat): seq<Record> {
    Concat(d.logs, d.manifest.LogNumber(), newLog)
  }

  /** The tables recovery writes from `records`: one per filled memtable, cut where the
    * memtable overflowed, numbered upwards; records after the last cut insert nothing. */
  ghost predicate RecoveredTables(records: seq<Record>, recovered: Files, cuts: seq<nat>, lo: nat, hi: nat) {
    && |cuts| == |recovered| + 1
    && cuts[0] == 0 && cuts[|recovered|] <= |records|
    && (forall i :: 0 <= i < |recovered| ==> RecoveredTable(recovered[i], records, cuts, i))
    && ReplayedEntries(records[cuts[|recovered|]..]) == {}
    && (forall i :: 0 <= i < |recovered| ==> lo <= recovered[i].number < hi)
    && (forall i, k :: 0 <= i < k < |recovered| ==> recovered[i].number < recovered[k].number)
  }

  ghost predicate RecoveredTable(t: Table, records: seq<Record>, cuts: seq<nat>, i: nat) {
    && i + 1 < |cuts| && cuts[i] <= cuts[i + 1] <= |records|
    && t.Valid() && Elements(t.entries) == ReplayedEntries(records[cuts[i]..cuts[i + 1]])
  }

  ghost predicate Enabled(s: State, a: Action)
    requires StoreInv(s)
  {
    match a
    case Write(ops) => s.last + |ops| < MAX_SEQUENCE
    case Switch => !s.hasImm
    case FlushNothing => s.hasImm && s.store.imm == {}
    case Flush(t, l) =>
      && s.hasImm && t.Valid() && Elements(t.entries) == s.store.imm
      && t.number == s.nextFile && MayFlushTo(s.store.levels, t, l)
    case Move(j, t) =>
      && Selected(s.store.levels, j) && NewerStays(s.store.levels[j.level], j.upper)
      && j.upper == {t} && j.lower == {}
    case Compact(j, outs, next) =>
      && Selected(s.store.levels, j) && NewerStays(s.store.levels[j.level], j.upper)
      && Outputs(j, SetOf(outs)) && Contents(SetOf(outs)) == Kept(s.store.levels, j, Oldest(s))
      && s.nextFile <= next && NumberedFrom(SetOf(outs), s.nextFile, next)
      && forall d :: !Resurrects(s.store, j, Oldest(s), d)
    case TakeSnapshot => true
    case ReleaseSnapshot(i) => i < |s.snapshots|
    case Orphan(_) => true
    case Collect(_) => true
    case Reopen(listed, recovered, cuts, newLog) =>
      && Lists(listed, ReplayedLevels(s.disk.manifest.edits, s.disk.tables))
      && s.disk.manifest.NextFile() < newLog
      && (forall n :: n in s.disk.logs ==> n < newLog)
      && RecoveredTables(ReplayedRecords(s.disk, newLog), recovered, cuts, s.disk.manifest.NextFile() + 1, newLog)
  }

  ghost function Apply(s: State, a: Action): State
    requires StoreInv(s) && Enabled(s, a)
  {
    match a
    case Write(ops) =>
      var history := s.history + ops;
      var log := if s.memLog in s.disk.logs then s.disk.logs[s.memLog] else [];
      s.(history := history,
         store := s.store.(mem := s.store.mem + EntriesOf(history, s.last, |history|)),
         last := |history|,
         disk := s.disk.(logs := s.disk.logs[s.memLog := log + [Record(s.last + 1, ops)]]))
    case Switch =>
      s.(store := s.store.(mem := {}, imm := s.store.mem),
         hasImm := true, immStart := s.memStart, memStart := s.last,
         memLog := s.nextFile, nextFile := s.nextFile + 1,
         disk := s.disk.(logs := s.disk.logs[s.nextFile := []]))
    case FlushNothing =>
      // a number was allocated for the table that was never written
      Install(s, s.store.levels, Edit({}, []), s.memLog, s.nextFile + 1).(hasImm := false, immStart := s.memStart)
    case Flush(t, l) =>
      var s' := Install(s, AddTo(s.store.levels, l, t), AddedFiles(l, [t]), s.memLog, s.nextFile + 1);
      s'.(store := s'.store.(imm := {}), hasImm := false, immStart := s.memStart,
          disk := AddTables(s'.disk, map[t.number := t.entries]))
    case Move(j, t) =>
      Install(s, Compacted(s.store.levels, j, {t}), CompactionEdit(j.level, j.upper, j.lower, [t]),
              s.disk.manifest.LogNumber(), s.nextFile)
    case Compact(j, outs, next) =>
      var s' := Install(s, Compacted(s.store.levels, j, SetOf(outs)), CompactionEdit(j.level, j.upper, j.lower, outs),
                        s.disk.manifest.LogNumber(), next);
      s'.(disk := AddTables(s'.disk, FileOf(SetOf(outs))))
    case TakeSnapshot => s.(snapshots := s.snapshots + [s.last])
    case ReleaseSnapshot(i) => s.(snapshots := s.snapshots[..i] + s.snapshots[i + 1..])
    case Orphan(entries) =>
      s.(nextFile := s.nextFile + 1, disk := AddTables(s.disk, map[s.nextFile := entries]))
    case Collect(pinned) =>
      s.(disk := s.disk.(
           logs := NeededLogs(s.disk.logs, s.disk.manifest.LogNumber()),
           tables := NeededTables(s.disk.tables, pinned + LiveNumbers(s.store.levels))))
    case Reopen(listed, recovered, cuts, newLog) => Reopened(s, listed, recovered, newLog)
  }

  function NeededLogs(logs: map<nat, seq<Record>>, logNumber: nat): map<nat, seq<Record>> {
    map n | n in logs && n >= logNumber :: logs[n]
  }

  function NeededTables(tables: TableFiles, live: set<nat>): TableFiles {
    map n | n in tables && n in live :: tables[n]
  }

  ghost function LiveNumbers(levels: seq<set<Table>>): set<nat> {
    set l, t | 0 <= l < |levels| && t in levels[l] :: t.number
  }

  function RecoveredFiles(recovered: Files): TableFiles
    requires forall i, k :: 0 <= i < k < |recovered| ==> recovered[i].number < recovered[k].number
  {
    map t | t in recovered :: t.number := t.entries
  }

  /** Only the disk outlives a crash. The version is rebuilt from the descriptor's records and
    * the files they name; opening flushes what the live logs hold to level 0, starts a new log
    * and a new descriptor: a snapshot of the version and the edit that adds what was flushed. */
  ghost function Reopened(s: State, listed: seq<(nat, Table)>, recovered: Files, newLog: nat): State
    requires forall i, k :: 0 <= i < k < |recovered| ==> recovered[i].number < recovered[k].number
  {
    var last := MaxSequence(ReplayedRecords(s.disk, newLog), s.disk.manifest.Last());
    State(
      s.history, Store({}, {}, RecoveredLevels(s.disk, recovered)), false, last, last, [], last, newLog + 1, newLog,
      ReopenedDisk(s.disk, listed, recovered, newLog, last))
  }

  function ReopenedDisk(d: Disk, listed: seq<(nat, Table)>, recovered: Files, newLog: nat, last: nat): Disk
    requires forall i, k :: 0 <= i < k < |recovered| ==> recovered[i].number < recovered[k].number
  {
    Disk(LogEdit(Manifest([Snapshot(listed)]), AddedFiles(0, recovered), newLog, newLog + 1, last),
         d.logs[newLog := []],
         d.tables + RecoveredFiles(recovered))
  }

  ghost function RecoveredLevels(d: Disk, recovered: Files): seq<set<Table>> {
    WithRecovered(ReplayedLevels(d.manifest.edits, d.tables), recovered)
  }
}
