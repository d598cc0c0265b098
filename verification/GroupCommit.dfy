/** The queue of writers: the one in front logs and inserts the batches of several at once,
  * while others arrive and readers read. */
module GroupCommit {
  import opened Keys
  import opened History
  import opened Engine
  import opened EngineInvariant

  /** A call to Write: its batch, if it has one, and whether it asked for a sync. */
  datatype Writer = Writer(batch: Option<seq<Op>>, sync: bool) {
    function Ops(): seq<Op> {
      if batch.Some? then batch.value else []
    }
  }

  function AllOps(writers: seq<Writer>): seq<Op> {
    if writers == [] then [] else AllOps(writers[..|writers| - 1]) + writers[|writers| - 1].Ops()
  }

  lemma {:induction false} AllOpsConcat(a: seq<Writer>, b: seq<Writer>)
    ensures AllOps(a + b) == AllOps(a) + AllOps(b)
  {
    if b == [] {
      assert a + b == a;
    } else {
      var n := |b| - 1;
      assert (a + b)[..|a| + n] == a + b[..n];
      AllOpsConcat(a, b[..n]);
    }
  }

  // ---------------------------------------------------------------- choosing a group

  const MEGABYTE: nat := 0x10_0000
  const SMALL: nat := 0x2_0000

  function MaxSize(first: nat): nat {
    if first <= SMALL then first + SMALL else MEGABYTE
  }

  /** A megabyte; for a small first batch only 128 KB more, so that it is not held up. */
  lemma GroupLimits()
    ensures MaxSize(1) == 131073 && MaxSize(131072) == 262144 && MaxSize(131073) == 1048576
  {
  }

  function TotalSize(writers: seq<Writer>, byteSize: seq<Op> -> nat): nat {
    if writers == [] then 0 else
      TotalSize(writers[..|writers| - 1], byteSize)
        + (if writers[|writers| - 1].batch.Some? then byteSize(writers[|writers| - 1].batch.value) else 0)
  }

  /** The first `k` writers may be served by the first one. */
  ghost predicate MayGroup(queue: seq<Writer>, k: nat) {
    && 0 < k <= |queue| && queue[0].batch.Some?
    && forall i :: 0 <= i < k ==> !RidesAlone(queue[0], queue[i])
  }

  /** A sync write does not ride under a leader that does not sync. */
  predicate RidesAlone(leader: Writer, w: Writer) {
    w.sync && !leader.sync
  }

  /** Appends the batches of the writers behind the first to its own, as long as none of them
    * needs a sync the first does not, and the whole does not get too big. */
  method BuildBatchGroup(queue: seq<Writer>, byteSize: seq<Op> -> nat) returns (result: seq<Op>, k: nat)
    requires queue != [] && queue[0].batch.Some?
    ensures MayGroup(queue, k) && result == AllOps(queue[..k])
    ensures var first, all := byteSize(queue[0].batch.value), TotalSize(queue[..k], byteSize); all == first || all <= MaxSize(first)
    ensures k < |queue| ==> RidesAlone(queue[0], queue[k]) || TotalSize(queue[..k + 1], byteSize) > MaxSize(byteSize(queue[0].batch.value))
  {
    var first := queue[0];
    result := first.batch.value;
    var size := byteSize(first.batch.value);
    var maxSize := MaxSize(size);
    k := 1;
    OneWriter(queue, byteSize);
    while k < |queue|
      invariant 1 <= k <= |queue| && MayGroup(queue, k)
      invariant result == AllOps(queue[..k]) && size == TotalSize(queue[..k], byteSize)
      invariant size == byteSize(first.batch.value) || size <= maxSize
    {
      var w := queue[k];
      assert queue[..k + 1][..k] == queue[..k];
      if RidesAlone(first, w) {
        break;
      }
      if w.batch.Some? {
        size := size + byteSize(w.batch.value);
        if size > maxSize {
          break;
        }
        result := result + w.batch.value;
      } else {
        assert result + [] == result;
      }
      k := k + 1;
    }
    assert queue[..|queue|] == queue;
  }

  lemma OneWriter(queue: seq<Writer>, byteSize: seq<Op> -> nat)
    requires queue != [] && queue[0].batch.Some?
    ensures AllOps(queue[..1]) == queue[0].batch.value && TotalSize(queue[..1], byteSize) == byteSize(queue[0].batch.value)
  {
    assert queue[..1][..0] == [];
  }

  // ---------------------------------------------------------------- the protocol

  /** What the front writer is doing while it has let go of the lock: the group it leads, the
    * record it writes, whether that is in the log, and how many operations are inserted. */
  datatype Phase = Idle | Writing(k: nat, record: Record, logged: bool, inserted: nat)

  /** `arrived` records every writer in order of arrival; the first `served` have returned. */
  datatype State = State(
    arrived: seq<Writer>,
    served: nat,
    queue: seq<Writer>,
    log: seq<Record>,
    synced: nat,
    mem: set<Entry>,
    last: nat,
    phase: Phase)

  datatype Step =
    | Arrive(w: Writer)
    | Begin(k: nat)
    | AddRecord
    | InsertOne
    | Finish
    | ServeNull

  ghost function Served(s: State): seq<Op>
    requires s.served <= |s.arrived|
  {
    AllOps(s.arrived[..s.served])
  }

  /** The operations of the group being written. */
  ghost function Pending(s: State): seq<Op> {
    if s.phase.Writing? then s.phase.record.ops else []
  }

  ghost predicate QueueInv(s: State) {
    && s.served <= |s.arrived| && s.queue == s.arrived[s.served..]
    && s.last == |Served(s)|
    && (s.phase.Writing? ==>
         MayGroup(s.queue, s.phase.k) && s.phase.record == Record(s.last + 1, AllOps(s.queue[..s.phase.k]))
         && s.phase.inserted <= |s.phase.record.ops| && (s.phase.inserted > 0 ==> s.phase.logged))
  }

  /** The log holds what has been served, and the group once it is logged: each operation once,
    * in order of arrival, numbered without gaps. */
  ghost predicate LogInv(s: State)
    requires QueueInv(s)
  {
    if s.phase.Writing? && s.phase.logged
    then Holds(s.log, Served(s) + Pending(s), 0, s.last + |Pending(s)|)
    else Holds(s.log, Served(s), 0, s.last)
  }

  /** The memtable holds what has been served, and what is inserted of the group. */
  ghost predicate MemInv(s: State)
    requires QueueInv(s)
  {
    s.mem == EntriesOf(Served(s) + Pending(s), 0, s.last + (if s.phase.Writing? then s.phase.inserted else 0))
  }

  predicate NeedsSync(w: Writer) {
    w.sync && w.batch.Some?
  }

  /** Everything up to and with writer `i` is in records already synced. */
  ghost predicate SyncedThrough(s: State, i: nat)
    requires i < |s.arrived|
  {
    s.synced <= |s.log| && |AllOps(s.arrived[..i + 1])| <= OpsBefore(s.log, s.synced)
  }

  /** A writer that asked for a sync returns only when the log is synced up to its batch. */
  ghost predicate SyncInv(s: State)
    requires QueueInv(s)
  {
    && s.synced <= |s.log|
    && (forall i :: 0 <= i < s.served && NeedsSync(s.arrived[i]) ==> SyncedThrough(s, i))
    && (s.phase.Writing? && s.phase.logged && s.queue[0].sync ==> s.synced == |s.log|)
  }

  ghost predicate Inv(s: State) {
    QueueInv(s) && LogInv(s) && MemInv(s) && SyncInv(s)
  }

  ghost predicate Enabled(s: State, step: Step) {
    match step
    case Arrive(_) => true
    case Begin(k) => s.phase.Idle? && MayGroup(s.queue, k)
    case AddRecord => s.phase.Writing? && !s.phase.logged
    case InsertOne => s.phase.Writing? && s.phase.logged && s.phase.inserted < |s.phase.record.ops|
    case Finish => s.phase.Writing? && s.phase.logged && s.phase.inserted == |s.phase.record.ops| && s.phase.k <= |s.queue|
    // a writer without a batch only makes room in the memtable
    case ServeNull => s.phase.Idle? && s.queue != [] && s.queue[0].batch.None?
  }

  ghost function Next(s: State, step: Step): State
    requires Enabled(s, step)
  {
    match step
    case Arrive(w) => s.(arrived := s.arrived + [w], queue := s.queue + [w])
    case Begin(k) => s.(phase := Writing(k, Record(s.last + 1, AllOps(s.queue[..k])), false, 0))
    case AddRecord =>
      s.(log := s.log + [s.phase.record], synced := if s.queue != [] && s.queue[0].sync then |s.log| + 1 else s.synced,
         phase := s.phase.(logged := true))
    case InsertOne =>
      s.(mem := s.mem + {OpEntry(s.phase.record, s.phase.inserted)}, phase := s.phase.(inserted := s.phase.inserted + 1))
    case Finish =>
      s.(last := s.last + |s.phase.record.ops|, served := s.served + s.phase.k, queue := s.queue[s.phase.k..], phase := Idle)
    case ServeNull => s.(served := s.served + 1, queue := s.queue[1..])
  }

  // ---------------------------------------------------------------- steps keep the invariant

  lemma ArriveKeepsInv(s: State, w: Writer)
    requires Inv(s)
    ensures Inv(Next(s, Arrive(w)))
  {
    var s' := Next(s, Arrive(w));
    assert s'.arrived[..s.served] == s.arrived[..s.served];
    if s.phase.Writing? {
      assert s'.queue[..s.phase.k] == s.queue[..s.phase.k];
    }
    forall i | 0 <= i < s.served && NeedsSync(s'.arrived[i]) ensures SyncedThrough(s', i) {
      assert SyncedThrough(s, i) && s'.arrived[..i + 1] == s.arrived[..i + 1];
    }
  }

  lemma BeginKeepsInv(s: State, k: nat)
    requires Inv(s) && Enabled(s, Begin(k))
    ensures Inv(Next(s, Begin(k)))
  {
    var s' := Next(s, Begin(k));
    EntriesExtend(Served(s), Pending(s'), 0, s.last);
    assert Served(s) + [] == Served(s);
  }

  lemma SyncGrows(s: State, s': State)
    requires QueueInv(s) && SyncInv(s) && QueueInv(s') && s'.served == s.served && s'.arrived == s.arrived
    requires s.log <= s'.log && s.synced <= s'.synced <= |s'.log|
    ensures forall i :: 0 <= i < s.served && NeedsSync(s.arrived[i]) ==> SyncedThrough(s', i)
  {
    OpsBeforeAdds(s'.log, s.synced, s'.synced);
    SameOpsBefore(s.log, s'.log, s.synced);
  }

  lemma {:induction false} SameOpsBefore(log: seq<Record>, log': seq<Record>, k: nat)
    requires log <= log' && k <= |log|
    ensures OpsBefore(log', k) == OpsBefore(log, k)
    decreases k
  {
    if k > 0 {
      assert log[1..] <= log'[1..];
      SameOpsBefore(log[1..], log'[1..], k - 1);
    }
  }

  lemma AddRecordKeepsInv(s: State)
    requires Inv(s) && Enabled(s, AddRecord)
    ensures Inv(Next(s, AddRecord))
  {
    var s' := Next(s, AddRecord);
    HoldsAppend(s.log, Served(s), 0, s.last, s.phase.record);
    hide Holds, AllOps, SyncedThrough, MayGroup, EntriesOf, OpsBefore;
    SyncGrows(s, s');
  }

  lemma InsertOneKeepsInv(s: State)
    requires Inv(s) && Enabled(s, InsertOne)
    ensures Inv(Next(s, InsertOne))
  {
    var s' := Next(s, InsertOne);
    var all, n := Served(s) + Pending(s), s.last + s.phase.inserted;
    EntriesSplit(all, 0, n, n + 1);
    assert OpEntry(s.phase.record, s.phase.inserted) == EntryOf(all, n + 1);
    assert EntriesOf(all, n, n + 1) == {EntryOf(all, n + 1)};
  }

  /** Serving a group moves its operations from pending to served. */
  lemma ServedHistory(s: State, k: nat)
    requires QueueInv(s) && k <= |s.queue|
    ensures s.served + k <= |s.arrived| && s.queue[k..] == s.arrived[s.served + k..]
    ensures AllOps(s.arrived[..s.served + k]) == Served(s) + AllOps(s.queue[..k])
  {
    assert s.arrived[..s.served + k] == s.arrived[..s.served] + s.queue[..k];
    AllOpsConcat(s.arrived[..s.served], s.queue[..k]);
  }

  lemma {:induction false} AllOpsGrow(writers: seq<Writer>, i: nat, j: nat)
    requires i <= j <= |writers|
    ensures |AllOps(writers[..i])| <= |AllOps(writers[..j])|
  {
    assert writers[..j] == writers[..i] + writers[i..j];
    AllOpsConcat(writers[..i], writers[i..j]);
  }

  lemma {:induction false} HoldsCounts(records: seq<Record>, history: seq<Op>, from: nat, to: nat)
    requires from <= to <= |history| && Holds(records, history, from, to)
    ensures OpsBefore(records, |records|) == to - from
    decreases records
  {
    if records != [] {
      HoldsCounts(records[1..], history, from + |records[0].ops|, to);
    }
  }

  lemma FinishKeepsInv(s: State)
    requires Inv(s) && Enabled(s, Finish)
    ensures Inv(Next(s, Finish))
    ensures Served(Next(s, Finish)) == Served(s) + s.phase.record.ops
  {
    hide EntriesOf, Holds, AllOps, SyncedThrough, MayGroup;
    var s' := Next(s, Finish);
    ServedHistory(s, s.phase.k);
    assert Served(s') + [] == Served(s');
    FinishKeepsSync(s);
  }

  /** If the group has a sync writer, its leader has synced the log. */
  lemma FinishKeepsSync(s: State)
    requires QueueInv(s) && LogInv(s) && SyncInv(s) && Enabled(s, Finish)
    ensures var s' := Next(s, Finish);
      s'.served <= |s'.arrived| && forall i :: 0 <= i < s'.served && NeedsSync(s'.arrived[i]) ==> SyncedThrough(s', i)
  {
    hide Holds, AllOps;
    var s', k := Next(s, Finish), s.phase.k;
    ServedHistory(s, k);
    HoldsCounts(s.log, Served(s) + Pending(s), 0, s.last + |Pending(s)|);
    assert NeedsSync(s.queue[0]) || !s.queue[0].sync;
    forall i | 0 <= i < s'.served && NeedsSync(s'.arrived[i]) ensures SyncedThrough(s', i) {
      if i < s.served {
        assert SyncedThrough(s, i);
      } else {
        assert s.queue[i - s.served] == s.arrived[i];
        AllOpsGrow(s.arrived, i + 1, s'.served);
      }
    }
  }

  lemma ServeNullKeepsInv(s: State)
    requires Inv(s) && Enabled(s, ServeNull)
    ensures Inv(Next(s, ServeNull))
    ensures Served(Next(s, ServeNull)) == Served(s)
  {
    var s' := Next(s, ServeNull);
    hide Holds, EntriesOf, OpsBefore, SyncedThrough;
    ServedHistory(s, 1);
    NullAddsNothing(s.queue[0]);
    assert s.queue[..1] == [s.queue[0]] && s.queue[0] == s.arrived[s.served];
    assert Served(s) + [] == Served(s);
    forall i | 0 <= i < s'.served && NeedsSync(s.arrived[i]) ensures SyncedThrough(s', i) {
      assert SyncedThrough(s, i);
      SameSync(s, s', i);
    }
  }

  lemma NullAddsNothing(w: Writer)
    requires w.batch.None?
    ensures AllOps([w]) == []
  {
    assert [w][..0] == [];
  }

  lemma SameSync(s: State, s': State, i: nat)
    requires i < |s.arrived| && s'.arrived == s.arrived && s'.log == s.log && s'.synced == s.synced
    ensures SyncedThrough(s, i) <==> SyncedThrough(s', i)
  {
  }

  lemma StepKeepsInv(s: State, step: Step)
    requires Inv(s) && Enabled(s, step)
    ensures Inv(Next(s, step))
  {
    match step
    case Arrive(w) => ArriveKeepsInv(s, w);
    case Begin(k) => BeginKeepsInv(s, k);
    case AddRecord => AddRecordKeepsInv(s);
    case InsertOne => InsertOneKeepsInv(s);
    case Finish => FinishKeepsInv(s);
    case ServeNull => ServeNullKeepsInv(s);
  }

  // ---------------------------------------------------------------- runs

  ghost predicate Legal(s: State, run: seq<Step>)
    decreases run
  {
    run == [] || (Enabled(s, run[0]) && Legal(Next(s, run[0]), run[1..]))
  }

  ghost function After(s: State, run: seq<Step>): State
    requires Legal(s, run)
    decreases run
  {
    if run == [] then s else After(Next(s, run[0]), run[1..])
  }

  const START := State.State([], 0, [], [], 0, {}, 0, Idle)

  lemma {:induction false} RunKeepsInv(s: State, run: seq<Step>)
    requires Inv(s) && Legal(s, run)
    ensures Inv(After(s, run))
    decreases run
  {
    hide Inv, Enabled, Next;
    if run != [] {
      StepKeepsInv(s, run[0]);
      RunKeepsInv(Next(s, run[0]), run[1..]);
    }
  }

  /** After any interleaving of arrivals and commits: the served writers are the first to have
    * arrived; the log holds their batches once each, in that order, numbered from 1 without a
    * gap; and a read at the last sequence number sees all of them and nothing of the group
    * being written. */
  lemma GroupCommitIsSerial(run: seq<Step>)
    requires Legal(START, run)
    ensures var s := After(START, run);
      && s.served + |s.queue| == |s.arrived|
      && s.last == |AllOps(s.arrived[..s.served])|
      && (s.phase.Idle? ==> Holds(s.log, AllOps(s.arrived[..s.served]), 0, s.last))
      && (set e | e in s.mem && e.key.seqno <= s.last) == EntriesOf(AllOps(s.arrived[..s.served]), 0, s.last)
      && forall i :: 0 <= i < s.served && NeedsSync(s.arrived[i]) ==> SyncedThrough(s, i)
  {
    assert Inv(START);
    RunKeepsInv(START, run);
    var s := After(START, run);
    VisibleAreServed(s);
  }

  /** Entries of a half-inserted group are numbered above what readers see. */
  lemma VisibleAreServed(s: State)
    requires QueueInv(s) && MemInv(s)
    ensures (set e | e in s.mem && e.key.seqno <= s.last) == EntriesOf(Served(s), 0, s.last)
  {
    var all, to := Served(s) + Pending(s), s.last + (if s.phase.Writing? then s.phase.inserted else 0);
    EntriesSplit(all, 0, s.last, to);
    EntriesExtend(Served(s), Pending(s), 0, s.last);
    forall e | e in EntriesOf(all, s.last, to) ensures e.key.seqno > s.last {}
    forall e | e in EntriesOf(all, 0, s.last) ensures e.key.seqno <= s.last {}
  }

  /** To the engine, one write of a whole group is the writes of its batches one by one; only
    * the records in the log are cut differently. */
  lemma OneWriteForTheGroup(s: Engine.State, a: seq<Op>, b: seq<Op>)
    requires StoreInv(s) && Engine.Enabled(s, Write(a + b)) && s.memLog in s.disk.logs
    ensures Engine.Enabled(s, Write(a)) && StoreInv(Apply(s, Write(a))) && Engine.Enabled(Apply(s, Write(a)), Write(b))
    ensures var grouped, serial := Apply(s, Write(a + b)), Apply(Apply(s, Write(a)), Write(b));
      && grouped.(disk := serial.disk) == serial
      && grouped.disk.manifest == serial.disk.manifest && grouped.disk.tables == serial.disk.tables
  {
    WriteKeepsStore(s, a);
    var h := s.history + a;
    assert s.history + (a + b) == h + b;
    EntriesExtend(h, b, s.last, |h|);
    EntriesSplit(h + b, s.last, |h|, |h + b|);
    var m, x, y := s.store.mem, EntriesOf(h + b, s.last, |h|), EntriesOf(h + b, |h|, |h + b|);
    assert m + (x + y) == (m + x) + y;
  }
}
