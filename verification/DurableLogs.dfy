/** From the bytes of a write-ahead log to the operations recovery replays. */
module DurableLogs {
  import opened Keys
  import opened ByteNumbers
  import opened Coding
  import opened History
  import opened Engine
  import opened EngineInvariant
  import opened MemTables
  import LogFormat
  import LogReader
  import opened WriteBatches

  /** The batch a log record holds, if it holds one. */
  function BatchRecord(rep: Bytes): Option<Record> {
    if |rep| < HEADER then None
    else Batch(DecodeFixed64(rep[..8]), DecodeLength(rep[8..12]), ParseOps(rep[HEADER..]))
  }

  function Batch(first: nat, count: nat, ops: Option<seq<BatchOp>>): Option<Record> {
    if ops.None? || |ops.value| != count then None else Some(AsRecord(first, ops.value))
  }

  /** These log records hold these batches, one each. */
  ghost predicate Logs(reps: seq<Bytes>, records: seq<Record>) {
    |reps| == |records| && forall i :: 0 <= i < |reps| ==> BatchRecord(reps[i]) == Some(records[i])
  }

  lemma BatchIsRecord(b: WriteBatch)
    requires b.Ok()
    ensures BatchRecord(b.rep) == Some(AsRecord(b.Sequence(), b.ops))
  {
    hide ParseOps, EncodeOps;
    b.IterateIs();
  }

  /** Numbers a batch and appends it to the log. */
  method LogBatch(w: LogFormat.Writer, b: WriteBatch, first: nat, ghost reps: seq<Bytes>, ghost records: seq<Record>)
    requires w.Ok() && b.Ok() && first < LIMIT64
    requires Logs(reps, records) && w.dest == LogFormat.Written(0, reps)
    modifies w, b
    ensures w.Ok() && b.Ok() && b.ops == old(b.ops)
    ensures Logs(reps + [b.rep], records + [AsRecord(first, b.ops)]) && w.dest == LogFormat.Written(0, reps + [b.rep])
  {
    hide LogFormat.Frames, BatchRecord, AsRecord, DecodeFixed64, DecodeLength;
    b.SetSequence(first);
    BatchIsRecord(b);
    w.AddRecord(b.rep);
    LogFormat.WrittenAppend(0, reps, [b.rep]);
    LogFormat.WrittenOne(|LogFormat.Written(0, reps)|, b.rep);
  }

  /** Reads a log back. Of a log cut off anywhere it finds exactly the batches wholly inside. */
  method DecodeLog(file: Bytes, ghost reps: seq<Bytes>, ghost records: seq<Record>) returns (log: seq<Record>, corrupt: bool)
    requires Logs(reps, records)
    ensures file <= LogFormat.Written(0, reps) ==> !corrupt && log == records[..LogReader.WhollyInside(0, reps, |file|)]
  {
    hide LogFormat.Written, LogReader.WhollyInside, ParseOps, AsRecord, DecodeFixed64, DecodeLength, BatchRecord;
    var read, drops := LogReader.ReadLog(file, true, reps);
    log, corrupt := [], drops > 0;
    ghost var whole, k := file <= LogFormat.Written(0, reps), LogReader.WhollyInside(0, reps, |file|);
    for i := 0 to |read|
      invariant |log| <= i
      invariant whole ==> !corrupt && log == records[..i]
    {
      if whole {
        assert read[i] == reps[i] && BatchRecord(reps[i]) == Some(records[i]);
        assert records[..i + 1] == records[..i] + [records[i]];
      }
      RecordParts(read[i]);
      if |read[i]| < HEADER {
        // too small to be a batch
        corrupt := true;
      } else {
        var batch := new WriteBatch();
        batch.SetContents(read[i]);
        var ops, error := batch.Iterate();
        if error.Some? {
          return log, true;
        }
        log := log + [AsRecord(batch.Sequence(), ops)];
      }
    }
  }

  lemma RecordParts(rep: Bytes)
    ensures |rep| < HEADER ==> BatchRecord(rep) == None
    ensures |rep| >= HEADER ==> BatchRecord(rep) == Batch(DecodeFixed64(rep[..8]), DecodeLength(rep[8..12]), ParseOps(rep[HEADER..]))
  {
  }

  /** The operations of a log cut off after `size` bytes. */
  ghost function OpsInside(reps: seq<Bytes>, records: seq<Record>, size: nat): nat
    requires |reps| == |records|
  {
    OpsBefore(records, LogReader.WhollyInside(0, reps, size))
  }

  /** A log cut off anywhere holds a prefix of what was logged: never a later operation without
    * all earlier ones, never half a batch, and everything whose bytes had reached the disk. */
  lemma TruncatedLogHoldsPrefix(reps: seq<Bytes>, records: seq<Record>, history: seq<Op>, from: nat, to: nat, size: nat, synced: nat)
    requires |reps| == |records| && from <= to <= |history| && Holds(records, history, from, to)
    requires synced <= |reps| && |LogFormat.Written(0, reps[..synced])| <= size
    ensures var k := LogReader.WhollyInside(0, reps, size);
      && synced <= k
      && from + OpsBefore(records, synced) <= from + OpsInside(reps, records, size) <= to
      && Holds(records[..k], history, from, from + OpsInside(reps, records, size))
      && ReplayedEntries(records[..k]) == EntriesOf(history, from, from + OpsInside(reps, records, size))
  {
    hide Holds, LogReader.WhollyInside, EntriesOf, ReplayedEntries, LogFormat.Written, OpsBefore;
    var k := LogReader.WhollyInside(0, reps, size);
    LogReader.WhollyInsideIs(0, reps, size, synced);
    HoldsSplit(records, k, history, from, to);
    OpsBeforeAdds(records, synced, k);
    ReplayedAre(records[..k], history, from, from + OpsBefore(records, k));
  }

  /** Where the next record of a log begins in the history. */
  lemma NextRecord(records: seq<Record>, history: seq<Op>, from: nat, to: nat, i: nat)
    requires from <= to <= |history| && Holds(records, history, from, to) && i < |records|
    ensures from + OpsBefore(records, i) <= from + OpsBefore(records, i + 1) <= to
    ensures records[i].first == from + OpsBefore(records, i) + 1
    ensures EntriesOf(history, from, from + OpsBefore(records, i)) + RecordEntries(records[i]) == EntriesOf(history, from, from + OpsBefore(records, i + 1))
  {
    hide EntriesOf, RecordEntries, OpsBefore;
    var mid := from + OpsBefore(records, i);
    HoldsSplit(records, i, history, from, to);
    HoldsSplit(records, i + 1, history, from, to);
    OpsBeforeAdds(records, i, i + 1);
    OneRecord(records[i..], history, mid, to);
    assert records[i..][0] == records[i];
    EntriesSplit(history, from, mid, mid + |records[i].ops|);
  }

  lemma OneRecord(records: seq<Record>, history: seq<Op>, from: nat, to: nat)
    requires from <= to <= |history| && Holds(records, history, from, to) && records != []
    ensures OpsBefore(records, 1) == |records[0].ops| && from + |records[0].ops| <= to && records[0].first == from + 1
    ensures RecordEntries(records[0]) == EntriesOf(history, from, from + |records[0].ops|)
  {
    hide RecordEntries, EntriesOf;
    assert OpsBefore(records[1..], 0) == 0;
    RecordIs(records[0], history, from);
  }

  /** The memtable recovery builds from the bytes of a log cut off anywhere. */
  method RecoverMemtable(file: Bytes, ghost reps: seq<Bytes>, ghost records: seq<Record>, ghost history: seq<Op>, ghost from: nat, ghost to: nat)
    returns (mem: seq<Entry>, corrupt: bool)
    requires Logs(reps, records) && file <= LogFormat.Written(0, reps)
    requires from <= to <= |history| && Holds(records, history, from, to)
    ensures !corrupt && Sorted(mem) && from + OpsInside(reps, records, |file|) <= to
    ensures Elements(mem) == EntriesOf(history, from, from + OpsInside(reps, records, |file|))
  {
    hide LogFormat.Written, LogReader.WhollyInside, Holds, BatchRecord, EntriesOf, Sorted, Elements, RecordEntries, OpsBefore, LogFormat.BLOCK_SIZE;
    var log;
    log, corrupt := DecodeLog(file, reps, records);
    mem := [];
    NothingRecovered(records, history, from);
    for i := 0 to |log|
      invariant from + OpsBefore(records, i) <= to && Sorted(mem)
      invariant Elements(mem) == EntriesOf(history, from, from + OpsBefore(records, i))
    {
      assert log[i] == records[i];
      NextRecord(records, history, from, to, i);
      OlderThan(mem, history, from, from + OpsBefore(records, i));
      mem := InsertInto(mem, log[i]);
    }
  }

  lemma NothingRecovered(records: seq<Record>, history: seq<Op>, from: nat)
    requires from <= |history|
    ensures Sorted([]) && OpsBefore(records, 0) == 0 && Elements([]) == EntriesOf(history, from, from)
  {
  }

  lemma OlderThan(mem: seq<Entry>, history: seq<Op>, from: nat, to: nat)
    requires from <= to <= |history| && Elements(mem) == EntriesOf(history, from, to)
    ensures forall e :: e in mem ==> e.key.seqno < to + 1
  {
    forall e | e in mem ensures e.key.seqno <= to {
      assert e in Elements(mem);
    }
  }
}
