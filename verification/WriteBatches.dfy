/** Write batches: a header with the first sequence number and the count, then the operations,
  * all in one string that is also the log record. */
module WriteBatches {
  import opened Keys
  import opened ByteNumbers
  import opened Coding
  import Bytewise
  import opened History
  import opened Engine
  import opened MemTables

  const HEADER: nat := 12
  const DELETION: Byte := 0
  const VALUE: Byte := 1

  datatype BatchOp = Put(key: Bytes, value: Bytes) | Delete(key: Bytes) {
    predicate Fits() {
      |key| < LIMIT32 && (Put? ==> |value| < LIMIT32)
    }
  }

  function EncodeOp(op: BatchOp): Bytes {
    if op.Put? then [VALUE] + Prefixed(op.key) + Prefixed(op.value) else [DELETION] + Prefixed(op.key)
  }

  function EncodeOps(ops: seq<BatchOp>): Bytes {
    if ops == [] then [] else EncodeOps(ops[..|ops| - 1]) + EncodeOp(ops[|ops| - 1])
  }

  lemma {:induction false} EncodeOpsConcat(a: seq<BatchOp>, b: seq<BatchOp>)
    ensures EncodeOps(a + b) == EncodeOps(a) + EncodeOps(b)
  {
    hide EncodeOp;
    if b == [] {
      assert a + b == a;
    } else {
      var n := |b| - 1;
      assert (a + b)[..|a| + n] == a + b[..n];
      EncodeOpsConcat(a, b[..n]);
    }
  }

  lemma EncodeOne(op: BatchOp)
    ensures EncodeOps([op]) == EncodeOp(op)
  {
    assert [op][..0] == [];
  }

  // ---------------------------------------------------------------- parsing

  datatype Parsed = Bad(msg: string) | Got(op: BatchOp, rest: Bytes)

  function ParseOp(input: Bytes): (p: Parsed)
    requires input != []
    ensures p.Got? ==> |p.rest| < |input|
  {
    var tag, rest := input[0], input[1..];
    if tag == VALUE then
      var key := GetLengthPrefixedSlice(rest);
      var value := if key.None? then None else GetLengthPrefixedSlice(key.value.1);
      if value.None? then Bad("bad WriteBatch Put") else Got(BatchOp.Put(key.value.0, value.value.0), value.value.1)
    else if tag == DELETION then
      var key := GetLengthPrefixedSlice(rest);
      if key.None? then Bad("bad WriteBatch Delete") else Got(Delete(key.value.0), key.value.1)
    else
      Bad("unknown WriteBatch tag")
  }

  lemma OpRoundTrip(op: BatchOp, rest: Bytes)
    requires op.Fits()
    ensures ParseOp(EncodeOp(op) + rest) == Got(op, rest)
  {
    hide Prefixed, GetLengthPrefixedSlice;
    var input := EncodeOp(op) + rest;
    if op.Put? {
      assert input[1..] == Prefixed(op.key) + (Prefixed(op.value) + rest);
      PrefixedRoundTrip(op.key, Prefixed(op.value) + rest);
      PrefixedRoundTrip(op.value, rest);
    } else {
      assert input[1..] == Prefixed(op.key) + rest;
      PrefixedRoundTrip(op.key, rest);
    }
  }

  /** All operations of a string, if it is made of operations only. */
  function ParseOps(input: Bytes): (r: Option<seq<BatchOp>>)
    decreases |input|
  {
    if input == [] then Some([]) else
      match ParseOp(input)
      case Bad(_) => None
      case Got(op, rest) =>
        var more := ParseOps(rest);
        if more.None? then None else Some([op] + more.value)
  }

  lemma {:induction false} OpsRoundTrip(ops: seq<BatchOp>)
    requires AllFit(ops)
    ensures ParseOps(EncodeOps(ops)) == Some(ops)
  {
    if ops != [] {
      hide ParseOp, EncodeOp;
      assert ops == [ops[0]] + ops[1..];
      EncodeOpsConcat([ops[0]], ops[1..]);
      EncodeOne(ops[0]);
      OpRoundTrip(ops[0], EncodeOps(ops[1..]));
      OpNotEmpty(ops[0]);
      OpsRoundTrip(ops[1..]);
    }
  }

  lemma OpNotEmpty(op: BatchOp)
    ensures EncodeOp(op) != []
  {
  }

  ghost predicate AllFit(ops: seq<BatchOp>) {
    forall op :: op in ops ==> op.Fits()
  }

  // ---------------------------------------------------------------- batches

  class WriteBatch {
    var rep: Bytes
    ghost var ops: seq<BatchOp>

    ghost predicate Ok()
      reads this
    {
      && |rep| >= HEADER && rep[HEADER..] == EncodeOps(ops) && AllFit(ops)
      && |ops| < LIMIT32 && DecodeLength(rep[8..12]) == |ops|
    }

    constructor ()
      ensures Ok() && ops == [] && Sequence() == 0 && rep == EncodeFixed64(0) + EncodeLength(0)
    {
      hide EncodeFixed64;
      rep := EncodeFixed64(0) + EncodeLength(0);
      ops := [];
      new;
      hide EncodeLength, DecodeLength, DecodeFixed64;
      Fixed64RoundTrip(0);
      LengthRoundTrip(0);
      assert rep[..8] == EncodeFixed64(0);
      assert rep[8..12] == EncodeLength(0);
      assert rep[12..] == [];
    }

    function Sequence(): nat
      requires |rep| >= HEADER
      reads this
    {
      DecodeFixed64(rep[..8])
    }

    function Count(): nat
      requires |rep| >= HEADER
      reads this
    {
      DecodeLength(rep[8..12])
    }

    method SetCount(n: nat)
      requires |rep| >= HEADER && n < LIMIT32
      modifies this`rep
      ensures |rep| == |old(rep)| && rep[..8] == old(rep[..8]) && rep[HEADER..] == old(rep[HEADER..]) && DecodeLength(rep[8..12]) == n
      ensures rep[8..12] == EncodeLength(n)
    {
      hide EncodeLength, DecodeLength;
      rep := rep[..8] + EncodeLength(n) + rep[12..];
      LengthRoundTrip(n);
      assert rep[8..12] == EncodeLength(n);
    }

    method SetSequence(n: nat)
      requires Ok() && n < LIMIT64
      modifies this`rep
      ensures Ok() && Sequence() == n && rep == EncodeFixed64(n) + old(rep[8..])
    {
      hide EncodeFixed64, DecodeFixed64, EncodeOps, DecodeLength;
      ghost var before := rep;
      rep := EncodeFixed64(n) + rep[8..];
      Fixed64RoundTrip(n);
      assert rep[..8] == EncodeFixed64(n) && rep[8..12] == before[8..12] && rep[12..] == before[12..];
    }

    method Put(key: Bytes, value: Bytes)
      requires Ok() && BatchOp.Put(key, value).Fits() && |ops| + 1 < LIMIT32
      modifies this
      ensures Ok() && ops == old(ops) + [BatchOp.Put(key, value)] && Sequence() == old(Sequence())
      ensures rep[8..12] == EncodeLength(|ops|)
    {
      hide DecodeFixed64, EncodeOps, EncodeLength, DecodeLength, Prefixed;
      SetCount(Count() + 1);
      ghost var op, before := BatchOp.Put(key, value), rep;
      rep := rep + [VALUE];
      rep := rep + Prefixed(key);
      rep := rep + Prefixed(value);
      Extends(before, op);
      ops := ops + [op];
    }

    method Delete(key: Bytes)
      requires Ok() && BatchOp.Delete(key).Fits() && |ops| + 1 < LIMIT32
      modifies this
      ensures Ok() && ops == old(ops) + [BatchOp.Delete(key)] && Sequence() == old(Sequence())
      ensures rep[8..12] == EncodeLength(|ops|)
    {
      hide DecodeFixed64, EncodeOps, EncodeLength, DecodeLength, Prefixed;
      SetCount(Count() + 1);
      ghost var op, before := BatchOp.Delete(key), rep;
      rep := rep + [DELETION];
      rep := rep + Prefixed(key);
      Extends(before, op);
      ops := ops + [op];
    }

    /** One more operation behind what is there. */
    lemma Extends(before: Bytes, op: BatchOp)
      requires |before| >= HEADER && before[HEADER..] == EncodeOps(ops) && rep == before + EncodeOp(op)
      ensures rep[HEADER..] == EncodeOps(ops + [op]) && rep[..8] == before[..8] && rep[8..12] == before[8..12]
    {
      hide EncodeOp, EncodeOps;
      EncodeOpsConcat(ops, [op]);
      EncodeOne(op);
    }

    method SetContents(contents: Bytes)
      requires |contents| >= HEADER
      modifies this`rep
      ensures rep == contents
    {
      rep := contents;
    }

    /** Takes over the operations of another batch, without looking into them. */
    method Append(source: WriteBatch)
      requires Ok() && source.Ok() && source != this && |ops| + |source.ops| < LIMIT32
      modifies this
      ensures Ok() && ops == old(ops) + source.ops && Sequence() == old(Sequence())
    {
      hide DecodeFixed64, EncodeOps, DecodeLength;
      SetCount(Count() + source.Count());
      ghost var before := rep;
      rep := rep + source.rep[HEADER..];
      EncodeOpsConcat(ops, source.ops);
      assert rep[HEADER..] == before[HEADER..] + source.rep[HEADER..];
      assert rep[..8] == before[..8] && rep[8..12] == before[8..12];
      ops := ops + source.ops;
    }

    /** Hands the operations out one by one; an error when the string is not a batch. */
    method Iterate() returns (out: seq<BatchOp>, error: Option<string>)
      ensures error == None <==> |rep| >= HEADER && ParseOps(rep[HEADER..]).Some? && |ParseOps(rep[HEADER..]).value| == Count()
      ensures error == None ==> ParseOps(rep[HEADER..]) == Some(out)
    {
      hide ParseOp, DecodeLength;
      out := [];
      if |rep| < HEADER {
        return out, Some("malformed WriteBatch (too small)");
      }
      var input := rep[HEADER..];
      NothingFollowed(ParseOps(input));
      while input != []
        invariant ParseOps(rep[HEADER..]) == Following(out, ParseOps(input))
        decreases |input|
      {
        var parsed := ParseOp(input);
        match parsed {
          case Bad(msg) =>
            return out, Some(msg);
          case Got(op, rest) =>
            FollowingStep(out, op, ParseOps(rest));
            out := out + [op];
            input := rest;
        }
      }
      assert out + [] == out;
      error := if |out| != Count() then Some("WriteBatch has wrong count") else None;
    }

    /** A batch iterates over exactly what was put into it. */
    lemma IterateIs()
      requires Ok()
      ensures ParseOps(rep[HEADER..]) == Some(ops) && |ops| == Count()
    {
      OpsRoundTrip(ops);
    }
  }

  // ---------------------------------------------------------------- into the memtable

  /** The batch as the engine sees it: user keys as positions in the key order. */
  function AsRecord(first: nat, ops: seq<BatchOp>): Record {
    Record(first, seq(|ops|, i requires 0 <= i < |ops| =>
      if ops[i].Put? then Op(Bytewise.Rank(ops[i].key), Kind.Put, ops[i].value) else Op(Bytewise.Rank(ops[i].key), Deletion, [])))
  }

  /** Operation k of the batch gets the k-th number from the batch's own. */
  method InsertBatch(b: WriteBatch, run: seq<Entry>) returns (run': seq<Entry>)
    requires b.Ok() && Sorted(run) && forall e :: e in run ==> e.key.seqno < b.Sequence()
    ensures Sorted(run') && Elements(run') == Elements(run) + RecordEntries(AsRecord(b.Sequence(), b.ops))
  {
    hide Sorted, Elements, RecordEntries, ParseOps, DecodeFixed64;
    b.IterateIs();
    var ops, error := b.Iterate();
    run' := InsertInto(run, AsRecord(b.Sequence(), ops));
  }
}
