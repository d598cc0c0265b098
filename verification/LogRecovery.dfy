/** Replaying the live logs into level-0 tables. */
module LogRecovery {
  import opened Keys
  import opened Layers
  import opened History
  import opened Engine
  import opened EngineInvariant
  import opened CompactionWork
  import opened MemTables

  /** Records seen so far are in `recovered`, cut as `cuts` says, or in the open memtable. */
  ghost predicate Replaying(seen: seq<Record>, recovered: Files, cuts: seq<nat>, lo: nat, next: nat, mem: seq<Entry>) {
    && |cuts| == |recovered| + 1
    && cuts[0] == 0 && cuts[|recovered|] <= |seen|
    && (forall i :: 0 <= i < |recovered| ==> RecoveredTable(recovered[i], seen, cuts, i))
    && Sorted(mem) && Elements(mem) == ReplayedEntries(seen[cuts[|recovered|]..])
    && lo <= next
    && (forall i :: 0 <= i < |recovered| ==> lo <= recovered[i].number < next)
    && (forall i, k :: 0 <= i < k < |recovered| ==> recovered[i].number < recovered[k].number)
  }

  lemma ReplayStarts(lo: nat)
    ensures Replaying([], [], [0], lo, lo, [])
  {
  }

  lemma {:induction false} ReplayedAppend(records: seq<Record>, r: Record)
    ensures ReplayedEntries(records + [r]) == ReplayedEntries(records) + RecordEntries(r)
  {
    if records == [] {
      assert [] + [r] == [r] && [r][1..] == [];
    } else {
      ReplayedAppend(records[1..], r);
      assert (records + [r])[1..] == records[1..] + [r];
    }
  }

  lemma ReplayInserts(seen: seq<Record>, recovered: Files, cuts: seq<nat>, lo: nat, next: nat, mem: seq<Entry>, r: Record, mem': seq<Entry>)
    requires Replaying(seen, recovered, cuts, lo, next, mem)
    requires Sorted(mem') && Elements(mem') == Elements(mem) + RecordEntries(r)
    ensures Replaying(seen + [r], recovered, cuts, lo, next, mem')
  {
    var c := cuts[|recovered|];
    assert (seen + [r])[c..] == seen[c..] + [r];
    ReplayedAppend(seen[c..], r);
    forall i | 0 <= i < |recovered| ensures RecoveredTable(recovered[i], seen + [r], cuts, i) {
      assert RecoveredTable(recovered[i], seen, cuts, i);
      assert (seen + [r])[cuts[i]..cuts[i + 1]] == seen[cuts[i]..cuts[i + 1]];
    }
  }

  lemma ReplayFlushes(seen: seq<Record>, recovered: Files, cuts: seq<nat>, lo: nat, next: nat, mem: seq<Entry>, t: Table)
    requires Replaying(seen, recovered, cuts, lo, next, mem)
    requires t.Valid() && t.entries == mem && t.number == next
    ensures Replaying(seen, recovered + [t], cuts + [|seen|], lo, next + 1, [])
  {
    var recovered', cuts' := recovered + [t], cuts + [|seen|];
    forall i | 0 <= i < |recovered'| ensures RecoveredTable(recovered'[i], seen, cuts', i) {
      if i < |recovered| {
        assert RecoveredTable(recovered[i], seen, cuts, i);
      } else {
        assert seen[cuts[i]..|seen|] == seen[cuts[i]..];
      }
    }
    assert seen[|seen|..] == [];
  }

  lemma ReplayBumps(seen: seq<Record>, recovered: Files, cuts: seq<nat>, lo: nat, next: nat, mem: seq<Entry>, next': nat)
    requires Replaying(seen, recovered, cuts, lo, next, mem) && next <= next'
    ensures Replaying(seen, recovered, cuts, lo, next', mem)
  {
  }

  lemma ReplayEnds(seen: seq<Record>, recovered: Files, cuts: seq<nat>, lo: nat, next: nat, hi: nat)
    requires Replaying(seen, recovered, cuts, lo, next, []) && next <= hi
    ensures RecoveredTables(seen, recovered, cuts, lo, hi)
  {
  }

  /** Numbers of held records rise, so a record is newer than everything before it. */
  lemma RecordIsNewer(records: seq<Record>, k: nat, history: seq<Op>, from: nat, to: nat, c: nat)
    requires from <= to <= |history| && Holds(records, history, from, to) && c <= k < |records|
    ensures forall e :: e in ReplayedEntries(records[c..k]) ==> e.key.seqno < records[k].first
    ensures records[k].first > 0 && records[k].first + |records[k].ops| - 1 <= to
  {
    HoldsSplit(records, k, history, from, to);
    ChunkIs(records, history, from, to, c, k);
    assert records[k..][0] == records[k];
  }

  lemma OpenTableIsValid(mem: seq<Entry>, records: seq<Record>, c: nat, k: nat, history: seq<Op>, from: nat, to: nat, number: nat, size: nat)
    requires from <= to <= |history| <= MAX_SEQUENCE && Holds(records, history, from, to) && c <= k <= |records|
    requires mem != [] && Sorted(mem) && Elements(mem) == ReplayedEntries(records[c..k])
    ensures FinishTable(number, size, mem).Valid()
  {
    ChunkIs(records, history, from, to, c, k);
    forall e | e in mem ensures e.key.seqno <= MAX_SEQUENCE {
      assert e in Elements(mem);
    }
  }

  lemma {:induction false} ConcatExtends(logs: map<nat, seq<Record>>, lo: nat, hi: nat)
    requires lo <= hi
    ensures Concat(logs, lo, hi + 1) == Concat(logs, lo, hi) + (if hi in logs then logs[hi] else [])
    decreases hi - lo
  {
    if lo < hi {
      ConcatExtends(logs, lo + 1, hi);
    } else {
      assert Concat(logs, hi + 1, hi + 1) == [];
    }
  }

  lemma {:induction false} ConcatPrefix(logs: map<nat, seq<Record>>, lo: nat, mid: nat, hi: nat)
    requires lo <= mid <= hi
    ensures Concat(logs, lo, mid) <= Concat(logs, lo, hi)
    decreases hi - mid
  {
    if mid < hi {
      ConcatPrefix(logs, lo, mid, hi - 1);
      ConcatExtends(logs, lo, hi - 1);
    }
  }

  lemma {:induction false} MaxAppend(records: seq<Record>, r: Record, last: nat)
    ensures MaxSequence(records + [r], last)
      == if r.first + |r.ops| - 1 > MaxSequence(records, last) then r.first + |r.ops| - 1 else MaxSequence(records, last)
  {
    if records == [] {
      assert [] + [r] == [r] && [r][1..] == [];
    } else {
      var end: int := records[0].first + |records[0].ops| - 1;
      MaxAppend(records[1..], r, if end > last then end else last);
      assert (records + [r])[1..] == records[1..] + [r];
    }
  }

  /** What stays true while the logs are replayed: `all` are the records of every live log. */
  ghost predicate Logged(all: seq<Record>, history: seq<Op>, from: nat) {
    from <= |history| <= MAX_SEQUENCE && Holds(all, history, from, |history|)
  }

  /** Writes a replayed memtable to a level-0 table under the next number; an empty one leaves
    * no table behind. */
  method WriteLevel0Table(mem: seq<Entry>, recovered: Files, next: nat, size: seq<Entry> -> nat,
                          ghost seen: seq<Record>, ghost cuts: seq<nat>, ghost lo: nat,
                          ghost all: seq<Record>, ghost history: seq<Op>, ghost from: nat)
    returns (recovered': Files, ghost cuts': seq<nat>)
    requires Logged(all, history, from) && seen <= all && Replaying(seen, recovered, cuts, lo, next, mem)
    ensures Replaying(seen, recovered', cuts', lo, next + 1, [])
  {
    recovered', cuts' := recovered, cuts;
    if mem == [] {
      ReplayBumps(seen, recovered, cuts, lo, next, mem, next + 1);
    } else {
      var c := cuts[|recovered|];
      assert all[c..|seen|] == seen[c..];
      OpenTableIsValid(mem, all, c, |seen|, history, from, |history|, next, size(mem));
      var t := FinishTable(next, size(mem), mem);
      ReplayFlushes(seen, recovered, cuts, lo, next, mem, t);
      recovered', cuts' := recovered + [t], cuts + [|seen|];
    }
  }

  /** Replays one log, writing a table whenever the memtable is full and at the end. */
  method RecoverLogFile(log: seq<Record>, recovered0: Files, next0: nat, maxSequence0: nat,
                        full: seq<Entry> -> bool, size: seq<Entry> -> nat,
                        ghost seen: seq<Record>, ghost cuts0: seq<nat>, ghost lo: nat, ghost last: nat,
                        ghost all: seq<Record>, ghost history: seq<Op>, ghost from: nat)
    returns (recovered: Files, ghost cuts: seq<nat>, next: nat, maxSequence: nat)
    requires Logged(all, history, from) && seen + log <= all
    requires Replaying(seen, recovered0, cuts0, lo, next0, []) && maxSequence0 == MaxSequence(seen, last)
    ensures Replaying(seen + log, recovered, cuts, lo, next, []) && maxSequence == MaxSequence(seen + log, last)
    ensures next0 <= next
  {
    hide Replaying, Logged, Holds, MaxSequence, Sorted, Elements, ReplayedEntries, RecordEntries;
    recovered, cuts, next, maxSequence := recovered0, cuts0, next0, maxSequence0;
    var mem: seq<Entry> := [];
    var open := false;
    var k := 0;
    assert seen + log[..0] == seen;
    while k < |log|
      invariant 0 <= k <= |log| && next0 <= next && (!open ==> mem == [])
      invariant Replaying(seen + log[..k], recovered, cuts, lo, next, mem)
      invariant maxSequence == MaxSequence(seen + log[..k], last)
    {
      var r := log[k];
      assert seen + log[..k + 1] == (seen + log[..k]) + [r];
      NextRecordFits(all, seen, log, k, recovered, cuts, lo, next, mem, history, from);
      var mem' := InsertInto(mem, r);
      ReplayInserts(seen + log[..k], recovered, cuts, lo, next, mem, r, mem');
      MaxAppend(seen + log[..k], r, last);
      mem, open := mem', true;
      if r.first + |r.ops| - 1 > maxSequence {
        maxSequence := r.first + |r.ops| - 1;
      }
      k := k + 1;
      if full(mem) {
        recovered, cuts := WriteLevel0Table(mem, recovered, next, size, seen + log[..k], cuts, lo, all, history, from);
        next, mem, open := next + 1, [], false;
      }
    }
    assert log[..|log|] == log;
    if open {
      recovered, cuts := WriteLevel0Table(mem, recovered, next, size, seen + log, cuts, lo, all, history, from);
      next := next + 1;
    }
  }

  lemma NextRecordFits(all: seq<Record>, seen: seq<Record>, log: seq<Record>, k: nat, recovered: Files, cuts: seq<nat>, lo: nat, next: nat,
                       mem: seq<Entry>, history: seq<Op>, from: nat)
    requires Logged(all, history, from) && seen + log <= all && k < |log|
    requires Replaying(seen + log[..k], recovered, cuts, lo, next, mem)
    ensures Sorted(mem) && forall e :: e in mem ==> e.key.seqno < log[k].first
    ensures log[k].first > 0
    ensures seen + log[..k] <= all && seen + log[..k + 1] <= all
  {
    var c, n := cuts[|recovered|], |seen| + k;
    assert all[n] == (seen + log)[n] == log[k];
    assert all[..n] == seen + log[..k];
    assert all[c..n] == (seen + log[..k])[c..];
    RecordIsNewer(all, n, history, from, |history|, c);
    forall e | e in mem ensures e.key.seqno < log[k].first {
      assert e in Elements(mem);
    }
  }
}
