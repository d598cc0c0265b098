/** Memtables: sorted runs of entries that batches are inserted into. */
module MemTables {
  import opened Keys
  import opened Engine

  ghost predicate Comparable(run: seq<Entry>, e: Entry) {
    forall x :: x in run ==> x.key.Before(e.key) || e.key.Before(x.key)
  }

  method InsertEntry(run: seq<Entry>, e: Entry) returns (r: seq<Entry>)
    requires Sorted(run) && Comparable(run, e)
    ensures Sorted(r) && Elements(r) == Elements(run) + {e}
  {
    hide Sorted, Elements;
    var i := 0;
    while i < |run| && run[i].key.Before(e.key)
      invariant 0 <= i <= |run|
      invariant forall k :: 0 <= k < i ==> run[k].key.Before(e.key)
    {
      i := i + 1;
    }
    r := run[..i] + [e] + run[i..];
    assert i < |run| ==> run[i] in run;
    InsertKeepsSorted(run, i, e);
  }

  /** Applies a batch to a memtable whose entries are all older. */
  method InsertInto(run: seq<Entry>, r: Record) returns (run': seq<Entry>)
    requires Sorted(run) && forall e :: e in run ==> e.key.seqno < r.first
    ensures Sorted(run') && Elements(run') == Elements(run) + RecordEntries(r)
    ensures forall e :: e in run' ==> e.key.seqno < r.first + |r.ops|
  {
    run' := run;
    var k := 0;
    while k < |r.ops|
      invariant 0 <= k <= |r.ops| && Sorted(run')
      invariant forall e :: e in run' ==> e.key.seqno < r.first + k
      invariant Elements(run') == Elements(run) + (set i | 0 <= i < k :: OpEntry(r, i))
    {
      ghost var before := run';
      run' := InsertEntry(run', OpEntry(r, k));
      forall e | e in run' ensures e.key.seqno < r.first + k + 1 {
        assert e in Elements(run');
      }
      k := k + 1;
    }
  }
}
