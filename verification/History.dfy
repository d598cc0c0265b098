/** The committed operations, in sequence-number order, and what replaying them yields. */
module History {
  import opened Keys

  datatype Op = Op(user: UserKey, kind: Kind, value: Value)

  /** The internal entry of the operation numbered `n`; a deletion carries no value. */
  function EntryOf(history: seq<Op>, n: nat): Entry
    requires 1 <= n <= |history|
  {
    var op := history[n - 1];
    Entry(InternalKey(op.user, n, op.kind), if op.kind.Put? then op.value else [])
  }

  /** Entries of the operations numbered from+1 to to. */
  function EntriesOf(history: seq<Op>, from: nat, to: nat): set<Entry>
    requires from <= to <= |history|
  {
    set n | from < n <= to :: EntryOf(history, n)
  }

  /** The value of `u` after replaying the first `n` operations. */
  function Replay(history: seq<Op>, u: UserKey, n: nat): Option<Value>
    requires n <= |history|
  {
    if n == 0 then
      None
    else if history[n - 1].user == u then
      if history[n - 1].kind.Put? then Some(history[n - 1].value) else None
    else
      Replay(history, u, n - 1)
  }

  lemma HistoryIsUnique(history: seq<Op>, store: set<Entry>)
    requires store <= EntriesOf(history, 0, |history|)
    ensures UniqueSequences(store)
  {
  }

  lemma EntriesExtend(history: seq<Op>, more: seq<Op>, from: nat, to: nat)
    requires from <= to <= |history|
    ensures EntriesOf(history + more, from, to) == EntriesOf(history, from, to)
  {
    forall n | from < n <= to ensures EntryOf(history + more, n) == EntryOf(history, n) {}
  }

  lemma EntriesSplit(history: seq<Op>, from: nat, mid: nat, to: nat)
    requires from <= mid <= to <= |history|
    ensures EntriesOf(history, from, to) == EntriesOf(history, from, mid) + EntriesOf(history, mid, to)
  {
  }

  lemma EntriesEmpty(history: seq<Op>, from: nat, to: nat)
    requires from <= to <= |history|
    ensures EntriesOf(history, from, to) == {} <==> from == to
  {
    if from < to {
      assert EntryOf(history, to) in EntriesOf(history, from, to);
    }
  }

  lemma ReplayExtends(history: seq<Op>, more: seq<Op>, u: UserKey, n: nat)
    requires n <= |history|
    ensures Replay(history + more, u, n) == Replay(history, u, n)
  {
  }

  /** Reads at `n` do not see entries numbered above `n`. */
  lemma NewerEntriesInvisible(store: set<Entry>, newer: set<Entry>, u: UserKey, n: nat)
    requires UniqueSequences(store + newer)
    requires forall e :: e in newer ==> e.key.seqno > n
    ensures Newest(store + newer, u, n) == Newest(store, u, n)
  {
    var r := Newest(store, u, n);
    if r.Some? {
      NewestIs(store + newer, u, n, r.value);
    }
  }

  /** Once a store answers at `from`, adding every later operation keeps it answering. */
  lemma {:induction false} ReadsFollowReplay(history: seq<Op>, store: set<Entry>, from: nat, u: UserKey, n: nat)
    requires from <= n <= |history|
    requires store <= EntriesOf(history, 0, |history|) && EntriesOf(history, from, |history|) <= store
    requires Reads(store, u, from) == Replay(history, u, from)
    ensures Reads(store, u, n) == Replay(history, u, n)
    decreases n - from
  {
    if from < n {
      ReadsFollowReplay(history, store, from, u, n - 1);
      assert EntryOf(history, n) in store;
      HistoryIsUnique(history, store);
      if history[n - 1].user == u {
        NewestIs(store, u, n, EntryOf(history, n));
      }
    }
  }
}
