/** Internal keys, their order, and what a set of entries means to a reader.
  *
  * A user key is represented by its position in the user comparator's order. Every
  * countable total order embeds in the reals, so `real` stands for an arbitrary
  * comparator; `Bytewise.RankPreservesOrder` exhibits the embedding for the default one.
  */
module Keys {
  import opened ByteNumbers

  datatype Option<+T> = None | Some(value: T)

  type UserKey = real
  type Value = Bytes

  /** The largest sequence number: 56 bits, so that a type fits in the low 8 bits of a tag. */
  const MAX_SEQUENCE: nat := 0xFF_FFFF_FFFF_FFFF

  datatype Kind = Deletion | Put

  datatype InternalKey = InternalKey(user: UserKey, seqno: nat, kind: Kind) {
    function Tag(): nat {
      seqno * 256 + (if kind.Put? then 1 else 0)
    }

    /** The internal comparator: user key ascending, then tag descending. */
    predicate Before(that: InternalKey) {
      user < that.user || (user == that.user && Tag() > that.Tag())
    }
  }

  datatype Entry = Entry(key: InternalKey, value: Value)

  /** The key that positions an iterator at the newest entry of `u` numbered at most `s`. */
  function SeekKey(u: UserKey, s: nat): InternalKey {
    InternalKey(u, s, Put)
  }

  /** Strictly increasing by internal key. */
  ghost predicate Sorted(run: seq<Entry>) {
    forall i, j :: 0 <= i < j < |run| ==> run[i].key.Before(run[j].key)
  }

  function Elements(run: seq<Entry>): set<Entry> {
    set e | e in run
  }

  // ---------------------------------------------------------------- visibility

  ghost predicate Visible(e: Entry, u: UserKey, s: nat) {
    e.key.user == u && e.key.seqno <= s
  }

  /** Entries of one user key never share a sequence number. */
  ghost predicate UniqueSequences(store: set<Entry>) {
    forall a, b :: a in store && b in store && a.key.user == b.key.user && a.key.seqno == b.key.seqno ==> a == b
  }

  /** The entry of `u` with the largest sequence number not above `s`. */
  ghost function Newest(store: set<Entry>, u: UserKey, s: nat): (r: Option<Entry>)
    ensures r.Some? ==> r.value in store && Visible(r.value, u, s)
    ensures r.Some? ==> forall e :: e in store && Visible(e, u, s) ==> e.key.seqno <= r.value.key.seqno
    ensures r.None? ==> forall e :: e in store ==> !Visible(e, u, s)
  {
    if exists e :: e in store && e.key.user == u && e.key.seqno == s then
      var e :| e in store && e.key.user == u && e.key.seqno == s;
      Some(e)
    else if s == 0 then
      None
    else
      Newest(store, u, s - 1)
  }

  function ValueOf(found: Option<Entry>): Option<Value> {
    if found.Some? && found.value.key.kind.Put? then Some(found.value.value) else None
  }

  /** What a reader of `u` at sequence number `s` sees; a tombstone reads as absence. */
  ghost function Reads(store: set<Entry>, u: UserKey, s: nat): Option<Value> {
    ValueOf(Newest(store, u, s))
  }

  lemma NewestIs(store: set<Entry>, u: UserKey, s: nat, e: Entry)
    requires UniqueSequences(store) && e in store && Visible(e, u, s)
    requires forall x :: x in store && Visible(x, u, s) ==> x.key.seqno <= e.key.seqno
    ensures Newest(store, u, s) == Some(e)
  {
    var r := Newest(store, u, s);
    assert r.Some?;
    assert r.value.key.seqno == e.key.seqno;
  }

  // ---------------------------------------------------------------- searching a sorted run

  /** The position of the first entry at or after `target`; the length when there is none. */
  function SeekIndex(run: seq<Entry>, target: InternalKey): (i: nat)
    ensures i <= |run|
    ensures forall k :: 0 <= k < i ==> run[k].key.Before(target)
    ensures i < |run| ==> !run[i].key.Before(target)
  {
    if run == [] || !run[0].key.Before(target) then 0 else 1 + SeekIndex(run[1..], target)
  }

  lemma SeekIndexIs(run: seq<Entry>, target: InternalKey, i: nat)
    requires Sorted(run) && i <= |run|
    requires forall k :: 0 <= k < i ==> run[k].key.Before(target)
    requires i < |run| ==> !run[i].key.Before(target)
    ensures SeekIndex(run, target) == i
  {
    var j := SeekIndex(run, target);
  }

  /** The entry a sorted run reports for user key `u` at `s`: the one the seek lands on, when
    * that entry belongs to `u`. */
  function Lookup(run: seq<Entry>, u: UserKey, s: nat): Option<Entry> {
    var i := SeekIndex(run, SeekKey(u, s));
    if i < |run| && run[i].key.user == u then Some(run[i]) else None
  }

  /** One seek finds the newest visible entry of a sorted run. */
  lemma LookupIsNewest(run: seq<Entry>, u: UserKey, s: nat)
    requires Sorted(run) && UniqueSequences(Elements(run))
    ensures Lookup(run, u, s) == Newest(Elements(run), u, s)
  {
    var store := Elements(run);
    var i := SeekIndex(run, SeekKey(u, s));
    forall x | x in store && Visible(x, u, s)
      ensures i < |run| && run[i].key.user == u && x.key.seqno <= run[i].key.seqno
    {
      var k :| 0 <= k < |run| && run[k] == x;
      assert !run[k].key.Before(SeekKey(u, s));
      assert i <= k;
      assert i < k ==> run[i].key.Before(run[k].key);
    }
    if i < |run| && run[i].key.user == u {
      NewestIs(store, u, s, run[i]);
    }
  }

  /** Inserting between the entries before `e` and those after it. */
  lemma InsertKeepsSorted(run: seq<Entry>, i: nat, e: Entry)
    requires Sorted(run) && i <= |run|
    requires forall k :: 0 <= k < i ==> run[k].key.Before(e.key)
    requires i < |run| ==> e.key.Before(run[i].key)
    ensures Sorted(run[..i] + [e] + run[i..])
    ensures Elements(run[..i] + [e] + run[i..]) == Elements(run) + {e}
  {
    var r := run[..i] + [e] + run[i..];
    assert forall k :: i <= k < |run| ==> e.key.Before(run[k].key);
    assert forall k :: 0 <= k < |r| ==> r[k] == if k < i then run[k] else if k == i then e else run[k - 1];
    forall x | x in run ensures x in r {
      var k :| 0 <= k < |run| && run[k] == x;
      assert r[if k < i then k else k + 1] == x;
    }
    assert r[i] == e;
  }
}
