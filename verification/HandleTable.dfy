/** The cache's own hash table: buckets of chained handles, doubled when chains get long. */
module HandleTable {
  import opened ByteNumbers
  import opened Keys

  /** A handle as the table sees it: who it is, its key and the hash of that key. */
  datatype Slot = Slot(id: nat, key: Bytes, hash: nat)

  type Chain = seq<Slot>

  ghost function InBuckets(buckets: seq<Chain>): set<Slot> {
    set b, s | 0 <= b < |buckets| && s in buckets[b] :: s
  }

  function ChainSet(chain: Chain): set<Slot> {
    set s | s in chain
  }

  /** Every slot is in the bucket its hash says, and no chain has a key twice. */
  ghost predicate Placed(buckets: seq<Chain>, hashOf: Bytes -> nat) {
    && |buckets| > 0
    && (forall b :: 0 <= b < |buckets| ==> ChainOk(buckets[b], b, |buckets|, hashOf))
  }

  ghost predicate ChainOk(chain: Chain, b: nat, length: nat, hashOf: Bytes -> nat)
    requires length > 0
  {
    && (forall s :: s in chain ==> s.hash == hashOf(s.key) && s.hash % length == b)
    && (forall i, j :: 0 <= i < j < |chain| ==> chain[i].key != chain[j].key)
  }

  lemma KeysAreUnique(buckets: seq<Chain>, hashOf: Bytes -> nat, s: Slot, t: Slot)
    requires Placed(buckets, hashOf) && s in InBuckets(buckets) && t in InBuckets(buckets) && s.key == t.key
    ensures s == t
  {
    var b :| 0 <= b < |buckets| && s in buckets[b];
    var c :| 0 <= c < |buckets| && t in buckets[c];
    assert ChainOk(buckets[b], b, |buckets|, hashOf) && ChainOk(buckets[c], c, |buckets|, hashOf);
    var i :| 0 <= i < |buckets[b]| && buckets[b][i] == s;
    var j :| 0 <= j < |buckets[c]| && buckets[c][j] == t;
  }

  /** Replacing one chain. */
  lemma Rechained(buckets: seq<Chain>, hashOf: Bytes -> nat, b: nat, chain: Chain, gone: set<Slot>, added: set<Slot>)
    requires Placed(buckets, hashOf) && b < |buckets| && ChainOk(chain, b, |buckets|, hashOf)
    requires ChainSet(chain) == ChainSet(buckets[b]) - gone + added
    requires forall s :: s in gone ==> s in buckets[b]
    ensures Placed(buckets[b := chain], hashOf)
    ensures InBuckets(buckets[b := chain]) == InBuckets(buckets) - gone + added
  {
    var buckets' := buckets[b := chain];
    assert ChainOk(buckets[b], b, |buckets|, hashOf);
    forall s ensures s in chain <==> (s in buckets[b] && s !in gone) || s in added {
      assert s in chain <==> s in ChainSet(chain);
      assert s in buckets[b] <==> s in ChainSet(buckets[b]);
    }
    forall s | s in InBuckets(buckets') ensures s in InBuckets(buckets) - gone + added {
      var c :| 0 <= c < |buckets'| && s in buckets'[c];
      assert c != b ==> ChainOk(buckets[c], c, |buckets|, hashOf) && s in buckets[c];
    }
    forall s | s in InBuckets(buckets) - gone + added ensures s in InBuckets(buckets') {
      if s in added {
        assert s in buckets'[b];
      } else {
        var c :| 0 <= c < |buckets| && s in buckets[c];
        assert s in buckets'[c];
      }
    }
  }

  /** No other slot has the key of `s`. */
  ghost predicate OnlyOne(slots: set<Slot>, s: Slot) {
    forall t :: t in slots && t.key == s.key ==> t == s
  }

  lemma SlotIsOnlyOne(buckets: seq<Chain>, hashOf: Bytes -> nat, s: Slot)
    requires Placed(buckets, hashOf) && s in InBuckets(buckets)
    ensures OnlyOne(InBuckets(buckets), s)
  {
    forall t | t in InBuckets(buckets) && t.key == s.key ensures t == s {
      KeysAreUnique(buckets, hashOf, s, t);
    }
  }

  class HandleTable {
    const hashOf: Bytes -> nat
    var buckets: seq<Chain>
    var elems: nat

    ghost predicate Counted()
      reads this
    {
      Placed(buckets, hashOf) && elems == |Slots()|
    }

    /** On average there is no more than one handle to a chain. */
    ghost predicate Ok()
      reads this
    {
      Counted() && elems <= |buckets|
    }

    ghost function Slots(): set<Slot>
      reads this
    {
      InBuckets(buckets)
    }

    constructor (hashOf: Bytes -> nat)
      ensures Ok() && Slots() == {} && this.hashOf == hashOf
    {
      this.hashOf := hashOf;
      buckets, elems := [[], [], [], []], 0;
    }

    /** The place of the key in its chain, or the chain's end. */
    method FindPointer(key: Bytes, hash: nat) returns (b: nat, i: nat)
      requires Ok() && hash == hashOf(key)
      ensures b == hash % |buckets| && b < |buckets| && i <= |buckets[b]|
      ensures i < |buckets[b]| ==> buckets[b][i].key == key && buckets[b][i] in Slots()
      ensures i == |buckets[b]| ==> forall s :: s in Slots() ==> s.key != key
    {
      b := hash % |buckets|;
      assert ChainOk(buckets[b], b, |buckets|, hashOf);
      i := 0;
      while i < |buckets[b]| && (buckets[b][i].hash != hash || buckets[b][i].key != key)
        invariant i <= |buckets[b]| && forall j :: 0 <= j < i ==> buckets[b][j].key != key
      {
        assert buckets[b][i] in buckets[b];
        i := i + 1;
      }
      if i < |buckets[b]| {
        assert buckets[b][i] in buckets[b];
      } else {
        forall s | s in Slots() ensures s.key != key {
          var c :| 0 <= c < |buckets| && s in buckets[c];
          assert ChainOk(buckets[c], c, |buckets|, hashOf);
        }
      }
    }

    method Lookup(key: Bytes, hash: nat) returns (found: Option<Slot>)
      requires Ok() && hash == hashOf(key)
      ensures found.Some? ==> found.value in Slots() && found.value.key == key && OnlyOne(Slots(), found.value)
      ensures found.None? ==> forall s :: s in Slots() ==> s.key != key
    {
      var b, i := FindPointer(key, hash);
      found := None;
      if i < |buckets[b]| {
        found := Some(buckets[b][i]);
        SlotIsOnlyOne(buckets, hashOf, buckets[b][i]);
      }
    }

    /** Puts a handle in; the one with the same key, if any, comes out. */
    method Insert(h: Slot) returns (displaced: Option<Slot>)
      requires Ok() && h.hash == hashOf(h.key)
      modifies this
      ensures Ok()
      ensures displaced.Some? ==> displaced.value in old(Slots()) && displaced.value.key == h.key
      ensures displaced.Some? ==> OnlyOne(old(Slots()), displaced.value) && Slots() == old(Slots()) - {displaced.value} + {h}
      ensures displaced.None? ==> (forall s :: s in old(Slots()) ==> s.key != h.key) && Slots() == old(Slots()) + {h}
    {
      hide Placed, InBuckets;
      var b, i := FindPointer(h.key, h.hash);
      var chain := buckets[b];
      if i < |chain| {
        displaced := Some(chain[i]);
        SlotIsOnlyOne(buckets, hashOf, chain[i]);
        ReplaceInBuckets(buckets, hashOf, b, i, h);
        buckets := buckets[b := chain[i := h]];
      } else {
        displaced := None;
        AppendInBuckets(buckets, hashOf, b, h);
        buckets := buckets[b := chain + [h]];
        elems := elems + 1;
        if elems > |buckets| {
          assert Counted();
          Resize();
        }
      }
    }

    method Remove(key: Bytes, hash: nat) returns (removed: Option<Slot>)
      requires Ok() && hash == hashOf(key)
      modifies this
      ensures Ok()
      ensures removed.Some? ==> removed.value in old(Slots()) && removed.value.key == key
      ensures removed.Some? ==> OnlyOne(old(Slots()), removed.value) && Slots() == old(Slots()) - {removed.value}
      ensures removed.None? ==> (forall s :: s in old(Slots()) ==> s.key != key) && Slots() == old(Slots())
    {
      var b, i := FindPointer(key, hash);
      var chain := buckets[b];
      removed := None;
      if i < |chain| {
        removed := Some(chain[i]);
        SlotIsOnlyOne(buckets, hashOf, chain[i]);
        UnlinkInBuckets(buckets, hashOf, b, i);
        buckets := buckets[b := chain[..i] + chain[i + 1..]];
        elems := elems - 1;
      }
    }

    /** Moves every handle to the table twice as long; nothing is lost. */
    method Resize()
      requires Counted()
      modifies this
      ensures Ok() && Slots() == old(Slots()) && elems == old(elems)
    {
      var newLength: nat := 4;
      while newLength < elems
        invariant newLength > 0
        decreases elems - newLength
      {
        newLength := newLength * 2;
      }
      buckets := Rehash(buckets, newLength, hashOf);
    }
  }

  lemma InChain(buckets: seq<Chain>, b: nat)
    requires b < |buckets|
    ensures forall s :: s in buckets[b] ==> s in InBuckets(buckets)
  {
  }

  lemma Replaced(chain: Chain, b: nat, length: nat, hashOf: Bytes -> nat, i: nat, h: Slot)
    requires length > 0 && ChainOk(chain, b, length, hashOf) && i < |chain|
    requires h.key == chain[i].key && h.hash == hashOf(h.key)
    ensures ChainOk(chain[i := h], b, length, hashOf)
    ensures ChainSet(chain[i := h]) == ChainSet(chain) - {chain[i]} + {h}
  {
    var c := chain[i := h];
    assert chain[i] in chain;
    forall s | s in chain && s != chain[i] ensures s in c {
      var k :| 0 <= k < |chain| && chain[k] == s;
      assert c[k] == s;
    }
    assert c[i] == h;
    forall s | s in c && s != h ensures s in chain && s != chain[i] {
      var k :| 0 <= k < |c| && c[k] == s;
      assert k != i && chain[k] == s;
    }
  }

  lemma Appended(chain: Chain, b: nat, length: nat, hashOf: Bytes -> nat, h: Slot)
    requires length > 0 && ChainOk(chain, b, length, hashOf) && h.hash == hashOf(h.key) && h.hash % length == b
    requires forall s :: s in chain ==> s.key != h.key
    ensures ChainOk(chain + [h], b, length, hashOf) && ChainSet(chain + [h]) == ChainSet(chain) - {} + {h}
    ensures ChainOk([h] + chain, b, length, hashOf) && ChainSet([h] + chain) == ChainSet(chain) - {} + {h}
  {
  }

  lemma Unlinked(chain: Chain, b: nat, length: nat, hashOf: Bytes -> nat, i: nat)
    requires length > 0 && ChainOk(chain, b, length, hashOf) && i < |chain|
    ensures ChainOk(chain[..i] + chain[i + 1..], b, length, hashOf)
    ensures ChainSet(chain[..i] + chain[i + 1..]) == ChainSet(chain) - {chain[i]} + {}
  {
    var c := chain[..i] + chain[i + 1..];
    assert forall k :: 0 <= k < |c| ==> c[k] == chain[if k < i then k else k + 1];
    UnlinkedHas(chain, i);
    forall s ensures s in ChainSet(c) <==> s in ChainSet(chain) && s != chain[i] {
      assert s in c <==> s in chain && s != chain[i];
    }
  }

  lemma UnlinkedHas(chain: Chain, i: nat)
    requires i < |chain| && forall j, k :: 0 <= j < k < |chain| ==> chain[j].key != chain[k].key
    ensures forall s :: s in chain[..i] + chain[i + 1..] <==> s in chain && s != chain[i]
  {
    var c := chain[..i] + chain[i + 1..];
    forall s | s in c ensures s in chain && s != chain[i] {
      var k :| 0 <= k < |c| && c[k] == s;
      assert c[k] == chain[if k < i then k else k + 1];
    }
    forall s | s in chain && s != chain[i] ensures s in c {
      var k :| 0 <= k < |chain| && chain[k] == s;
      assert c[if k < i then k else k - 1] == s;
    }
  }

  lemma ReplaceInBuckets(buckets: seq<Chain>, hashOf: Bytes -> nat, b: nat, i: nat, h: Slot)
    requires Placed(buckets, hashOf) && b < |buckets| && i < |buckets[b]| && buckets[b][i].key == h.key && h.hash == hashOf(h.key)
    ensures var former, buckets' := buckets[b][i], buckets[b := buckets[b][i := h]];
      && Placed(buckets', hashOf) && InBuckets(buckets') == InBuckets(buckets) - {former} + {h}
      && former in InBuckets(buckets) && |InBuckets(buckets')| == |InBuckets(buckets)|
  {
    hide ChainOk;
    assert ChainOk(buckets[b], b, |buckets|, hashOf) && buckets[b][i] in buckets[b];
    Replaced(buckets[b], b, |buckets|, hashOf, i, h);
    Rechained(buckets, hashOf, b, buckets[b][i := h], {buckets[b][i]}, {h});
    SameKeySlot(buckets, hashOf, buckets[b][i], h);
  }

  lemma AppendInBuckets(buckets: seq<Chain>, hashOf: Bytes -> nat, b: nat, h: Slot)
    requires Placed(buckets, hashOf) && h.hash == hashOf(h.key) && b == h.hash % |buckets|
    requires forall s :: s in InBuckets(buckets) ==> s.key != h.key
    ensures b < |buckets|
    ensures var buckets' := buckets[b := buckets[b] + [h]];
      && Placed(buckets', hashOf) && InBuckets(buckets') == InBuckets(buckets) + {h} && |InBuckets(buckets')| == |InBuckets(buckets)| + 1
  {
    hide ChainOk;
    assert ChainOk(buckets[b], b, |buckets|, hashOf);
    InChain(buckets, b);
    Appended(buckets[b], b, |buckets|, hashOf, h);
    Rechained(buckets, hashOf, b, buckets[b] + [h], {}, {h});
    assert h !in InBuckets(buckets);
  }

  lemma UnlinkInBuckets(buckets: seq<Chain>, hashOf: Bytes -> nat, b: nat, i: nat)
    requires Placed(buckets, hashOf) && b < |buckets| && i < |buckets[b]|
    ensures var gone, buckets' := buckets[b][i], buckets[b := buckets[b][..i] + buckets[b][i + 1..]];
      && Placed(buckets', hashOf) && InBuckets(buckets') == InBuckets(buckets) - {gone}
      && gone in InBuckets(buckets) && |InBuckets(buckets')| == |InBuckets(buckets)| - 1
  {
    hide ChainOk;
    assert ChainOk(buckets[b], b, |buckets|, hashOf) && buckets[b][i] in buckets[b];
    Unlinked(buckets[b], b, |buckets|, hashOf, i);
    Rechained(buckets, hashOf, b, buckets[b][..i] + buckets[b][i + 1..], {buckets[b][i]}, {});
  }

  lemma SameKeySlot(buckets: seq<Chain>, hashOf: Bytes -> nat, gone: Slot, h: Slot)
    requires Placed(buckets, hashOf) && gone in InBuckets(buckets) && gone.key == h.key
    ensures |InBuckets(buckets) - {gone} + {h}| == |InBuckets(buckets)|
  {
    if h in InBuckets(buckets) {
      KeysAreUnique(buckets, hashOf, gone, h);
    }
    SwapSize(InBuckets(buckets), gone, h);
  }

  lemma SwapSize(slots: set<Slot>, gone: Slot, added: Slot)
    requires gone in slots && (added == gone || added !in slots)
    ensures |slots - {gone} + {added}| == |slots|
  {
  }

  // ---------------------------------------------------------------- rehashing

  /** Moves every handle to the front of its new chain. */
  method Rehash(former: seq<Chain>, newLength: nat, hashOf: Bytes -> nat) returns (list: seq<Chain>)
    requires Placed(former, hashOf) && newLength > 0
    ensures |list| == newLength && Placed(list, hashOf) && InBuckets(list) == InBuckets(former)
  {
    hide ChainOk;
    list := seq(newLength, _ => []);
    AllEmpty(list, hashOf);
    assert former[..0] == [];
    for i := 0 to |former|
      invariant |list| == newLength && Placed(list, hashOf) && InBuckets(list) == InBuckets(former[..i])
    {
      var chain := former[i];
      for j := 0 to |chain|
        invariant |list| == newLength && Placed(list, hashOf)
        invariant InBuckets(list) == InBuckets(former[..i]) + ChainSet(chain[..j])
      {
        var h := chain[j];
        var b := h.hash % newLength;
        NotMovedYet(former, hashOf, i, j);
        MoveFits(list, hashOf, h);
        Rechained(list, hashOf, b, [h] + list[b], {}, {h});
        list := list[b := [h] + list[b]];
        assert chain[..j + 1] == chain[..j] + [h];
      }
      assert chain[..|chain|] == chain;
      OneBucketMore(former, i);
    }
    assert former[..|former|] == former;
  }

  lemma AllEmpty(list: seq<Chain>, hashOf: Bytes -> nat)
    requires |list| > 0 && forall b :: 0 <= b < |list| ==> list[b] == []
    ensures Placed(list, hashOf) && InBuckets(list) == {} == InBuckets([])
  {
  }

  lemma OneBucketMore(buckets: seq<Chain>, i: nat)
    requires i < |buckets|
    ensures InBuckets(buckets[..i + 1]) == InBuckets(buckets[..i]) + ChainSet(buckets[i])
  {
    var more := buckets[..i + 1];
    forall s | s in InBuckets(more) ensures s in InBuckets(buckets[..i]) || s in buckets[i] {
      var b :| 0 <= b < |more| && s in more[b];
      assert b < i ==> s in buckets[..i][b];
    }
    forall s | s in InBuckets(buckets[..i]) ensures s in InBuckets(more) {
      var b :| 0 <= b < i && s in buckets[..i][b];
      assert s in more[b];
    }
    assert more[i] == buckets[i];
  }

  /** No handle moved so far has the key of the next one. */
  lemma NotMovedYet(buckets: seq<Chain>, hashOf: Bytes -> nat, i: nat, j: nat)
    requires Placed(buckets, hashOf) && i < |buckets| && j < |buckets[i]|
    ensures buckets[i][j].hash == hashOf(buckets[i][j].key)
    ensures forall s :: s in InBuckets(buckets[..i]) || s in buckets[i][..j] ==> s.key != buckets[i][j].key
  {
    assert ChainOk(buckets[i], i, |buckets|, hashOf);
    assert buckets[i][j] in buckets[i];
    forall s | s in InBuckets(buckets[..i]) ensures s.key != buckets[i][j].key {
      var b :| 0 <= b < i && s in buckets[..i][b];
      assert ChainOk(buckets[b], b, |buckets|, hashOf);
    }
  }

  lemma MoveFits(list: seq<Chain>, hashOf: Bytes -> nat, h: Slot)
    requires Placed(list, hashOf) && h.hash == hashOf(h.key) && forall s :: s in InBuckets(list) ==> s.key != h.key
    ensures var b := h.hash % |list|;
      ChainOk([h] + list[b], b, |list|, hashOf) && ChainSet([h] + list[b]) == ChainSet(list[b]) - {} + {h}
  {
    var b := h.hash % |list|;
    assert ChainOk(list[b], b, |list|, hashOf);
    forall s | s in list[b] ensures s.key != h.key {
      assert s in InBuckets(list);
    }
    Appended(list[b], b, |list|, hashOf, h);
  }
}
