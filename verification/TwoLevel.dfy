/** The two-level iterator: a cursor over the concatenation of the blocks an index names. */
module TwoLevel {
  import opened Keys
  import opened Merging

  type Blocks = Value -> seq<Entry>

  /** The entries of the first `i` blocks. */
  ghost function Flat(index: seq<Entry>, blocks: Blocks, i: nat): seq<Entry>
    requires i <= |index|
  {
    if i == 0 then [] else Flat(index, blocks, i - 1) + blocks(index[i - 1].value)
  }

  /** Each index key is at or after every key of its block, and before every key of later ones.
    * Blocks may be empty. */
  ghost predicate Separating(index: seq<Entry>, blocks: Blocks) {
    && (forall i :: 0 <= i < |index| ==> Sorted(blocks(index[i].value)))
    && (forall i, e :: 0 <= i < |index| && e in blocks(index[i].value) ==> !index[i].key.Before(e.key))
    && (forall i, j, e :: 0 <= i < j < |index| && e in blocks(index[j].value) ==> index[i].key.Before(e.key))
    && (forall i, j :: 0 <= i < j < |index| ==> !index[j].key.Before(index[i].key))
  }

  lemma {:induction false} FlatSplits(index: seq<Entry>, blocks: Blocks, i: nat, n: nat)
    requires i < n <= |index|
    ensures |Flat(index, blocks, i + 1)| == |Flat(index, blocks, i)| + |blocks(index[i].value)| <= |Flat(index, blocks, n)|
    ensures forall j | 0 <= j < |blocks(index[i].value)| ::
      Flat(index, blocks, n)[|Flat(index, blocks, i)| + j] == blocks(index[i].value)[j]
    decreases n
  {
    if i + 1 < n {
      FlatSplits(index, blocks, i, n - 1);
    }
  }

  lemma FlatSizes(index: seq<Entry>, blocks: Blocks, i: nat)
    requires i <= |index|
    ensures |Flat(index, blocks, i)| == if i == 0 then 0 else |Flat(index, blocks, i - 1)| + |blocks(index[i - 1].value)|
  {
  }

  lemma NothingFlat(index: seq<Entry>, blocks: Blocks)
    ensures Flat(index, blocks, 0) == []
  {
  }

  class TwoLevelIterator {
    const index: Cursor
    const blocks: Blocks
    var data: Cursor?
    var handle: Value

    ghost predicate Ok()
      reads this, index, data
    {
      && data != index && index.pos <= |index.run| && Separating(index.run, blocks)
      && (data != null ==> data.run == blocks(handle) && data.pos <= |data.run|)
      && (data == null || data.Valid() ==> InBlock())
    }

    /** The data iterator reads the block the index points to. */
    ghost predicate InBlock()
      reads this, index, data
    {
      if index.Valid() then data != null && handle == index.run[index.pos].value else data == null
    }

    /** What the iterator iterates over. */
    ghost function All(): seq<Entry>
    {
      Flat(index.run, blocks, |index.run|)
    }

    /** The iterator is at position `p` of the concatenation; invalid past the end. */
    ghost predicate At(p: nat)
      reads this, index, data
    {
      if p < |All()|
      then Valid() && InBlock() && index.Valid() && data.run == blocks(handle) && p == |Flat(index.run, blocks, index.pos)| + data.pos
      else p == |All()| && !Valid()
    }

    predicate Valid()
      reads this, data
    {
      data != null && data.Valid()
    }

    constructor (index: Cursor, blocks: Blocks)
      requires Separating(index.run, blocks) && index.pos == |index.run|
      ensures Ok() && !Valid() && this.index == index && this.blocks == blocks && data == null
    {
      this.index, this.blocks := index, blocks;
      data, handle := null, [];
    }

    function Key(): InternalKey
      requires Valid()
      reads this, data
    {
      data.Key()
    }

    lemma AtIsEntry(p: nat)
      requires Ok() && p < |All()| && At(p)
      ensures data.run[data.pos] == All()[p]
    {
      FlatSplits(index.run, blocks, index.pos, |index.run|);
    }

    /** Opens the block the index points to, unless it is open already. */
    method InitDataBlock()
      requires data != index && index.pos <= |index.run| && Separating(index.run, blocks)
      requires data != null ==> data.run == blocks(handle) && data.pos <= |data.run|
      modifies this
      ensures data == old(data) || data == null || fresh(data)
      ensures data != index && (data != null ==> data.run == blocks(handle) && data.pos <= |data.run|) && InBlock()
    {
      if !index.Valid() {
        data := null;
      } else {
        var value := index.run[index.pos].value;
        if data == null || value != handle {
          data := new Cursor(blocks(value));
          handle := value;
        }
      }
    }

    /** Entries up to and with the current one, or before the block when there is none. */
    ghost function Upto(): nat
      requires index.pos <= |index.run|
      reads this, index, data
    {
      if index.Valid() then |Flat(index.run, blocks, index.pos)| + (if Valid() then data.pos + 1 else 0) else 0
    }

    /** Entries before the current one, or up to the end of the block when there is none. */
    ghost function Ahead(): nat
      requires index.pos <= |index.run|
      reads this, index, data
    {
      |Flat(index.run, blocks, index.pos)| + (if data != null then data.pos else 0)
    }

    /** Moves on to the next block that is not empty. */
    method SkipEmptyDataBlocksForward()
      requires Ok() && InBlock()
      modifies this, index, data
      ensures data == old(data) || data == null || fresh(data)
      ensures Ok() && old(Ahead()) <= |All()| && At(old(Ahead()))
    {
      hide Separating, Flat;
      ghost var p := Ahead();
      while data == null || !data.Valid()
        modifies this, index, data
        invariant data == old(data) || data == null || fresh(data)
        invariant Ok() && InBlock() && Ahead() == p
        decreases |index.run| - index.pos
      {
        if !index.Valid() {
          data := null;
          return;
        }
        NextBlock();
      }
      FlatSplits(index.run, blocks, index.pos, |index.run|);
    }

    method NextBlock()
      requires Ok() && InBlock() && index.Valid() && !Valid()
      modifies this, index, data
      ensures data == old(data) || data == null || fresh(data)
      ensures Ok() && InBlock() && Ahead() == old(Ahead()) && index.pos == old(index.pos) + 1
    {
      hide Separating, Flat;
      FlatSizes(index.run, blocks, index.pos + 1);
      index.Next();
      InitDataBlock();
      if data != null {
        data.SeekToFirst();
      }
    }

    /** Moves back to the last block before that is not empty. */
    method SkipEmptyDataBlocksBackward()
      requires Ok() && InBlock()
      modifies this, index, data
      ensures data == old(data) || data == null || fresh(data)
      ensures Ok() && old(Upto()) <= |All()| && At(if old(Upto()) > 0 then old(Upto()) - 1 else |All()|)
    {
      hide Separating, Flat;
      ghost var c := Upto();
      while data == null || !data.Valid()
        modifies this, index, data
        invariant data == old(data) || data == null || fresh(data)
        invariant Ok() && InBlock() && Upto() == c
        decreases if index.Valid() then index.pos + 1 else 0
      {
        if !index.Valid() {
          data := null;
          return;
        }
        PrevBlock();
      }
      FlatSplits(index.run, blocks, index.pos, |index.run|);
    }

    method PrevBlock()
      requires Ok() && InBlock() && index.Valid() && !Valid()
      modifies this, index, data
      ensures data == old(data) || data == null || fresh(data)
      ensures Ok() && InBlock() && Upto() == old(Upto())
      ensures if old(index.pos) == 0 then !index.Valid() else index.pos == old(index.pos) - 1
    {
      hide Separating, Flat, SeekIndex;
      FlatSizes(index.run, blocks, index.pos);
      index.Prev();
      InitDataBlock();
      if data != null {
        data.SeekToLast();
      }
    }

    method SeekToFirst()
      requires Ok()
      modifies this, index, data
      ensures data == old(data) || data == null || fresh(data)
      ensures Ok() && At(0)
    {
      NothingFlat(index.run, blocks);
      hide Separating, Flat;
      index.SeekToFirst();
      InitDataBlock();
      if data != null {
        data.SeekToFirst();
      }
      SkipEmptyDataBlocksForward();
    }

    lemma WholeIsUpto()
      ensures |index.run| > 0
        ==> |Flat(index.run, blocks, |index.run| - 1)| + |blocks(index.run[|index.run| - 1].value)| == |All()|
      ensures |index.run| == 0 ==> All() == []
    {
    }

    method SeekToLast()
      requires Ok()
      modifies this, index, data
      ensures data == old(data) || data == null || fresh(data)
      ensures Ok() && At(if All() == [] then 0 else |All()| - 1)
    {
      WholeIsUpto();
      hide Separating, Flat;
      index.SeekToLast();
      InitDataBlock();
      if data != null {
        data.SeekToLast();
      }
      SkipEmptyDataBlocksBackward();
    }

    method Next(ghost p: nat)
      requires Ok() && p < |All()| && At(p)
      modifies this, index, data
      ensures data == old(data) || data == null || fresh(data)
      ensures Ok() && At(p + 1)
    {
      data.Next();
      SkipEmptyDataBlocksForward();
    }

    method Prev(ghost p: nat)
      requires Ok() && p < |All()| && At(p)
      modifies this, index, data
      ensures data == old(data) || data == null || fresh(data)
      ensures Ok() && At(if p > 0 then p - 1 else |All()|)
    {
      data.Prev();
      SkipEmptyDataBlocksBackward();
    }

    /** The first entry at or after `target` of the whole concatenation. */
    method Seek(target: InternalKey)
      requires Ok()
      modifies this, index, data
      ensures data == old(data) || data == null || fresh(data)
      ensures Ok() && At(SeekIndex(All(), target))
    {
      hide Separating, Flat, SeekIndex;
      index.Seek(target);
      InitDataBlock();
      if data != null {
        data.Seek(target);
      }
      SeekLands(index.run, blocks, target, |index.run|);
      SkipEmptyDataBlocksForward();
    }
  }

  /** Entries of earlier blocks lie before the target, those of later blocks do not. */
  lemma {:induction false} FlatBefore(index: seq<Entry>, blocks: Blocks, target: InternalKey, i: nat)
    requires Separating(index, blocks) && i <= |index| && forall k :: 0 <= k < i ==> index[k].key.Before(target)
    ensures forall e :: e in Flat(index, blocks, i) ==> e.key.Before(target)
  {
    if i > 0 {
      FlatBefore(index, blocks, target, i - 1);
      forall e | e in blocks(index[i - 1].value) ensures e.key.Before(target) {
        assert !index[i - 1].key.Before(e.key);
      }
    }
  }

  lemma {:induction false} SeekPast(a: seq<Entry>, b: seq<Entry>, target: InternalKey)
    requires forall e :: e in a ==> e.key.Before(target)
    ensures SeekIndex(a + b, target) == |a| + SeekIndex(b, target)
  {
    if a == [] {
      assert a + b == b;
    } else {
      assert a[0] in a && forall e :: e in a[1..] ==> e in a;
      SeekPast(a[1..], b, target);
      assert (a + b)[1..] == a[1..] + b;
    }
  }

  lemma {:induction false} SeekStops(a: seq<Entry>, b: seq<Entry>, target: InternalKey)
    requires b != [] ==> !b[0].key.Before(target)
    ensures SeekIndex(a + b, target) == SeekIndex(a, target)
  {
    if a == [] {
      assert a + b == b;
    } else {
      SeekStops(a[1..], b, target);
      assert (a + b)[1..] == a[1..] + b;
    }
  }

  /** The index finds the only block that can hold the first entry at or after the target. */
  lemma {:induction false} SeekLands(index: seq<Entry>, blocks: Blocks, target: InternalKey, n: nat)
    requires Separating(index, blocks) && SeekIndex(index, target) <= n <= |index|
    ensures var i := SeekIndex(index, target);
      SeekIndex(Flat(index, blocks, n), target)
        == |Flat(index, blocks, i)| + if i < n then SeekIndex(blocks(index[i].value), target) else 0
    decreases n
  {
    hide Separating, Flat, InternalKey.Before, SeekIndex;
    var i := SeekIndex(index, target);
    if n == i {
      PastEarlier(index, blocks, target, []);
      NothingToSeek(target);
      assert Flat(index, blocks, i) + [] == Flat(index, blocks, i);
    } else {
      FlatStep(index, blocks, n);
      if n == i + 1 {
        PastEarlier(index, blocks, target, blocks(index[i].value));
      } else {
        SeekLands(index, blocks, target, n - 1);
        SeekStaysBefore(index, blocks, target, i, n);
      }
    }
  }

  lemma PastEarlier(index: seq<Entry>, blocks: Blocks, target: InternalKey, b: seq<Entry>)
    requires Separating(index, blocks)
    ensures var a := Flat(index, blocks, SeekIndex(index, target)); SeekIndex(a + b, target) == |a| + SeekIndex(b, target)
  {
    hide Flat, SeekIndex;
    FlatBefore(index, blocks, target, SeekIndex(index, target));
    SeekPast(Flat(index, blocks, SeekIndex(index, target)), b, target);
  }

  lemma SeekStaysBefore(index: seq<Entry>, blocks: Blocks, target: InternalKey, i: nat, n: nat)
    requires Separating(index, blocks) && i + 1 < n <= |index| && !index[i].key.Before(target)
    ensures SeekIndex(Flat(index, blocks, n), target) == SeekIndex(Flat(index, blocks, n - 1), target)
  {
    hide Separating, Flat, InternalKey.Before, SeekIndex;
    var b := blocks(index[n - 1].value);
    FlatStep(index, blocks, n);
    LaterBlock(index, blocks, i, n - 1);
    BehindTarget(index[i].key, target, b);
    SeekStops(Flat(index, blocks, n - 1), b, target);
  }

  lemma FlatStep(index: seq<Entry>, blocks: Blocks, n: nat)
    requires 0 < n <= |index|
    ensures Flat(index, blocks, n) == Flat(index, blocks, n - 1) + blocks(index[n - 1].value)
  {
  }

  lemma LaterBlock(index: seq<Entry>, blocks: Blocks, i: nat, j: nat)
    requires Separating(index, blocks) && i < j < |index|
    ensures forall e :: e in blocks(index[j].value) ==> index[i].key.Before(e.key)
  {
  }

  lemma NothingToSeek(target: InternalKey)
    ensures SeekIndex([], target) == 0
  {
  }

  lemma BehindTarget(sep: InternalKey, target: InternalKey, b: seq<Entry>)
    requires !sep.Before(target) && forall e :: e in b ==> sep.Before(e.key)
    ensures b != [] ==> !b[0].key.Before(target)
  {
    assert b != [] ==> b[0] in b;
  }
}
