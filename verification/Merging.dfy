/** The k-way merging iterator, a cursor over the sorted merge of its children. */
module Merging {
  import opened Keys

  /** A leaf iterator over one sorted run; past either end it is invalid. */
  class Cursor {
    const run: seq<Entry>
    var pos: nat

    constructor (run: seq<Entry>)
      ensures this.run == run && pos == |run|
    {
      this.run := run;
      pos := |run|;
    }

    predicate Valid()
      reads this
    {
      pos < |run|
    }

    function Key(): InternalKey
      requires Valid()
      reads this
    {
      run[pos].key
    }

    method SeekToFirst()
      modifies this
      ensures pos == 0
    {
      pos := 0;
    }

    method SeekToLast()
      modifies this
      ensures pos == if |run| == 0 then 0 else |run| - 1
    {
      pos := if |run| == 0 then 0 else |run| - 1;
    }

    method Seek(target: InternalKey)
      modifies this
      ensures pos == SeekIndex(run, target)
    {
      pos := 0;
      while pos < |run| && run[pos].key.Before(target)
        invariant pos <= |run|
        invariant pos + SeekIndex(run[pos..], target) == SeekIndex(run, target)
      {
        assert run[pos..][1..] == run[pos + 1..];
        pos := pos + 1;
      }
    }

    method Next()
      requires Valid()
      modifies this
      ensures pos == old(pos) + 1
    {
      pos := pos + 1;
    }

    /** Steps past an entry whose key compares equal to `key`. */
    method SkipKey(key: InternalKey)
      modifies this
      ensures pos == if old(pos) < |run| && !key.Before(run[old(pos)].key) && !run[old(pos)].key.Before(key) then old(pos) + 1 else old(pos)
    {
      if Valid() && !key.Before(Key()) && !Key().Before(key) {
        Next();
      }
    }

    method Prev()
      requires Valid()
      modifies this
      ensures pos == if old(pos) == 0 then |run| else old(pos) - 1
    {
      pos := if pos == 0 then |run| else pos - 1;
    }
  }

  // ---------------------------------------------------------------- merges

  /** `merged` is the sorted merge of `runs`, whose keys are all distinct. */
  ghost predicate IsMerge(runs: seq<seq<Entry>>, merged: seq<Entry>) {
    && Sorted(merged)
    && (forall k :: 0 <= k < |runs| ==> Sorted(runs[k]))
    && (forall k, e :: 0 <= k < |runs| && e in runs[k] ==> e in merged)
    && (forall e :: e in merged ==> exists k :: 0 <= k < |runs| && e in runs[k])
    && (forall k, l, e, f :: 0 <= k < |runs| && 0 <= l < |runs| && k != l && e in runs[k] && f in runs[l]
          ==> e.key.Before(f.key) || f.key.Before(e.key))
  }

  /** How many entries of `run` come before the p-th merged entry. */
  function Lower(run: seq<Entry>, merged: seq<Entry>, p: nat): nat
    requires p <= |merged|
  {
    if p == |merged| then |run| else SeekIndex(run, merged[p].key)
  }

  /** Where a cursor over `run` stands just before the p-th merged entry; invalid at the front. */
  function Back(run: seq<Entry>, merged: seq<Entry>, p: nat): nat
    requires p <= |merged|
  {
    if Lower(run, merged, p) == 0 then |run| else Lower(run, merged, p) - 1
  }

  /** Where the merge has the j-th entry of run `k`. */
  lemma MergedIndex(runs: seq<seq<Entry>>, merged: seq<Entry>, k: nat, j: nat) returns (q: nat)
    requires IsMerge(runs, merged) && k < |runs| && j < |runs[k]|
    ensures q < |merged| && merged[q] == runs[k][j]
  {
    var e := runs[k][j];
    assert e in runs[k] && e in merged;
    q :| 0 <= q < |merged| && merged[q] == e;
  }

  /** Which run has the q-th merged entry. */
  lemma SourceOf(runs: seq<seq<Entry>>, merged: seq<Entry>, q: nat) returns (k: nat)
    requires IsMerge(runs, merged) && q < |merged|
    ensures k < |runs| && merged[q] in runs[k]
  {
    assert merged[q] in merged;
    k :| 0 <= k < |runs| && merged[q] in runs[k];
  }

  /** Stepping over a merged entry moves exactly the run that holds it. */
  lemma LowerStep(runs: seq<seq<Entry>>, merged: seq<Entry>, k: nat, p: nat)
    requires IsMerge(runs, merged) && k < |runs| && p < |merged|
    ensures merged[p] !in runs[k] ==> Lower(runs[k], merged, p + 1) == Lower(runs[k], merged, p)
    ensures merged[p] in runs[k] ==>
      && Lower(runs[k], merged, p + 1) == Lower(runs[k], merged, p) + 1 <= |runs[k]|
      && runs[k][Lower(runs[k], merged, p)] == merged[p]
  {
    hide SeekIndex;
    var run, x := runs[k], merged[p];
    var i := SeekIndex(run, x.key);
    if x in run {
      var j :| 0 <= j < |run| && run[j] == x;
      SeekIndexIs(run, x.key, j);
      assert i == j;
    }
    var next := if x in run then i + 1 else i;
    forall j | 0 <= j < |run|
      ensures p + 1 < |merged| ==> (run[j].key.Before(merged[p + 1].key) <==> j < next)
      ensures p + 1 == |merged| ==> j < next
    {
      var q := MergedIndex(runs, merged, k, j);
      if j < i {
        assert run[j].key.Before(x.key);
      } else if j > i {
        assert run[i].key.Before(run[j].key);
      }
    }
    assert next == |run| || run[next] in run;
    if p + 1 < |merged| {
      SeekIndexIs(run, merged[p + 1].key, next);
    }
  }

  /** The head of a run is never before the merged entry it is cut at. */
  lemma HeadNotBefore(runs: seq<seq<Entry>>, merged: seq<Entry>, k: nat, p: nat)
    requires IsMerge(runs, merged) && k < |runs| && p < |merged|
    requires Lower(runs[k], merged, p) < |runs[k]| && merged[p] !in runs[k]
    ensures merged[p].key.Before(runs[k][Lower(runs[k], merged, p)].key)
  {
    var q := MergedIndex(runs, merged, k, Lower(runs[k], merged, p));
  }

  /** An entry a cursor stands at in reverse is no later than the merged entry it stops before. */
  lemma BackIsBefore(runs: seq<seq<Entry>>, merged: seq<Entry>, k: nat, p: nat)
    requires IsMerge(runs, merged) && k < |runs| && 0 < p <= |merged|
    requires Back(runs[k], merged, p) < |runs[k]| && Lower(runs[k], merged, p) > 0
    ensures var e := runs[k][Back(runs[k], merged, p)];
      e == merged[p - 1] || e.key.Before(merged[p - 1].key)
  {
    var b := Back(runs[k], merged, p);
    var q := MergedIndex(runs, merged, k, b);
    if p < |merged| {
      assert runs[k][b].key.Before(merged[p].key);
    }
  }

  lemma FrontIsZero(runs: seq<seq<Entry>>, merged: seq<Entry>, k: nat)
    requires IsMerge(runs, merged) && k < |runs|
    ensures Lower(runs[k], merged, 0) == 0
  {
    if runs[k] != [] {
      var q := MergedIndex(runs, merged, k, 0);
    }
  }

  /** Seeking every run cuts the merge where seeking the merge would. */
  lemma SeekCuts(runs: seq<seq<Entry>>, merged: seq<Entry>, k: nat, target: InternalKey)
    requires IsMerge(runs, merged) && k < |runs|
    ensures SeekIndex(runs[k], target) == Lower(runs[k], merged, SeekIndex(merged, target))
  {
    hide SeekIndex;
    var run, p := runs[k], SeekIndex(merged, target);
    var i := Lower(run, merged, p);
    forall j | 0 <= j < |run|
      ensures run[j].key.Before(target) <==> j < i
    {
      var q := MergedIndex(runs, merged, k, j);
      if q < p {
        assert p < |merged| ==> merged[q].key.Before(merged[p].key);
      } else {
        assert !merged[q].key.Before(merged[p].key);
      }
    }
    SeekIndexIs(run, target, i);
  }

  datatype Direction = Forward | Reverse

  class MergingIterator {
    const children: seq<Cursor>
    ghost const merged: seq<Entry>
    var current: int
    var direction: Direction
    /** The merged position the iterator stands at; -1 when it is invalid. */
    ghost var at: int

    ghost function Runs(): seq<seq<Entry>> {
      seq(|children|, k requires 0 <= k < |children| => children[k].run)
    }

    ghost predicate Sources() {
      && (forall k, l :: 0 <= k < l < |children| ==> children[k] != children[l])
      && IsMerge(Runs(), merged)
    }

    /** Every child stands at its first entry not before merged entry `p`. */
    ghost predicate Cut(p: nat)
      reads children
    {
      p <= |merged| && forall k :: 0 <= k < |children| ==> children[k].pos == Lower(children[k].run, merged, p)
    }

    /** Every child stands at its last entry before merged entry `p`. */
    ghost predicate BackCut(p: nat)
      reads children
    {
      p <= |merged| && forall k :: 0 <= k < |children| ==> children[k].pos == Back(children[k].run, merged, p)
    }

    /** The class invariant. Moving forward, every child but the current one stands at its first
      * entry after the current entry; in reverse, at its last entry before it. */
    ghost predicate Ok()
      reads this, children
    {
      && Sources()
      && -1 <= current < |children|
      && (current == -1 <==> at == -1)
      && (current != -1 ==>
            && 0 <= at < |merged|
            && children[current].Valid() && children[current].run[children[current].pos] == merged[at]
            && (if direction.Forward? then Cut(at) else BackCut(at + 1)))
    }

    constructor (children: seq<Cursor>, ghost merged: seq<Entry>)
      requires forall k, l :: 0 <= k < l < |children| ==> children[k] != children[l]
      requires IsMerge(seq(|children|, k requires 0 <= k < |children| => children[k].run), merged)
      ensures Ok() && at == -1 && this.children == children && this.merged == merged
    {
      this.children := children;
      this.merged := merged;
      current := -1;
      at := -1;
      direction := Forward;
    }

    predicate Valid()
      reads this
    {
      current != -1
    }

    function Key(): InternalKey
      requires Ok() && Valid()
      reads this, children
    {
      children[current].Key()
    }

    function Value(): Value
      requires Ok() && Valid()
      reads this, children
    {
      children[current].run[children[current].pos].value
    }

    method FindSmallest(ghost p: nat)
      requires Sources() && Cut(p) && direction.Forward?
      modifies this`current, this`at
      ensures Ok() && at == if p < |merged| then p else -1
    {
      hide IsMerge, SeekIndex;
      var smallest := -1;
      var i := 0;
      while i < |children|
        invariant 0 <= i <= |children| && -1 <= smallest < i
        invariant smallest == -1 ==> forall k :: 0 <= k < i ==> !children[k].Valid()
        invariant smallest != -1 ==> children[smallest].Valid()
        invariant smallest != -1 ==> forall k :: 0 <= k < i && children[k].Valid() ==> !children[k].Key().Before(children[smallest].Key())
      {
        var child := children[i];
        if child.Valid() {
          if smallest == -1 {
            smallest := i;
          } else if child.Key().Before(children[smallest].Key()) {
            smallest := i;
          }
        }
        i := i + 1;
      }
      current := smallest;
      at := if p < |merged| then p else -1;
      if p < |merged| {
        var k := SourceOf(Runs(), merged, p);
        LowerStep(Runs(), merged, k, p);
        assert children[k].Valid() && children[k].Key() == merged[p].key;
        if smallest != k && merged[p] !in Runs()[smallest] {
          HeadNotBefore(Runs(), merged, smallest, p);
        }
        assert merged[p] in Runs()[smallest];
        LowerStep(Runs(), merged, smallest, p);
      }
    }

    method FindLargest(ghost p: nat)
      requires Sources() && BackCut(p) && direction.Reverse?
      modifies this`current, this`at
      ensures Ok() && at == p - 1
    {
      hide IsMerge, SeekIndex;
      var largest := -1;
      var i := |children| - 1;
      while i >= 0
        invariant -1 <= i < |children| && (largest == -1 || i < largest < |children|)
        invariant largest == -1 ==> forall k :: i < k < |children| ==> !children[k].Valid()
        invariant largest != -1 ==> children[largest].Valid()
        invariant largest != -1 ==> forall k :: i < k < |children| && children[k].Valid() ==> !children[largest].Key().Before(children[k].Key())
      {
        var child := children[i];
        if child.Valid() {
          if largest == -1 {
            largest := i;
          } else if children[largest].Key().Before(child.Key()) {
            largest := i;
          }
        }
        i := i - 1;
      }
      current := largest;
      at := p - 1;
      if p > 0 {
        var k := SourceOf(Runs(), merged, p - 1);
        LowerStep(Runs(), merged, k, p - 1);
        assert children[k].Valid() && children[k].Key() == merged[p - 1].key;
        BackIsBefore(Runs(), merged, largest, p);
        assert merged[p - 1] in Runs()[largest];
        LowerStep(Runs(), merged, largest, p - 1);
      } else {
        forall k | 0 <= k < |children| ensures !children[k].Valid() {
          FrontIsZero(Runs(), merged, k);
        }
      }
    }

    method SeekToFirst()
      requires Ok()
      modifies this, children
      ensures Ok() && at == if |merged| == 0 then -1 else 0
    {
      hide IsMerge, SeekIndex;
      var i := 0;
      while i < |children|
        invariant 0 <= i <= |children|
        invariant Sources() && forall k :: 0 <= k < i ==> children[k].pos == 0
      {
        children[i].SeekToFirst();
        i := i + 1;
      }
      direction := Forward;
      forall k | 0 <= k < |children| ensures Lower(children[k].run, merged, 0) == 0 {
        FrontIsZero(Runs(), merged, k);
      }
      FindSmallest(0);
    }

    method SeekToLast()
      requires Ok()
      modifies this, children
      ensures Ok() && at == |merged| - 1
    {
      hide IsMerge, SeekIndex;
      var i := 0;
      while i < |children|
        invariant 0 <= i <= |children|
        invariant Sources() && forall k :: 0 <= k < i ==> children[k].pos == Back(children[k].run, merged, |merged|)
      {
        children[i].SeekToLast();
        i := i + 1;
      }
      direction := Reverse;
      FindLargest(|merged|);
    }

    method Seek(target: InternalKey)
      requires Ok()
      modifies this, children
      ensures Ok()
      ensures at == (if SeekIndex(merged, target) < |merged| then SeekIndex(merged, target) else -1)
    {
      hide IsMerge;
      ghost var p := SeekIndex(merged, target);
      var i := 0;
      while i < |children|
        invariant 0 <= i <= |children|
        invariant Sources() && forall k :: 0 <= k < i ==> children[k].pos == Lower(children[k].run, merged, p)
      {
        children[i].Seek(target);
        SeekCuts(Runs(), merged, i, target);
        i := i + 1;
      }
      direction := Forward;
      FindSmallest(p);
    }

    /** Keys are distinct across children, so no other child holds the current key. */
    lemma NoSharedKey(i: nat, key: InternalKey)
      requires Sources() && i < |children| && i != current && 0 <= current < |children|
      requires children[current].Valid() && key == children[current].Key() && children[i].Valid()
      ensures key.Before(children[i].Key()) || children[i].Key().Before(key)
    {
      var e, f := children[current].run[children[current].pos], children[i].run[children[i].pos];
      assert e in Runs()[current] && f in Runs()[i];
    }

    lemma SeekingCurrentKey()
      requires Ok() && Valid()
      ensures SeekIndex(merged, Key()) == at
    {
      SeekIndexIs(merged, Key(), at);
    }

    lemma OnlyCurrentHasIt(k: nat)
      requires Ok() && Valid() && k < |children|
      ensures merged[at] in Runs()[k] <==> k == current
    {
      var e := children[current].run[children[current].pos];
      assert e in Runs()[current];
    }

    /** Children other than the current one move to their first entry after the current key. */
    method TurnForward()
      requires Ok() && Valid() && direction.Reverse?
      modifies this`direction, children
      ensures Ok() && direction == Forward
    {
      hide IsMerge, SeekIndex, Lower;
      var key := Key();
      LowerStep(Runs(), merged, current, at);
      SeekingCurrentKey();
      var i := 0;
      while i < |children|
        invariant 0 <= i <= |children|
        invariant Sources() && children[current].pos == Lower(children[current].run, merged, at)
        invariant forall k :: 0 <= k < i ==> children[k].pos == Lower(children[k].run, merged, at)
      {
        if i != current {
          children[i].Seek(key);
          SeekCuts(Runs(), merged, i, key);
          if children[i].Valid() { NoSharedKey(i, key); }
          children[i].SkipKey(key);
        }
        i := i + 1;
      }
      direction := Forward;
    }

    /** Children other than the current one move to their last entry before the current key. */
    method TurnReverse()
      requires Ok() && Valid() && direction.Forward?
      modifies this`direction, children
      ensures Ok() && direction == Reverse && at == old(at)
    {
      hide IsMerge, SeekIndex, Lower;
      var key := Key();
      LowerStep(Runs(), merged, current, at);
      SeekingCurrentKey();
      forall k | 0 <= k < |children| ensures merged[at] in Runs()[k] <==> k == current {
        OnlyCurrentHasIt(k);
      }
      var i := 0;
      while i < |children|
        invariant 0 <= i <= |children|
        invariant Sources() && children[current].pos == Back(children[current].run, merged, at + 1)
        invariant forall k :: 0 <= k < i ==> children[k].pos == Back(children[k].run, merged, at + 1)
        invariant forall k :: 0 <= k < |children| && k != current ==> merged[at] !in Runs()[k]
      {
        if i != current {
          children[i].Seek(key);
          SeekCuts(Runs(), merged, i, key);
          LowerStep(Runs(), merged, i, at);
          if children[i].Valid() {
            children[i].Prev();
          } else {
            children[i].SeekToLast();
          }
        }
        i := i + 1;
      }
      direction := Reverse;
    }

    method Next()
      requires Ok() && Valid()
      modifies this, children
      ensures Ok() && at == if old(at) + 1 < |merged| then old(at) + 1 else -1
    {
      hide IsMerge, SeekIndex, Lower;
      if direction != Forward {
        TurnForward();
      }
      ghost var p := at;
      forall k | 0 <= k < |children|
        ensures Lower(children[k].run, merged, p + 1) == Lower(children[k].run, merged, p) + (if k == current then 1 else 0)
      {
        LowerStep(Runs(), merged, k, p);
        OnlyCurrentHasIt(k);
      }
      children[current].Next();
      FindSmallest(p + 1);
    }

    method Prev()
      requires Ok() && Valid()
      modifies this, children
      ensures Ok() && at == old(at) - 1
    {
      hide IsMerge, SeekIndex, Lower;
      if direction != Reverse {
        TurnReverse();
      }
      ghost var p := at;
      forall k | 0 <= k < |children|
        ensures Lower(children[k].run, merged, p + 1) == Lower(children[k].run, merged, p) + (if k == current then 1 else 0)
      {
        LowerStep(Runs(), merged, k, p);
        OnlyCurrentHasIt(k);
      }
      children[current].Prev();
      FindLargest(p);
    }
  }
}
