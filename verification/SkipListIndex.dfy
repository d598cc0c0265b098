/** The skip list as the writer runs it: searches, and insertion one pointer at a time. */
module SkipListIndex {
  import opened Keys
  import opened SkipList
  import opened ConcurrentReads

  /** No node but the head is higher. */
  ghost predicate Bounded(v: View, height: nat) {
    forall x :: 0 < x < |v.tall| ==> v.tall[x] <= height
  }

  /** On levels nobody has reached, the head leads nowhere. */
  lemma UnusedLevel(a: Arena, v: View, height: nat, level: nat, key: InternalKey)
    requires Sound(a, v) && height <= level < MAX_HEIGHT
    requires Bounded(v, height)
    ensures Precedes(a, v, HEAD, level, key) && a[HEAD].next[level] == NULL
  {
    LinkHolds(a, v, 0, level);
    SuccessorIs(v, level, 1, |v.chain|);
    assert v.chain[0] in v.chain;
  }

  class List {
    var arena: Arena
    var maxHeight: nat
    ghost var view: View

    ghost predicate Ok()
      reads this
    {
      && Sound(arena, view) && Reachable(view) && WriterInv(arena, view, Idle)
      && 1 <= maxHeight <= MAX_HEIGHT
      && Bounded(view, maxHeight)
    }

    /** The entries, in key order. */
    ghost function Entries(): seq<Entry>
      requires Ok()
      reads this
    {
      SkipList.Run(arena, view)
    }

    constructor ()
      ensures Ok() && Entries() == []
    {
      arena := Empty().arena;
      maxHeight := 1;
      view := Empty().view;
      new;
      EmptyInv();
    }

    /** The first node at or after `target`, and the last node before it on every level. */
    method FindGreaterOrEqual(target: InternalKey) returns (next: int, prev: seq<nat>)
      requires Ok()
      ensures next == FirstAtOrAfter(arena, view, target)
      ensures |prev| == MAX_HEIGHT && forall l :: 0 <= l < maxHeight ==> Precedes(arena, view, prev[l], l, target)
    {
      hide Ordered, Linked, WriterInv, SkipList.Run, Remaining, Searching, FirstAtOrAfter, Precedes;
      prev := seq(MAX_HEIGHT, _ => HEAD);
      var x: nat := HEAD;
      var level := maxHeight - 1;
      StartsAtHead(arena, view, target, level);
      while true
        invariant 0 <= level < maxHeight && Searching(arena, view, Reader(target, x, level, None))
        invariant |prev| == MAX_HEIGHT && forall l :: level < l < maxHeight ==> Precedes(arena, view, prev[l], l, target)
        decreases Remaining(view, Reader(target, x, level, None))
      {
        ghost var r := Reader(target, x, level, None);
        LoadKeepsSearching(arena, view, r);
        LoadDescends(arena, view, r);
        LastLoadFindsFirst(arena, view, r);
        next := arena[x].next[level];
        if next >= 0 && arena[next].entry.key.Before(target) {
          x := next;
        } else {
          StopsAt(arena, view, r);
          prev := prev[level := x];
          if level == 0 {
            return;
          }
          level := level - 1;
        }
      }
    }

    /** The last node before `target`; the head when there is none. */
    method FindLessThan(target: InternalKey) returns (x: nat)
      requires Ok()
      ensures x == view.chain[SeekIndex(Entries(), target)]
    {
      hide Ordered, Linked, WriterInv, Remaining, Searching, SkipList.Run;
      x := HEAD;
      var level := maxHeight - 1;
      StartsAtHead(arena, view, target, level);
      while true
        invariant 0 <= level < maxHeight && Searching(arena, view, Reader(target, x, level, None))
        decreases Remaining(view, Reader(target, x, level, None))
      {
        ghost var r := Reader(target, x, level, None);
        LoadKeepsSearching(arena, view, r);
        LoadDescends(arena, view, r);
        var next := arena[x].next[level];
        if next < 0 || !arena[next].entry.key.Before(target) {
          if level == 0 {
            StopsBeforeFirst(arena, view, r);
            return;
          }
          level := level - 1;
        } else {
          x := next;
        }
      }
    }

    method Contains(key: InternalKey) returns (found: bool)
      requires Ok()
      ensures found <==> exists e :: e in Entries() && e.key == key
    {
      hide Sound, WriterInv;
      var x, _ := FindGreaterOrEqual(key);
      FoundIsThere(arena, view, key);
      found := x >= 0 && arena[x].entry.key == key;
    }

    /** Where a node of the given height goes: on levels not used yet, right after the head. */
    method FindPath(key: InternalKey, height: nat) returns (prev: seq<nat>)
      requires Ok() && height <= MAX_HEIGHT
      ensures |prev| == MAX_HEIGHT && forall l :: 0 <= l < height ==> Precedes(arena, view, prev[l], l, key)
    {
      hide Ordered, Linked, WriterInv, Reachable, Precedes, Bounded;
      var _, found := FindGreaterOrEqual(key);
      prev := found;
      var i := maxHeight;
      while i < height
        invariant maxHeight <= i && |prev| == MAX_HEIGHT
        invariant forall l :: 0 <= l < i && (l < height || i == maxHeight) ==> Precedes(arena, view, prev[l], l, key)
      {
        UnusedLevel(arena, view, maxHeight, i, key);
        prev := prev[i := HEAD];
        i := i + 1;
      }
    }

    /** The two stores of one level: the new node's link, then the link that publishes it. */
    method LinkLevel(x: nat, p: nat, i: nat, ghost path: seq<nat>)
      requires i < |path| <= maxHeight && p == path[i]
      requires Linkable(arena, view, x, path, i) && Placed(arena, view) && Bounded(view, maxHeight)
      modifies this`arena, this`view
      ensures Linkable(arena, view, x, path, i + 1) && Placed(arena, view) && Bounded(view, maxHeight)
      ensures arena[x].entry == old(arena[x].entry) && x < |old(view.tall)| && view.tall == old(view.tall)[x := i + 1]
      ensures Elements(SkipList.Run(arena, view)) == old(Elements(SkipList.Run(arena, view)) + (if i == 0 then {arena[x].entry} else {}))
    {
      hide Sound, WriterInv, Reachable, Precedes, Bounded, Elements;
      ghost var s := System(arena, view, Linking(x, path, i, false), []);
      NextLevel(s);
      PrepareKeepsInv(s);
      arena := SetNext(arena, x, i, arena[p].next[i]);
      ghost var s' := Step(s, Prepare);
      PublishKeepsInv(s');
      PublishKeepsSound(s');
      PublishBounded(s', maxHeight);
      InvPlaced(Step(s', Publish));
      arena := SetNext(arena, p, i, x);
      view := SkipList.Published(view, p, x, i);
    }

    /** Links a new node level by level, lowest first. */
    method Insert(e: Entry, height: nat)
      requires Ok() && 1 <= height <= MAX_HEIGHT && forall x :: x in Entries() ==> x.key != e.key
      modifies this
      ensures Ok() && Sorted(Entries()) && Elements(Entries()) == Elements(old(Entries())) + {e}
      ensures view.tall == old(view.tall) + [height] && arena[|old(view.tall)|].entry == e
    {
      hide Sound, WriterInv, Reachable, Precedes, Bounded, Elements, Sorted;
      ghost var before := Entries();
      var prev := FindPath(e.key, height);
      EntriesAbsent(arena, view, e.key);
      BoundGrows(view, maxHeight, if height > maxHeight then height else maxHeight);
      if height > maxHeight {
        maxHeight := height;
      }
      var x := |arena|;
      ghost var path := prev[..height];
      NewNodeKeepsInv(System(arena, view, Idle, []), e, path);
      NewNodeBounded(view, maxHeight);
      InvPlaced(Step(System(arena, view, Idle, []), BeginInsert(e, path)));
      arena := arena + [NewNode(e, height)];
      view := view.(tall := view.tall + [0]);
      for i := 0 to height
        invariant height <= maxHeight <= MAX_HEIGHT && Bounded(view, maxHeight)
        invariant Linkable(arena, view, x, path, i) && Placed(arena, view)
        invariant arena[x].entry == e && view.tall == old(view.tall) + [i]
        invariant Elements(SkipList.Run(arena, view)) == Elements(before) + (if i > 0 then {e} else {})
      {
        LinkLevel(x, prev[i], i, path);
      }
      EndInsertKeepsInv(System(arena, view, Linking(x, path, height, false), []));
      RunIsSorted(arena, view);
    }
  }

  lemma StartsAtHead(a: Arena, v: View, target: InternalKey, level: nat)
    requires Sound(a, v) && level < MAX_HEIGHT
    ensures Searching(a, v, Reader(target, HEAD, level, None))
  {
    assert v.chain[0] in v.chain;
  }

  lemma StopsAt(a: Arena, v: View, r: Reader)
    requires Sound(a, v) && Searching(a, v, r) && Loadable(a, r)
    requires NotBefore(a, a[r.at].next[r.level], r.target)
    ensures Precedes(a, v, r.at, r.level, r.target)
  {
  }

  lemma StopsBeforeFirst(a: Arena, v: View, r: Reader)
    requires Sound(a, v) && Reachable(v) && Searching(a, v, r) && Loadable(a, r) && r.level == 0
    requires NotBefore(a, a[r.at].next[0], r.target)
    ensures SeekIndex(SkipList.Run(a, v), r.target) < |v.chain|
    ensures v.chain[SeekIndex(SkipList.Run(a, v), r.target)] == r.at
  {
    var i := Position(v, r.at);
    LowestLink(a, v, i);
    RunBefore(a, v, i, r.target);
  }

  lemma FoundIsThere(a: Arena, v: View, key: InternalKey)
    requires Sound(a, v)
    ensures var x := FirstAtOrAfter(a, v, key);
      && x < |a|
      && (x >= 0 && a[x].entry.key == key <==> exists e :: e in SkipList.Run(a, v) && e.key == key)
  {
    var run, i := SkipList.Run(a, v), SeekIndex(SkipList.Run(a, v), key);
    RunIsSorted(a, v);
    if e :| e in run && e.key == key {
      var k :| 0 <= k < |run| && run[k] == e;
      SeekIndexIs(run, key, k);
    }
    if i < |run| {
      assert run[i] in run;
    }
  }

  lemma EntriesAbsent(a: Arena, v: View, key: InternalKey)
    requires Sound(a, v) && forall x :: x in SkipList.Run(a, v) ==> x.key != key
    ensures Absent(a, v, key)
  {
    forall i | 0 < i < |v.chain| ensures a[v.chain[i]].entry.key != key {
      assert SkipList.Run(a, v)[i - 1] in SkipList.Run(a, v);
    }
  }

  lemma BoundGrows(v: View, height: nat, height': nat)
    requires Bounded(v, height) && height <= height'
    ensures Bounded(v, height')
  {
  }

  lemma NewNodeBounded(v: View, height: nat)
    requires Bounded(v, height)
    ensures Bounded(v.(tall := v.tall + [0]), height)
  {
  }

  ghost predicate Linkable(a: Arena, v: View, x: nat, path: seq<nat>, done: nat) {
    ConcurrentReads.Inv(System(a, v, Linking(x, path, done, false), [])) && x < |a|
  }

  /** What the invariant says about the node and the level at hand. */
  lemma NextLevel(s: System)
    requires ConcurrentReads.Inv(s) && s.writer.Linking? && s.writer.done < |s.writer.prev|
    ensures var (x, p, i) := (s.writer.node, s.writer.prev[s.writer.done], s.writer.done);
      && x < |s.arena| == |s.view.tall| && i < |s.arena[x].next| && p in s.view.chain && p < |s.arena| && i < |s.arena[p].next|
  {
    var w := s.writer;
    assert Precedes(s.arena, s.view, w.prev[w.done], w.done, s.arena[w.node].entry.key);
  }

  lemma PublishBounded(s: System, height: nat)
    requires ConcurrentReads.Inv(s) && ConcurrentReads.Enabled(s, Publish) && Bounded(s.view, height)
    requires |s.writer.prev| <= height
    ensures Bounded(Step(s, Publish).view, height)
  {
  }
}
