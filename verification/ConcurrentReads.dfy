/** Any interleaving of one writer's stores with any number of searches. Loads are taken to be
  * sequentially consistent. */
module ConcurrentReads {
  import opened Keys
  import opened SkipList

  /** What the writer is doing: linking `node` after `prev`, on `done` levels so far; its link
    * on the next level may have been prepared. */
  datatype Writer = Idle | Linking(node: nat, prev: seq<nat>, done: nat, prepared: bool)

  datatype System = System(arena: Arena, view: View, writer: Writer, readers: seq<Reader>)

  datatype Action =
    | BeginInsert(entry: Entry, prev: seq<nat>)
    | Prepare
    | Publish
    | EndInsert
    | BeginRead(target: InternalKey, level: nat)
    | LoadLink(i: nat)

  ghost predicate Complete(a: Arena, v: View, x: nat)
    requires x < |a| == |v.tall|
  {
    x in v.chain && v.tall[x] == |a[x].next|
  }

  ghost predicate WriterInv(a: Arena, v: View, w: Writer)
    requires Placed(a, v)
  {
    match w
    case Idle => forall x :: 0 <= x < |a| ==> Complete(a, v, x)
    case Linking(x, prev, done, prepared) =>
      && x < |a| && x != HEAD && v.tall[x] == done <= |a[x].next| == |prev| && prev != []
      && (x in v.chain <==> done > 0)
      && (done == 0 ==> Absent(a, v, a[x].entry.key))
      && (forall l :: done <= l < |prev| ==> Precedes(a, v, prev[l], l, a[x].entry.key))
      && (prepared ==> done < |prev| && a[x].next[done] == a[prev[done]].next[done])
      && (forall y :: 0 <= y < |a| && y != x ==> Complete(a, v, y))
  }

  ghost predicate ReadersInv(a: Arena, v: View, readers: seq<Reader>)
    requires Placed(a, v)
  {
    forall i :: 0 <= i < |readers| ==> Searching(a, v, readers[i])
  }

  ghost predicate Inv(s: System) {
    && Sound(s.arena, s.view) && Reachable(s.view)
    && WriterInv(s.arena, s.view, s.writer)
    && ReadersInv(s.arena, s.view, s.readers)
  }

  ghost predicate Enabled(s: System, act: Action)
    requires Placed(s.arena, s.view)
  {
    match act
    case BeginInsert(e, prev) =>
      && s.writer.Idle? && 0 < |prev| <= MAX_HEIGHT && Absent(s.arena, s.view, e.key)
      && forall l :: 0 <= l < |prev| ==> Precedes(s.arena, s.view, prev[l], l, e.key)
    case Prepare => s.writer.Linking? && !s.writer.prepared && s.writer.done < |s.writer.prev|
    case Publish => s.writer.Linking? && s.writer.prepared
    case EndInsert => s.writer.Linking? && s.writer.done == |s.writer.prev|
    // a reader may have read an old maximum height, or a new one
    case BeginRead(_, level) => level < MAX_HEIGHT
    case LoadLink(i) => i < |s.readers| && s.readers[i].result.None?
  }

  ghost function Step(s: System, act: Action): System
    requires Inv(s) && Enabled(s, act)
  {
    match act
    case BeginInsert(e, prev) =>
      System(s.arena + [NewNode(e, |prev|)], s.view.(tall := s.view.tall + [0]), Linking(|s.arena|, prev, 0, false), s.readers)
    case Prepare =>
      var w := s.writer;
      s.(arena := SetNext(s.arena, w.node, w.done, s.arena[w.prev[w.done]].next[w.done]), writer := w.(prepared := true))
    case Publish =>
      var w := s.writer;
      s.(arena := SetNext(s.arena, w.prev[w.done], w.done, w.node),
         view := SkipList.Published(s.view, w.prev[w.done], w.node, w.done),
         writer := Linking(w.node, w.prev, w.done + 1, false))
    case EndInsert => s.(writer := Idle)
    case BeginRead(target, level) => s.(readers := s.readers + [Reader(target, HEAD, level, None)])
    case LoadLink(i) =>
      CanLoad(s.arena, s.view, s.readers[i]);
      s.(readers := s.readers[i := Load(s.arena, s.readers[i])])
  }

  ghost function Contents(s: System): seq<Entry>
    requires Placed(s.arena, s.view)
  {
    SkipList.Run(s.arena, s.view)
  }

  // ---------------------------------------------------------------- steps keep the invariant

  lemma NewNodeKeepsInv(s: System, e: Entry, prev: seq<nat>)
    requires Inv(s) && Enabled(s, BeginInsert(e, prev))
    ensures Inv(Step(s, BeginInsert(e, prev)))
    ensures Contents(Step(s, BeginInsert(e, prev))) == Contents(s)
  {
    var s' := Step(s, BeginInsert(e, prev));
    NewNodeKeepsSound(s.arena, s.view, NewNode(e, |prev|));
    assert |s.arena| !in s.view.chain;
    forall y | 0 <= y < |s.arena| ensures Complete(s'.arena, s'.view, y) {
      assert Complete(s.arena, s.view, y);
    }
  }

  lemma PrepareKeepsInv(s: System)
    requires Inv(s) && Enabled(s, Prepare)
    ensures Inv(Step(s, Prepare)) && Contents(Step(s, Prepare)) == Contents(s)
  {
    hide Sound, SkipList.Run, Reachable;
    var w, a, v := s.writer, s.arena, s.view;
    IsPlaced(a, v);
    assert Precedes(a, v, w.prev[w.done], w.done, a[w.node].entry.key);
    assert w.prev[w.done] in v.chain && |a[w.prev[w.done]].next| > w.done;
    var next := a[w.prev[w.done]].next[w.done];
    var a' := SetNext(a, w.node, w.done, next);
    PrepareKeepsSound(a, v, w.node, w.done, next);
    IsPlaced(a', v);
    forall l | w.done <= l < |w.prev| ensures Precedes(a', v, w.prev[l], l, a'[w.node].entry.key) {
      assert Precedes(a, v, w.prev[l], l, a[w.node].entry.key);
    }
    forall y | 0 <= y < |a'| && y != w.node ensures Complete(a', v, y) {
      assert Complete(a, v, y);
    }
    forall i | 0 <= i < |s.readers| ensures Searching(a', v, s.readers[i]) {
      assert Searching(a, v, s.readers[i]);
    }
  }

  lemma IsPlaced(a: Arena, v: View)
    requires Sound(a, v)
    ensures Placed(a, v)
  {
  }

  /** Publishing on the lowest level adds the entry; on higher levels it changes nothing a
    * search can tell. */
  lemma PublishKeepsSound(s: System)
    requires Inv(s) && Enabled(s, Publish)
    ensures var s' := Step(s, Publish); Sound(s'.arena, s'.view) && Reachable(s'.view)
    ensures Elements(Contents(Step(s, Publish)))
      == Elements(Contents(s)) + (if s.writer.done == 0 then {s.arena[s.writer.node].entry} else {})
  {
    hide Ordered, Linked, Elements;
    var w, a, v := s.writer, s.arena, s.view;
    var prev := w.prev[w.done];
    assert Precedes(a, v, prev, w.done, a[w.node].entry.key);
    if w.done == 0 {
      PublishLowest(a, v, w.node, prev);
      AddedElement(Contents(s), Position(v, prev), a[w.node].entry);
    } else {
      PublishHigher(a, v, w.node, prev, w.done);
    }
  }

  lemma AddedElement(run: seq<Entry>, i: nat, e: Entry)
    requires i <= |run|
    ensures Elements(run[..i] + [e] + run[i..]) == Elements(run) + {e}
  {
    var r := run[..i] + [e] + run[i..];
    assert run == run[..i] + run[i..];
    forall x ensures x in r <==> x in run || x == e {}
  }

  lemma PublishKeepsInv(s: System)
    requires Inv(s) && Enabled(s, Publish)
    ensures Inv(Step(s, Publish))
  {
    PublishKeepsSound(s);
    PublishKeepsWriter(s);
    PublishKeepsReaders(s);
  }

  lemma PublishKeepsWriter(s: System)
    requires Inv(s) && Enabled(s, Publish) && Placed(Step(s, Publish).arena, Step(s, Publish).view)
    ensures var s' := Step(s, Publish); WriterInv(s'.arena, s'.view, s'.writer)
  {
    hide Sound, Searching, Reachable, SkipList.Published, SetNext;
    IsPlaced(s.arena, s.view);
    var w, a, v := s.writer, s.arena, s.view;
    var s' := Step(s, Publish);
    var prev, x := w.prev[w.done], w.node;
    assert Precedes(a, v, prev, w.done, a[x].entry.key);
    PublishedHeights(a, v, prev, x, w.done);
    forall l | w.done < l < |w.prev| ensures Precedes(s'.arena, s'.view, w.prev[l], l, a[x].entry.key) {
      assert Precedes(a, v, w.prev[l], l, a[x].entry.key);
      PublishKeepsPrecedes(a, v, x, prev, w.done, w.prev[l], l, a[x].entry.key);
    }
    forall y | 0 <= y < |a| && y != x ensures Complete(s'.arena, s'.view, y) {
      assert Complete(a, v, y);
      ChainGrows(v, prev, x, w.done, y);
    }
  }

  lemma PublishedHeights(a: Arena, v: View, prev: nat, x: nat, level: nat)
    requires Placed(a, v) && prev in v.chain && x < |a| && v.tall[x] == level < |a[x].next| && level < |a[prev].next|
    requires level > 0 ==> x in v.chain
    ensures var a', v' := SetNext(a, prev, level, x), SkipList.Published(v, prev, x, level);
      && |a'| == |a| == |v'.tall| && v'.tall[x] == level + 1 && x in v'.chain
      && (forall y :: 0 <= y < |a| ==> a'[y].entry == a[y].entry && |a'[y].next| == |a[y].next|)
      && (forall y :: 0 <= y < |a| && y != x ==> v'.tall[y] == v.tall[y])
  {
    ChainGrows(v, prev, x, level, x);
  }

  lemma PublishKeepsReaders(s: System)
    requires Inv(s) && Enabled(s, Publish) && Placed(Step(s, Publish).arena, Step(s, Publish).view)
    ensures var s' := Step(s, Publish); ReadersInv(s'.arena, s'.view, s'.readers)
  {
    hide Sound, Reachable, SkipList.Published, SetNext;
    IsPlaced(s.arena, s.view);
    var w, a, v := s.writer, s.arena, s.view;
    var s' := Step(s, Publish);
    var prev := w.prev[w.done];
    assert Precedes(a, v, prev, w.done, a[w.node].entry.key);
    PublishedHeights(a, v, prev, w.node, w.done);
    forall i | 0 <= i < |s.readers| ensures Searching(s'.arena, s'.view, s.readers[i]) {
      assert Searching(a, v, s.readers[i]);
      ChainGrows(v, prev, w.node, w.done, s.readers[i].at);
    }
  }

  lemma EndInsertKeepsInv(s: System)
    requires Inv(s) && Enabled(s, EndInsert)
    ensures Inv(Step(s, EndInsert)) && Contents(Step(s, EndInsert)) == Contents(s)
  {
    hide Sound, Reachable, Searching;
    IsPlaced(s.arena, s.view);
    assert s.writer.node in s.view.chain;
    forall y | 0 <= y < |s.arena| ensures Complete(s.arena, s.view, y) {
      assert y != s.writer.node ==> Complete(s.arena, s.view, y);
    }
  }

  lemma BeginReadKeepsInv(s: System, target: InternalKey, level: nat)
    requires Inv(s) && Enabled(s, BeginRead(target, level))
    ensures Inv(Step(s, BeginRead(target, level))) && Contents(Step(s, BeginRead(target, level))) == Contents(s)
  {
    hide Ordered, Linked, Reachable, WriterInv, SkipList.Run;
    SoundInArena(s.arena, s.view);
    assert HEAD in s.view.chain;
  }

  lemma LoadKeepsInv(s: System, i: nat)
    requires Inv(s) && Enabled(s, LoadLink(i))
    ensures Inv(Step(s, LoadLink(i))) && Contents(Step(s, LoadLink(i))) == Contents(s)
  {
    hide Sound, Reachable, WriterInv, SkipList.Run, Load, Searching;
    LoadKeepsSearching(s.arena, s.view, s.readers[i]);
  }

  lemma StepKeepsInv(s: System, act: Action)
    requires Inv(s) && Enabled(s, act)
    ensures Inv(Step(s, act))
    ensures Elements(Contents(s)) <= Elements(Contents(Step(s, act)))
  {
    hide Sound, Reachable, WriterInv, ReadersInv, SkipList.Run;
    match act
    case BeginInsert(e, prev) => NewNodeKeepsInv(s, e, prev);
    case Prepare => PrepareKeepsInv(s);
    case Publish => PublishKeepsInv(s); PublishKeepsSound(s);
    case EndInsert => EndInsertKeepsInv(s);
    case BeginRead(target, level) => BeginReadKeepsInv(s, target, level);
    case LoadLink(i) => LoadKeepsInv(s, i);
  }

  // ---------------------------------------------------------------- runs

  ghost predicate Legal(s: System, run: seq<Action>)
    requires Inv(s)
    decreases run
  {
    run == [] || (Enabled(s, run[0]) && (StepKeepsInv(s, run[0]); Legal(Step(s, run[0]), run[1..])))
  }

  ghost function After(s: System, run: seq<Action>): (s': System)
    requires Inv(s) && Legal(s, run)
    ensures Inv(s')
    decreases run
  {
    if run == [] then s else StepKeepsInv(s, run[0]); After(Step(s, run[0]), run[1..])
  }

  /** An empty list: only the head, with no links. */
  function Empty(): System {
    System([NewNode(Entry(InternalKey(0.0, 0, Deletion), []), MAX_HEIGHT)], View([HEAD], [MAX_HEIGHT]), Idle, [])
  }

  lemma EmptyInv()
    ensures Inv(Empty()) && Contents(Empty()) == []
  {
    var s := Empty();
    forall i, l | 0 <= i < |s.view.chain| && 0 <= l < s.view.tall[s.view.chain[i]] ensures LinkedAt(s.arena, s.view, i, l) {
      SuccessorIs(s.view, l, 1, 1);
    }
  }

  /** Entries stay once they are published. */
  lemma {:induction false} NothingIsLost(s: System, run: seq<Action>)
    requires Inv(s) && Legal(s, run)
    ensures Elements(Contents(s)) <= Elements(Contents(After(s, run)))
    decreases run
  {
    hide Inv, Enabled, Step, SkipList.Run, Elements;
    InvPlaced(s);
    if run != [] {
      StepKeepsInv(s, run[0]);
      NothingIsLost(Step(s, run[0]), run[1..]);
      InvPlaced(Step(s, run[0]));
    }
    InvPlaced(After(s, run));
  }

  lemma InvPlaced(s: System)
    requires Inv(s)
    ensures Placed(s.arena, s.view)
  {
  }

  /** After any interleaving, a search that makes its last load returns the first entry at or
    * after its target among all entries published by then: at least those there when it
    * started. */
  lemma SearchIsExact(s: System, run: seq<Action>, i: nat)
    requires Inv(s) && Legal(s, run) && Enabled(After(s, run), LoadLink(i))
    requires Step(After(s, run), LoadLink(i)).readers[i].result.Some?
    ensures var s' := After(s, run);
      && Step(s', LoadLink(i)).readers[i].result == Some(FirstAtOrAfter(s'.arena, s'.view, s'.readers[i].target))
      && Elements(Contents(s)) <= Elements(Contents(s'))
  {
    hide Sound, Reachable, Searching, Load, FirstAtOrAfter, SkipList.Run;
    NothingIsLost(s, run);
    var s' := After(s, run);
    InvPlaced(s');
    assert Searching(s'.arena, s'.view, s'.readers[i]);
    LastLoadFindsFirst(s'.arena, s'.view, s'.readers[i]);
  }

  /** With no one else moving, a search ends. */
  lemma {:induction false} SearchTerminates(s: System, i: nat) returns (run: seq<Action>)
    requires Inv(s) && Enabled(s, LoadLink(i))
    ensures Legal(s, run) && (forall k :: 0 <= k < |run| ==> run[k] == LoadLink(i))
    ensures |run| <= Remaining(s.view, s.readers[i])
    ensures i < |After(s, run).readers| && After(s, run).readers[i].result.Some?
    decreases Remaining(s.view, s.readers[i])
  {
    hide Sound, Reachable, WriterInv, SkipList.Run, Load, Remaining, Searching;
    InvPlaced(s);
    assert Searching(s.arena, s.view, s.readers[i]);
    LoadDescends(s.arena, s.view, s.readers[i]);
    StepKeepsInv(s, LoadLink(i));
    var s' := Step(s, LoadLink(i));
    var rest: seq<Action> := [];
    if s'.readers[i].result.None? {
      rest := SearchTerminates(s', i);
    }
    run := [LoadLink(i)] + rest;
    assert run[1..] == rest;
    assert After(s, run) == After(s', rest);
  }
}
