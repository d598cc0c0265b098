/** The memtable's skip list: one writer publishes pointers while readers load them.
  *
  * Nodes live in an arena and name each other by position. The links of every level must at
  * all times follow one order of the nodes, the chain; `tall` tells on how many levels a node
  * has been published.
  */
module SkipList {
  import opened Keys

  const MAX_HEIGHT := 12
  const HEAD: nat := 0
  const NULL := -1

  datatype Node = Node(entry: Entry, next: seq<int>)

  type Arena = seq<Node>

  /** The order of the published nodes, head first, and the number of levels each is on. */
  datatype View = View(chain: seq<nat>, tall: seq<nat>)

  ghost predicate InArena(v: View) {
    forall i :: 0 <= i < |v.chain| ==> v.chain[i] < |v.tall|
  }

  /** The place in the chain, from `j` on, of the first node on `level`; the length if none. */
  ghost function Successor(v: View, level: nat, j: nat): (k: nat)
    requires j <= |v.chain| && InArena(v)
    ensures j <= k <= |v.chain|
    decreases |v.chain| - j
  {
    if j == |v.chain| || v.tall[v.chain[j]] > level then j else Successor(v, level, j + 1)
  }

  lemma {:induction false} SuccessorIsFirst(v: View, level: nat, j: nat)
    requires InArena(v) && j <= |v.chain|
    ensures var k := Successor(v, level, j);
      && (forall i :: j <= i < k ==> v.tall[v.chain[i]] <= level)
      && (k < |v.chain| ==> v.tall[v.chain[k]] > level)
    decreases |v.chain| - j
  {
    if j < |v.chain| && v.tall[v.chain[j]] <= level {
      SuccessorIsFirst(v, level, j + 1);
    }
  }

  lemma {:induction false} SuccessorIs(v: View, level: nat, j: nat, k: nat)
    requires InArena(v) && j <= k <= |v.chain|
    requires forall i :: j <= i < k ==> v.tall[v.chain[i]] <= level
    requires k < |v.chain| ==> v.tall[v.chain[k]] > level
    ensures Successor(v, level, j) == k
    decreases k - j
  {
    if j < k {
      SuccessorIs(v, level, j + 1, k);
    }
  }

  ghost function NodeAt(v: View, k: nat): int {
    if k < |v.chain| then v.chain[k] else NULL
  }

  /** The nodes are in the arena, the head is first and on every level. */
  ghost predicate Placed(a: Arena, v: View) {
    && |a| == |v.tall| && |v.chain| > 0 && v.chain[0] == HEAD
    && InArena(v)
    && (forall x :: 0 <= x < |a| ==> v.tall[x] <= |a[x].next| <= MAX_HEIGHT)
    && |a[HEAD].next| == v.tall[HEAD] == MAX_HEIGHT
    && (forall i, j :: 0 <= i < j < |v.chain| ==> v.chain[i] != v.chain[j])
  }

  /** Node `x` comes before `target`; the head comes before everything. */
  predicate NodeBefore(a: Arena, x: nat, target: InternalKey)
    requires x < |a|
  {
    x == HEAD || a[x].entry.key.Before(target)
  }

  /** A link that leads to `target` or beyond. */
  predicate NotBefore(a: Arena, next: int, target: InternalKey)
    requires next < |a|
  {
    next < 0 || !a[next].entry.key.Before(target)
  }

  ghost predicate Ordered(a: Arena, v: View)
    requires Placed(a, v)
  {
    forall i, j :: 0 <= i < j < |v.chain| ==> v.chain[j] != HEAD && NodeBefore(a, v.chain[i], a[v.chain[j]].entry.key)
  }

  /** Every link leads to the next node of its level. */
  ghost predicate LinkedAt(a: Arena, v: View, i: nat, level: nat)
    requires Placed(a, v) && i < |v.chain| && level < v.tall[v.chain[i]]
  {
    a[v.chain[i]].next[level] == NodeAt(v, Successor(v, level, i + 1))
  }

  ghost predicate Linked(a: Arena, v: View)
    requires Placed(a, v)
  {
    forall i, level :: 0 <= i < |v.chain| && 0 <= level < v.tall[v.chain[i]] ==> LinkedAt(a, v, i, level)
  }

  /** Every level is a sorted sublist of the chain. */
  ghost predicate Sound(a: Arena, v: View) {
    Placed(a, v) && Ordered(a, v) && Linked(a, v)
  }

  /** What the list holds. */
  ghost function Run(a: Arena, v: View): seq<Entry>
    requires Placed(a, v)
  {
    seq(|v.chain| - 1, i requires 0 <= i < |v.chain| - 1 => a[v.chain[i + 1]].entry)
  }

  lemma RunIsSorted(a: Arena, v: View)
    requires Sound(a, v)
    ensures Sorted(Run(a, v))
  {
    forall i, j | 0 <= i < j < |v.chain| - 1 ensures Run(a, v)[i].key.Before(Run(a, v)[j].key) {
      assert NodeBefore(a, v.chain[i + 1], a[v.chain[j + 1]].entry.key);
      assert v.chain[i + 1] != v.chain[0];
    }
  }

  // ---------------------------------------------------------------- links

  /** A link loaded from a published level. */
  lemma LinkLeadsOn(a: Arena, v: View, x: nat, level: nat) returns (i: nat, k: nat)
    requires Sound(a, v) && x in v.chain && level < v.tall[x]
    ensures i < k <= |v.chain| && v.chain[i] == x && a[x].next[level] == NodeAt(v, k)
    ensures k < |v.chain| ==> v.tall[v.chain[k]] > level
    ensures forall j :: i < j < k ==> v.tall[v.chain[j]] <= level
  {
    i :| 0 <= i < |v.chain| && v.chain[i] == x;
    assert LinkedAt(a, v, i, level);
    k := Successor(v, level, i + 1);
    SuccessorIsFirst(v, level, i + 1);
  }

  // ---------------------------------------------------------------- the writer's steps

  /** `p` is where a node with key `target` goes at `level`. */
  ghost predicate Precedes(a: Arena, v: View, p: nat, level: nat, target: InternalKey)
    requires Placed(a, v)
  {
    && p in v.chain && v.tall[p] > level
    && NodeBefore(a, p, target)
    && a[p].next[level] < |a| && NotBefore(a, a[p].next[level], target)
  }

  function SetNext(a: Arena, x: nat, level: nat, next: int): Arena
    requires x < |a| && level < |a[x].next|
  {
    a[x := a[x].(next := a[x].next[level := next])]
  }

  /** Entries stay as they are: only links and heights change. */
  ghost predicate SameEntries(a: Arena, a': Arena) {
    |a| <= |a'| && forall x :: 0 <= x < |a| ==> a[x].entry == a'[x].entry && |a[x].next| == |a'[x].next|
  }

  lemma SameOrder(a: Arena, a': Arena, v: View, v': View)
    requires Placed(a, v) && Ordered(a, v) && Placed(a', v') && SameEntries(a, a') && v.chain == v'.chain
    ensures Ordered(a', v') && Run(a', v') == Run(a, v)
  {
    forall i, j | 0 <= i < j < |v.chain| ensures v.chain[j] != HEAD && NodeBefore(a', v.chain[i], a'[v.chain[j]].entry.key) {
      assert NodeBefore(a, v.chain[i], a[v.chain[j]].entry.key);
    }
  }

  /** A link of the new node that no reader can follow yet. */
  lemma PrepareKeepsSound(a: Arena, v: View, x: nat, level: nat, next: int)
    requires Sound(a, v) && x < |a| && v.tall[x] <= level < |a[x].next|
    ensures Sound(SetNext(a, x, level, next), v)
    ensures Run(SetNext(a, x, level, next), v) == Run(a, v)
  {
    hide Ordered, Run;
    var a' := SetNext(a, x, level, next);
    SameOrder(a, a', v, v);
    forall i, l | 0 <= i < |v.chain| && 0 <= l < v.tall[v.chain[i]] ensures LinkedAt(a', v, i, l) {
      assert LinkedAt(a, v, i, l);
    }
  }

  /** A node joins the chain where it belongs, on no level yet. */
  ghost function Joined(v: View, p: nat, x: nat): View
    requires p < |v.chain|
  {
    View(v.chain[..p + 1] + [x] + v.chain[p + 1..], v.tall)
  }

  /** A node is published on one more level. */
  ghost function Raised(v: View, x: nat, level: nat): View
    requires x < |v.tall|
  {
    v.(tall := v.tall[x := level + 1])
  }

  lemma KeysAreTotal(k: InternalKey, l: InternalKey)
    ensures k.Before(l) || l.Before(k) || k == l
    ensures !(k.Before(l) && l.Before(k)) && !k.Before(k)
  {
  }

  lemma BeforeChain(a: Arena, v: View, i: nat, p: nat, target: InternalKey)
    requires Placed(a, v) && Ordered(a, v) && i <= p < |v.chain| && NodeBefore(a, v.chain[p], target)
    ensures NodeBefore(a, v.chain[i], target)
  {
    if i < p {
      assert NodeBefore(a, v.chain[i], a[v.chain[p]].entry.key);
    }
  }

  lemma AfterChain(a: Arena, v: View, p: nat, i: nat, target: InternalKey)
    requires Placed(a, v) && Ordered(a, v) && 0 < p <= i < |v.chain| && target.Before(a[v.chain[p]].entry.key)
    ensures target.Before(a[v.chain[i]].entry.key)
  {
    if p < i {
      assert NodeBefore(a, v.chain[p], a[v.chain[i]].entry.key);
      assert v.chain[p] != v.chain[0];
    }
  }

  lemma JoinKeepsPlaced(a: Arena, v: View, p: nat, x: nat)
    requires Placed(a, v) && p < |v.chain| && x < |a| && x !in v.chain
    ensures Placed(a, Joined(v, p, x))
  {
    var v' := Joined(v, p, x);
    forall i, j | 0 <= i < j < |v'.chain| ensures v'.chain[i] != v'.chain[j] {
      var i0, j0 := if i <= p then i else i - 1, if j <= p then j else j - 1;
      assert i != p + 1 ==> v'.chain[i] == v.chain[i0];
      assert j != p + 1 ==> v'.chain[j] == v.chain[j0];
    }
  }

  lemma JoinKeepsOrder(a: Arena, v: View, p: nat, x: nat)
    requires Placed(a, v) && Ordered(a, v) && p < |v.chain| && x < |a| && x !in v.chain
    requires NodeBefore(a, v.chain[p], a[x].entry.key)
    requires p + 1 < |v.chain| ==> a[x].entry.key.Before(a[v.chain[p + 1]].entry.key)
    ensures Placed(a, Joined(v, p, x)) && Ordered(a, Joined(v, p, x))
  {
    var v' := Joined(v, p, x);
    JoinKeepsPlaced(a, v, p, x);
    forall i, j | 0 <= i < j < |v'.chain|
      ensures v'.chain[j] != HEAD && NodeBefore(a, v'.chain[i], a[v'.chain[j]].entry.key)
    {
      assert v'.chain[j] != v'.chain[0];
      if j == p + 1 {
        BeforeChain(a, v, i, p, a[x].entry.key);
      } else if i == p + 1 {
        AfterChain(a, v, p + 1, j - 1, a[x].entry.key);
      } else {
        assert NodeBefore(a, v.chain[if i <= p then i else i - 1], a[v.chain[if j <= p then j else j - 1]].entry.key);
      }
    }
  }

  lemma JoinedSuccessor(v: View, p: nat, x: nat, l: nat, j: nat)
    requires InArena(v) && p < |v.chain| && x < |v.tall| && v.tall[x] == 0 && j <= |v.chain|
    ensures InArena(Joined(v, p, x))
    ensures var s := Successor(v, l, j);
      Successor(Joined(v, p, x), l, if j <= p then j else j + 1) == if s <= p then s else s + 1
    ensures j == p + 1 ==> Successor(Joined(v, p, x), l, j) == Successor(v, l, j) + 1
  {
    hide Successor;
    var v', s, j' := Joined(v, p, x), Successor(v, l, j), if j <= p then j else j + 1;
    var s' := if s <= p then s else s + 1;
    forall k | 0 <= k < |v'.chain| && k != p + 1 ensures v'.chain[k] == v.chain[if k <= p then k else k - 1] {}
    SuccessorIsFirst(v, l, j);
    SuccessorIs(v', l, j', s');
    if j == p + 1 {
      SuccessorIs(v', l, j, s');
    }
  }

  lemma JoinKeepsLink(a: Arena, v: View, p: nat, x: nat, i0: nat, l: nat)
    requires Placed(a, v) && Linked(a, v) && p < |v.chain| && x < |a| && x !in v.chain && v.tall[x] == 0
    requires i0 < |v.chain| && l < v.tall[v.chain[i0]]
    ensures Placed(a, Joined(v, p, x))
    ensures LinkedAt(a, Joined(v, p, x), if i0 <= p then i0 else i0 + 1, l)
  {
    hide Linked, Ordered, Placed, Successor;
    JoinKeepsPlaced(a, v, p, x);
    ChainIsSimple(a, v);
    LinkHolds(a, v, i0, l);
    JoinedSuccessor(v, p, x, l, i0 + 1);
  }

  lemma JoinKeepsLinks(a: Arena, v: View, p: nat, x: nat)
    requires Placed(a, v) && Linked(a, v) && p < |v.chain| && x < |a| && x !in v.chain && v.tall[x] == 0
    ensures Placed(a, Joined(v, p, x)) && Linked(a, Joined(v, p, x))
  {
    hide LinkedAt;
    var v' := Joined(v, p, x);
    JoinKeepsPlaced(a, v, p, x);
    forall i, l | 0 <= i < |v'.chain| && 0 <= l < v'.tall[v'.chain[i]] ensures LinkedAt(a, v', i, l) {
      var i0 := if i <= p then i else i - 1;
      assert v'.chain[i] == v.chain[i0];
      JoinKeepsLink(a, v, p, x, i0, l);
    }
  }

  lemma RaisedSuccessor(v: View, k: nat, level: nat, l: nat, j: nat)
    requires InArena(v) && k < |v.chain| && j <= |v.chain|
    requires forall i, j :: 0 <= i < j < |v.chain| ==> v.chain[i] != v.chain[j]
    requires v.tall[v.chain[k]] == level && (l == level && j <= k ==> Successor(v, l, j) < k)
    ensures Successor(Raised(v, v.chain[k], level), l, j) == Successor(v, l, j)
  {
    var v' := Raised(v, v.chain[k], level);
    var s := Successor(v, l, j);
    SuccessorIsFirst(v, l, j);
    SuccessorIs(v', l, j, s);
  }

  lemma RaiseKeepsPlaced(a: Arena, v: View, i0: nat, k: nat, level: nat)
    requires Placed(a, v) && i0 < k < |v.chain| && v.tall[v.chain[k]] == level < |a[v.chain[k]].next| && level < v.tall[v.chain[i0]]
    ensures Placed(SetNext(a, v.chain[i0], level, v.chain[k]), Raised(v, v.chain[k], level))
  {
  }

  /** The node is published on one more level behind its predecessor there: only their two
    * links on that level lead elsewhere than before. */
  lemma SuccessorsAfterRaise(v: View, i0: nat, k: nat, level: nat, i: nat, l: nat)
    requires InArena(v) && (forall i, j :: 0 <= i < j < |v.chain| ==> v.chain[i] != v.chain[j])
    requires i0 < k < |v.chain| && i < |v.chain| && v.tall[v.chain[k]] == level < v.tall[v.chain[i0]] && Successor(v, level, i0 + 1) > k
    requires l < v.tall[v.chain[i]] || (i == k && l == level)
    ensures Successor(Raised(v, v.chain[k], level), l, i + 1)
      == if l == level && i == i0 then k else if l == level && i == k then Successor(v, level, i0 + 1) else Successor(v, l, i + 1)
  {
    hide Successor;
    var v' := Raised(v, v.chain[k], level);
    SuccessorIsFirst(v, level, i0 + 1);
    if l == level && i == i0 {
      SuccessorIs(v', l, i + 1, k);
    } else if l == level && i == k {
      SuccessorIs(v, l, k + 1, Successor(v, l, i0 + 1));
      RaisedSuccessor(v, k, level, l, k + 1);
    } else {
      SuccessorIsFirst(v, l, i + 1);
      RaisedSuccessor(v, k, level, l, i + 1);
    }
  }

  lemma RaiseKeepsLink(a: Arena, v: View, i0: nat, k: nat, level: nat, i: nat, l: nat)
    requires Placed(a, v) && Linked(a, v) && i0 < k < |v.chain|
    requires var x, prev := v.chain[k], v.chain[i0];
      && v.tall[x] == level < |a[x].next| && level < v.tall[prev] && Successor(v, level, i0 + 1) > k
      && a[x].next[level] == a[prev].next[level]
    requires i < |v.chain| && l < Raised(v, v.chain[k], level).tall[v.chain[i]]
    ensures Placed(SetNext(a, v.chain[i0], level, v.chain[k]), Raised(v, v.chain[k], level))
    ensures LinkedAt(SetNext(a, v.chain[i0], level, v.chain[k]), Raised(v, v.chain[k], level), i, l)
  {
    RaiseKeepsPlaced(a, v, i0, k, level);
    ChainIsSimple(a, v);
    RaisedIs(v, v.chain[k], level);
    HeightOf(a, v, i, l, k, level);
    hide *;
    LinkBefore(a, v, i0, k, level, i, l);
    SuccessorsAfterRaise(v, i0, k, level, i, l);
    SetNextReads(a, v.chain[i0], level, v.chain[k], v.chain[i], l);
    LinkedByValue(SetNext(a, v.chain[i0], level, v.chain[k]), v, Raised(v, v.chain[k], level), i, l,
      if l == level && i == i0 then k else if l == level && i == k then Successor(v, level, i0 + 1) else Successor(v, l, i + 1));
  }

  /** Where the links led before. */
  lemma LinkBefore(a: Arena, v: View, i0: nat, k: nat, level: nat, i: nat, l: nat)
    requires Placed(a, v) && Linked(a, v) && i0 < k < |v.chain| && i < |v.chain|
    requires var x, prev := v.chain[k], v.chain[i0];
      v.tall[x] == level < |a[x].next| && level < v.tall[prev] && a[x].next[level] == a[prev].next[level]
    requires l < v.tall[v.chain[i]] || (i == k && l == level)
    ensures l < |a[v.chain[i]].next| && level < |a[v.chain[i0]].next|
    ensures a[v.chain[i]].next[l] == NodeAt(v, if l == level && i == k then Successor(v, level, i0 + 1) else Successor(v, l, i + 1))
    ensures v.chain[i] == v.chain[i0] <==> i == i0
  {
    hide Successor;
    LinkHolds(a, v, i0, level);
    if !(i == k && l == level) {
      LinkHolds(a, v, i, l);
    }
  }

  lemma LinkedByValue(a: Arena, v: View, v': View, i: nat, l: nat, s: nat)
    requires Placed(a, v') && v'.chain == v.chain && i < |v.chain| && l < v'.tall[v.chain[i]]
    requires l < |a[v.chain[i]].next| && a[v.chain[i]].next[l] == NodeAt(v, s) && Successor(v', l, i + 1) == s
    ensures LinkedAt(a, v', i, l)
  {
  }

  lemma RaisedIs(v: View, x: nat, level: nat)
    requires InArena(v) && x < |v.tall|
    ensures Raised(v, x, level).chain == v.chain && InArena(Raised(v, x, level))
  {
  }

  lemma SetNextReads(a: Arena, x: nat, level: nat, next: int, y: nat, l: nat)
    requires x < |a| && level < |a[x].next| && y < |a| && l < |a[y].next|
    ensures |SetNext(a, x, level, next)| == |a| && |SetNext(a, x, level, next)[y].next| == |a[y].next|
    ensures SetNext(a, x, level, next)[y].next[l] == if x == y && l == level then next else a[y].next[l]
  {
  }

  lemma HeightOf(a: Arena, v: View, i: nat, l: nat, k: nat, level: nat)
    requires Placed(a, v) && i < |v.chain| && k < |v.chain| && level < |a[v.chain[k]].next|
    requires l < Raised(v, v.chain[k], level).tall[v.chain[i]]
    ensures l < |a[v.chain[i]].next| && (l < v.tall[v.chain[i]] || (i == k && l <= level))
  {
  }

  lemma LinkHolds(a: Arena, v: View, i: nat, level: nat)
    requires Placed(a, v) && Linked(a, v) && i < |v.chain| && level < v.tall[v.chain[i]]
    ensures level < |a[v.chain[i]].next| && LinkedAt(a, v, i, level)
  {
  }

  lemma ChainIsSimple(a: Arena, v: View)
    requires Placed(a, v)
    ensures InArena(v) && |a| == |v.tall| && forall i, j :: 0 <= i < j < |v.chain| ==> v.chain[i] != v.chain[j]
  {
  }

  /** The new node's link on `level` is set and its predecessor there points to it. */
  lemma RaiseKeepsSound(a: Arena, v: View, i0: nat, k: nat, level: nat)
    requires Sound(a, v) && i0 < k < |v.chain|
    requires var x, prev := v.chain[k], v.chain[i0];
      && v.tall[x] == level < |a[x].next| && level < v.tall[prev] && Successor(v, level, i0 + 1) > k
      && a[x].next[level] == a[prev].next[level]
    ensures Sound(SetNext(a, v.chain[i0], level, v.chain[k]), Raised(v, v.chain[k], level))
    ensures Run(SetNext(a, v.chain[i0], level, v.chain[k]), Raised(v, v.chain[k], level)) == Run(a, v)
  {
    hide Ordered, Run, Sorted, Linked;
    var x, prev := v.chain[k], v.chain[i0];
    var a', v' := SetNext(a, prev, level, x), Raised(v, x, level);
    RaiseKeepsPlaced(a, v, i0, k, level);
    SameOrder(a, a', v, v');
    assert Linked(a', v') by {
      hide *;
      LinkedByLinks(a, v, i0, k, level);
    }
  }

  lemma LinkedByLinks(a: Arena, v: View, i0: nat, k: nat, level: nat)
    requires Placed(a, v) && Linked(a, v) && i0 < k < |v.chain|
    requires var x, prev := v.chain[k], v.chain[i0];
      && v.tall[x] == level < |a[x].next| && level < v.tall[prev] && Successor(v, level, i0 + 1) > k
      && a[x].next[level] == a[prev].next[level]
    ensures Placed(SetNext(a, v.chain[i0], level, v.chain[k]), Raised(v, v.chain[k], level))
    ensures Linked(SetNext(a, v.chain[i0], level, v.chain[k]), Raised(v, v.chain[k], level))
  {
    var a', v' := SetNext(a, v.chain[i0], level, v.chain[k]), Raised(v, v.chain[k], level);
    RaiseKeepsPlaced(a, v, i0, k, level);
    forall i, l | 0 <= i < |v'.chain| && 0 <= l < v'.tall[v'.chain[i]] ensures LinkedAt(a', v', i, l) {
      RaiseKeepsLink(a, v, i0, k, level, i, l);
    }
  }

  /** Every node of the chain is on the lowest level. */
  ghost predicate Reachable(v: View)
    requires InArena(v)
  {
    forall i :: 0 <= i < |v.chain| ==> v.tall[v.chain[i]] > 0
  }

  ghost predicate Absent(a: Arena, v: View, key: InternalKey)
    requires Placed(a, v)
  {
    forall i :: 0 < i < |v.chain| ==> a[v.chain[i]].entry.key != key
  }

  ghost function Position(v: View, x: nat): (i: nat)
    requires x in v.chain
    ensures i < |v.chain| && v.chain[i] == x
  {
    var i: nat :| i < |v.chain| && v.chain[i] == x;
    i
  }

  /** The order once node `x` has been published on `level`, after `prev`. */
  ghost function Published(v: View, prev: nat, x: nat, level: nat): View
    requires prev in v.chain && x < |v.tall|
  {
    Raised(if level == 0 then Joined(v, Position(v, prev), x) else v, x, level)
  }

  /** On the lowest level the link leads to the next node of the chain. */
  lemma LowestLink(a: Arena, v: View, i: nat)
    requires Sound(a, v) && Reachable(v) && i < |v.chain|
    ensures a[v.chain[i]].next[0] == NodeAt(v, i + 1) && Successor(v, 0, i + 1) == i + 1
  {
    LinkHolds(a, v, i, 0);
    SuccessorIs(v, 0, i + 1, i + 1);
  }

  /** Where a new key goes on the lowest level. */
  lemma JoinsBetween(a: Arena, v: View, prev: nat, key: InternalKey)
    requires Sound(a, v) && Reachable(v) && Absent(a, v, key) && Precedes(a, v, prev, 0, key)
    ensures var p := Position(v, prev);
      NodeBefore(a, v.chain[p], key) && (p + 1 < |v.chain| ==> key.Before(a[v.chain[p + 1]].entry.key))
  {
    var p := Position(v, prev);
    LowestLink(a, v, p);
    if p + 1 < |v.chain| {
      KeysAreTotal(key, a[v.chain[p + 1]].entry.key);
    }
  }

  lemma JoinedRun(a: Arena, v: View, p: nat, x: nat)
    requires Placed(a, v) && p < |v.chain| && x < |a| && x !in v.chain
    ensures Placed(a, Joined(v, p, x))
    ensures Run(a, Joined(v, p, x)) == Run(a, v)[..p] + [a[x].entry] + Run(a, v)[p..]
  {
    JoinKeepsPlaced(a, v, p, x);
  }

  /** The lowest level is published first: the node joins the chain. */
  lemma PublishLowest(a: Arena, v: View, x: nat, prev: nat)
    requires Sound(a, v) && Reachable(v) && x < |a| && x !in v.chain && v.tall[x] == 0 < |a[x].next|
    requires Absent(a, v, a[x].entry.key) && Precedes(a, v, prev, 0, a[x].entry.key) && a[x].next[0] == a[prev].next[0]
    ensures var a', v' := SetNext(a, prev, 0, x), Published(v, prev, x, 0);
      && Sound(a', v') && Reachable(v')
      && Run(a', v') == Run(a, v)[..Position(v, prev)] + [a[x].entry] + Run(a, v)[Position(v, prev)..]
  {
    hide Ordered, Linked, Run, Sorted;
    var p := Position(v, prev);
    JoinsBetween(a, v, prev, a[x].entry.key);
    JoinKeepsOrder(a, v, p, x);
    JoinKeepsLinks(a, v, p, x);
    JoinedRun(a, v, p, x);
    LowestLink(a, v, p);
    JoinedSuccessor(v, p, x, 0, p + 1);
    RaiseKeepsSound(a, Joined(v, p, x), p, p + 1, 0);
  }

  /** A predecessor at a level lies before the node, and its link leads past it. */
  lemma PrecedesIs(a: Arena, v: View, x: nat, prev: nat, level: nat) returns (i0: nat, k: nat)
    requires Sound(a, v) && x in v.chain && x != HEAD && v.tall[x] == level
    requires Precedes(a, v, prev, level, a[x].entry.key)
    ensures i0 < k < |v.chain| && v.chain[i0] == prev && v.chain[k] == x
    ensures Successor(v, level, i0 + 1) > k
  {
    i0, k := Position(v, prev), Position(v, x);
    KeysAreTotal(a[prev].entry.key, a[x].entry.key);
    LinkHolds(a, v, i0, level);
    SuccessorIsFirst(v, level, i0 + 1);
  }

  lemma PublishHigher(a: Arena, v: View, x: nat, prev: nat, level: nat)
    requires Sound(a, v) && Reachable(v) && x in v.chain && x != HEAD && 0 < v.tall[x] == level < |a[x].next|
    requires Precedes(a, v, prev, level, a[x].entry.key) && a[x].next[level] == a[prev].next[level]
    ensures var a', v' := SetNext(a, prev, level, x), Published(v, prev, x, level);
      Sound(a', v') && Reachable(v') && Run(a', v') == Run(a, v)
  {
    hide Ordered, Linked, Run, Sorted;
    var i0, k := PrecedesIs(a, v, x, prev, level);
    RaiseKeepsSound(a, v, i0, k, level);
  }

  lemma SoundInArena(a: Arena, v: View)
    requires Sound(a, v)
    ensures InArena(v) && |a| == |v.tall| && v.chain != [] && v.chain[0] == HEAD && v.tall[HEAD] == MAX_HEIGHT
  {
  }

  /** Publishing on one level leaves the predecessors found for the higher ones. */
  lemma PublishKeepsPrecedes(a: Arena, v: View, x: nat, prev: nat, level: nat, p: nat, l: nat, key: InternalKey)
    requires Placed(a, v) && prev in v.chain && x < |a| && v.tall[x] == level < |a[x].next| && level < |a[prev].next|
    requires Placed(SetNext(a, prev, level, x), Published(v, prev, x, level))
    requires level < l && Precedes(a, v, p, l, key)
    ensures Precedes(SetNext(a, prev, level, x), Published(v, prev, x, level), p, l, key)
  {
    hide Ordered, Linked;
    ChainGrows(v, prev, x, level, p);
    SetNextReads(a, prev, level, x, p, l);
  }

  lemma ChainGrows(v: View, prev: nat, x: nat, level: nat, y: nat)
    requires InArena(v) && prev in v.chain && x < |v.tall| && v.tall[x] <= level
    ensures y in v.chain ==> y in Published(v, prev, x, level).chain && v.tall[y] <= Published(v, prev, x, level).tall[y]
    ensures y in Published(v, prev, x, level).chain ==> y in v.chain || y == x
    ensures level == 0 ==> x in Published(v, prev, x, level).chain
  {
  }

  function NewNode(e: Entry, height: nat): Node {
    Node(e, seq(height, _ => NULL))
  }

  /** A node nobody can reach yet. */
  lemma NewNodeKeepsSound(a: Arena, v: View, n: Node)
    requires Sound(a, v) && Reachable(v) && |n.next| <= MAX_HEIGHT
    ensures var a', v' := a + [n], v.(tall := v.tall + [0]);
      Sound(a', v') && Reachable(v') && Run(a', v') == Run(a, v)
  {
    hide Ordered, Run, Sorted;
    var a', v' := a + [n], v.(tall := v.tall + [0]);
    SameOrder(a, a', v, v');
    forall i, l | 0 <= i < |v.chain| && 0 <= l < v'.tall[v.chain[i]] ensures LinkedAt(a', v', i, l) {
      LinkHolds(a, v, i, l);
      var s := Successor(v, l, i + 1);
      SuccessorIsFirst(v, l, i + 1);
      SuccessorIs(v', l, i + 1, s);
    }
  }

  // ---------------------------------------------------------------- a reader's steps

  /** A search under way: the node and the level it has reached, then the node it found. */
  datatype Reader = Reader(target: InternalKey, at: nat, level: nat, result: Option<int>)

  predicate Loadable(a: Arena, r: Reader) {
    r.at < |a| && r.level < |a[r.at].next| && a[r.at].next[r.level] < |a|
  }

  /** One round of the search loop: one load of a link. */
  function Load(a: Arena, r: Reader): Reader
    requires Loadable(a, r)
  {
    var next := a[r.at].next[r.level];
    if next >= 0 && a[next].entry.key.Before(r.target) then r.(at := next)
    else if r.level == 0 then r.(result := Some(next))
    else r.(level := r.level - 1)
  }

  /** The node reached is published on the level, and lies before the target. */
  ghost predicate Searching(a: Arena, v: View, r: Reader)
    requires Placed(a, v)
  {
    r.at in v.chain && r.level < v.tall[r.at] && NodeBefore(a, r.at, r.target)
  }

  lemma CanLoad(a: Arena, v: View, r: Reader)
    requires Sound(a, v) && Searching(a, v, r)
    ensures Loadable(a, r)
  {
    var i, k := LinkLeadsOn(a, v, r.at, r.level);
  }

  lemma LoadKeepsSearching(a: Arena, v: View, r: Reader)
    requires Sound(a, v) && Searching(a, v, r)
    ensures Loadable(a, r) && Searching(a, v, Load(a, r))
  {
    CanLoad(a, v, r);
    var i, k := LinkLeadsOn(a, v, r.at, r.level);
  }

  /** The node a search must find: the first one at or after the target. */
  ghost function FirstAtOrAfter(a: Arena, v: View, target: InternalKey): int
    requires Placed(a, v)
  {
    NodeAt(v, 1 + SeekIndex(Run(a, v), target))
  }

  lemma RunBefore(a: Arena, v: View, i: nat, target: InternalKey)
    requires Sound(a, v) && i < |v.chain| && NodeBefore(a, v.chain[i], target)
    requires i + 1 < |v.chain| ==> !a[v.chain[i + 1]].entry.key.Before(target)
    ensures SeekIndex(Run(a, v), target) == i
  {
    RunIsSorted(a, v);
    forall k | 0 <= k < i ensures Run(a, v)[k].key.Before(target) {
      BeforeChain(a, v, k + 1, i, target);
      assert v.chain[k + 1] != v.chain[0];
    }
    SeekIndexIs(Run(a, v), target, i);
  }

  /** A search ends at the first node at or after its target among those present at its last
    * load, whatever was published while it ran. */
  lemma LastLoadFindsFirst(a: Arena, v: View, r: Reader)
    requires Sound(a, v) && Reachable(v) && Searching(a, v, r) && r.result.None?
    ensures Loadable(a, r)
    ensures Load(a, r).result.Some? ==> Load(a, r).result.value == FirstAtOrAfter(a, v, r.target)
  {
    CanLoad(a, v, r);
    if Load(a, r).result.Some? {
      var i := Position(v, r.at);
      LowestLink(a, v, i);
      RunBefore(a, v, i, r.target);
    }
  }

  /** How many loads a search can still make when nothing is published meanwhile. */
  ghost function Remaining(v: View, r: Reader): nat {
    if r.result.None? && r.at in v.chain then |v.chain| - Position(v, r.at) + r.level else 0
  }

  lemma LoadDescends(a: Arena, v: View, r: Reader)
    requires Sound(a, v) && Searching(a, v, r) && r.result.None?
    ensures Loadable(a, r) && Remaining(v, Load(a, r)) < Remaining(v, r)
  {
    CanLoad(a, v, r);
    var i, k := LinkLeadsOn(a, v, r.at, r.level);
    OnePlace(a, v, i);
    if k < |v.chain| {
      OnePlace(a, v, k);
    }
  }

  lemma OnePlace(a: Arena, v: View, i: nat)
    requires Placed(a, v) && i < |v.chain|
    ensures Position(v, v.chain[i]) == i
  {
  }
}
