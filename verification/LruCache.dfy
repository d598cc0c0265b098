/** One shard of the LRU cache: reference counts, the list of entries clients use, the list of
  * those they do not, and the table. */
module LruCache {
  import opened ByteNumbers
  import opened Keys
  import opened HandleTable

  /** A cache entry. Handles name each other, and are named by clients, by number. */
  datatype Handle = Handle(key: Bytes, hash: nat, value: nat, charge: nat, inCache: bool, refs: nat)

  function SlotOf(id: nat, h: Handle): Slot {
    Slot(id, h.key, h.hash)
  }

  function Without(list: seq<nat>, id: nat): seq<nat> {
    if list == [] then [] else if list[0] == id then Without(list[1..], id) else [list[0]] + Without(list[1..], id)
  }

  ghost predicate Distinct(list: seq<nat>) {
    forall i, j :: 0 <= i < j < |list| ==> list[i] != list[j]
  }

  lemma {:induction false} WithoutIs(list: seq<nat>, id: nat)
    ensures forall x :: x in Without(list, id) <==> x in list && x != id
    ensures Distinct(list) ==> Distinct(Without(list, id))
  {
    if list != [] {
      WithoutIs(list[1..], id);
      if Distinct(list) {
        assert Distinct(list[1..]) by {
          forall i, j | 0 <= i < j < |list[1..]| ensures list[1..][i] != list[1..][j] {
            assert list[i + 1] != list[j + 1];
          }
        }
        if list[0] != id {
          var r := Without(list[1..], id);
          forall j | 0 <= j < |r| ensures r[j] != list[0] {
            assert r[j] in r;
            var k :| 0 <= k < |list[1..]| && list[1..][k] == r[j];
            assert list[0] != list[k + 1];
          }
        }
      }
    }
  }

  /** The charges of the handles on a list. */
  function Total(handles: map<nat, Handle>, list: seq<nat>): nat {
    if list == [] then 0 else (if list[0] in handles then handles[list[0]].charge else 0) + Total(handles, list[1..])
  }

  lemma {:induction false} TotalAppend(handles: map<nat, Handle>, list: seq<nat>, id: nat)
    requires id in handles
    ensures Total(handles, list + [id]) == Total(handles, list) + handles[id].charge
  {
    if list == [] {
      assert [] + [id] == [id] && [id][1..] == [];
    } else {
      TotalAppend(handles, list[1..], id);
      assert (list + [id])[1..] == list[1..] + [id];
    }
  }

  lemma {:induction false} TotalWithout(handles: map<nat, Handle>, list: seq<nat>, id: nat)
    requires id in handles && Distinct(list)
    ensures Total(handles, Without(list, id)) + (if id in list then handles[id].charge else 0) == Total(handles, list)
  {
    if list != [] {
      assert Distinct(list[1..]) by {
        forall i, j | 0 <= i < j < |list[1..]| ensures list[1..][i] != list[1..][j] {
          assert list[i + 1] != list[j + 1];
        }
      }
      TotalWithout(handles, list[1..], id);
      if list[0] == id {
        forall k | 0 <= k < |list[1..]| ensures list[1..][k] != id {
          assert list[k + 1] != list[0];
        }
      } else {
        var r := [list[0]] + Without(list[1..], id);
        assert r[1..] == Without(list[1..], id);
      }
    }
  }

  lemma {:induction false} TotalSame(handles: map<nat, Handle>, handles': map<nat, Handle>, list: seq<nat>)
    requires forall id :: id in list ==> (id in handles <==> id in handles')
    requires forall id :: id in list && id in handles ==> handles[id].charge == handles'[id].charge
    ensures Total(handles, list) == Total(handles', list)
  {
    if list != [] {
      assert list[0] in list && forall x :: x in list[1..] ==> x in list;
      TotalSame(handles, handles', list[1..]);
    }
  }

  // ---------------------------------------------------------------- the invariant, on values

  /** A handle in the cache is on exactly one list: the unused ones if only the cache holds it. */
  ghost predicate Listed(handles: map<nat, Handle>, lru: seq<nat>, inUse: seq<nat>) {
    && Distinct(lru) && Distinct(inUse)
    && (forall id :: id in handles ==> handles[id].refs > 0)
    && (forall id :: id in lru <==> id in handles && handles[id].inCache && handles[id].refs == 1)
    && (forall id :: id in inUse <==> id in handles && handles[id].inCache && handles[id].refs >= 2)
  }

  /** The unused handles, the one given back longest ago first. */
  ghost predicate InOrder(lru: seq<nat>, lastUsed: map<nat, nat>, clock: nat) {
    && (forall i :: 0 <= i < |lru| ==> lru[i] in lastUsed && lastUsed[lru[i]] < clock)
    && (forall i, j :: 0 <= i < j < |lru| ==> lastUsed[lru[i]] < lastUsed[lru[j]])
  }

  /** Every number handed out belongs to a live handle or to one freed, once. */
  ghost predicate Accounted(handles: map<nat, Handle>, freed: seq<nat>, nextId: nat) {
    && Distinct(freed)
    && (forall id :: id in handles || id in freed <==> 0 <= id < nextId)
    && (forall id :: id in freed ==> id !in handles)
  }

  /** The table holds the handles in the cache, save one that is just leaving. */
  ghost predicate Tabled(slots: set<Slot>, handles: map<nat, Handle>, leaving: set<nat>) {
    && (forall s :: s in slots ==> s.id in handles && s.id !in leaving && handles[s.id].inCache && s == SlotOf(s.id, handles[s.id]))
    && (forall id :: id in handles && handles[id].inCache && id !in leaving ==> SlotOf(id, handles[id]) in slots)
  }

  class LRUCache {
    const capacity: nat
    const hashOf: Bytes -> nat
    const table: HandleTable
    var usage: nat
    var handles: map<nat, Handle>
    var lru: seq<nat>
    var inUse: seq<nat>
    var nextId: nat
    var freed: seq<nat>
    /** When the last client of a handle gave it back. */
    ghost var lastUsed: map<nat, nat>
    ghost var clock: nat

    /** Lists, charges and numbers; the table may be out of step. */
    ghost predicate ListsOk()
      reads this
    {
      && Listed(handles, lru, inUse)
      && Accounted(handles, freed, nextId)
      && usage == Total(handles, lru) + Total(handles, inUse)
      && InOrder(lru, lastUsed, clock)
    }

    ghost predicate TableOk(leaving: set<nat>)
      reads this, table
    {
      && table.Ok() && table.hashOf == hashOf
      && Tabled(table.Slots(), handles, leaving)
      && (forall id :: id in handles ==> handles[id].hash == hashOf(handles[id].key))
    }

    ghost predicate Ok()
      reads this, table
    {
      ListsOk() && TableOk({})
    }

    constructor (capacity: nat, hashOf: Bytes -> nat)
      ensures Ok() && handles == map[] && usage == 0 && this.capacity == capacity && this.hashOf == hashOf && fresh(table)
    {
      this.capacity, this.hashOf := capacity, hashOf;
      table := new HandleTable(hashOf);
      usage, handles, lru, inUse, nextId, freed := 0, map[], [], [], 0, [];
      lastUsed, clock := map[], 0;
    }

    /** One more reference; a handle nobody used moves to the list of those in use. */
    method Ref(id: nat)
      requires ListsOk() && id in handles
      modifies this`handles, this`lru, this`inUse
      ensures ListsOk() && handles == old(handles)[id := old(handles[id]).(refs := old(handles[id]).refs + 1)]
      ensures lru == Without(old(lru), id)
    {
      hide Listed, Accounted, Total, Without, InOrder;
      var h := handles[id];
      LeavingKeepsOrder(lru, lastUsed, clock, id);
      OnlyUnusedLeave(handles, lru, inUse, id);
      AccountedSame(handles, handles[id := h.(refs := h.refs + 1)], freed, nextId);
      RefKeepsLists(handles, lru, inUse, id);
      if h.refs == 1 && h.inCache {
        lru := Without(lru, id);
        inUse := inUse + [id];
      }
      handles := handles[id := h.(refs := h.refs + 1)];
    }

    /** One reference less; the last one frees the handle, and a handle only the cache still
      * holds becomes the newest of the unused. */
    method Unref(id: nat)
      requires ListsOk() && id in handles && (handles[id].refs == 1 ==> !handles[id].inCache)
      modifies this`handles, this`lru, this`inUse, this`freed, this`lastUsed, this`clock
      ensures ListsOk()
      ensures if old(handles[id]).refs == 1 then handles == old(handles) - {id} && freed == old(freed) + [id]
              else handles == old(handles)[id := old(handles[id]).(refs := old(handles[id]).refs - 1)] && freed == old(freed)
      ensures if old(handles[id]).inCache && old(handles[id]).refs == 2
              then lru == old(lru) + [id] && lastUsed == old(lastUsed)[id := old(clock)]
              else lru == old(lru) && lastUsed == old(lastUsed)
    {
      hide Listed, Accounted, Total, Without, InOrder;
      var h := handles[id];
      NewestGoesLast(handles, lru, inUse, lastUsed, clock, id);
      RefsArePositive(handles, lru, inUse, id);
      UnrefKeepsLists(handles, lru, inUse, id);
      UnrefAccounts(handles, freed, nextId, id);
      if h.refs == 1 {
        // the deleter runs
        freed := freed + [id];
        handles := handles - {id};
        return;
      }
      handles := handles[id := h.(refs := h.refs - 1)];
      if h.inCache && h.refs == 2 {
        inUse := Without(inUse, id);
        lru := lru + [id];
        lastUsed := lastUsed[id := clock];
        clock := clock + 1;
      }
    }

    /** Takes a handle that has left the table out of the cache. */
    method FinishErase(id: nat)
      requires ListsOk() && TableOk({id}) && id in handles && handles[id].inCache
      modifies this`usage, this`handles, this`lru, this`inUse, this`freed, this`lastUsed, this`clock
      ensures Ok() && usage == old(usage) - old(handles[id].charge)
      ensures lru == Without(old(lru), id) && lastUsed == old(lastUsed)
      ensures handles == Uncached(old(handles), id) && ClientsKeep(old(handles), handles)
    {
      hide Listed, Accounted, Tabled, Total, Without, HandleTable.Ok, ClientsKeep, InOrder, Uncached;
      var h := handles[id];
      ghost var before := handles;
      RefsArePositive(handles, lru, inUse, id);
      OneLess(handles, id);
      LeaveKeepsLists(handles, lru, inUse, id);
      LeavingKeepsOrder(lru, lastUsed, clock, id);
      AccountedSame(handles, handles[id := h.(inCache := false)], freed, nextId);
      lru, inUse := Without(lru, id), Without(inUse, id);
      handles := handles[id := h.(inCache := false)];
      usage := usage - h.charge;
      Unref(id);
      OutOfTable(table.Slots(), before, {id}, handles, id);
    }

    /** A new handle, referenced by the client; in the cache too if there is room for any. What
      * is displaced or no longer fits goes, the least recently used first. */
    method Insert(key: Bytes, hash: nat, value: nat, charge: nat) returns (id: nat, ghost displaced: set<nat>, ghost evicted: nat)
      requires Ok() && hash == hashOf(key)
      modifies this, table
      ensures Ok() && (usage <= capacity || lru == [])
      ensures id == old(nextId) && id in handles && ClientRefs(handles[id]) == 1
      ensures handles[id].key == key && handles[id].value == value && handles[id].charge == charge && handles[id].inCache == (capacity > 0)
      ensures ClientsKeep(old(handles), handles)
      ensures displaced == if capacity > 0 then CachedAs(old(handles), key) else {}
      ensures evicted <= |Remaining(old(lru), displaced)| && lru == Remaining(old(lru), displaced)[evicted..]
      ensures lastUsed == old(lastUsed) && EvictedAreOlder(Remaining(old(lru), displaced), evicted, lastUsed)
      ensures StayAsTheyAre(old(handles), handles, displaced, Remaining(old(lru), displaced)[..evicted])
      ensures evicted > 0 ==> LastWasNeeded(old(handles), Remaining(old(lru), displaced), evicted, usage, capacity)
    {
      hide Listed, Accounted, Tabled, Total, Without, Remaining, HandleTable.Ok, InOrder, CachedAs, EvictedAreOlder;
      id, displaced := Enter(key, hash, value, charge);
      ghost var entered := handles;
      evicted := EvictUntilItFits();
      if evicted > 0 {
        NeededBefore(old(handles), old(lru), old(inUse), entered, displaced, evicted);
      }
    }

    /** The new handle takes its place. */
    method Enter(key: Bytes, hash: nat, value: nat, charge: nat) returns (id: nat, ghost displaced: set<nat>)
      requires Ok() && hash == hashOf(key)
      modifies this, table
      ensures Ok() && ClientsKeep(old(handles), handles) && id == old(nextId) && id in handles
      ensures handles[id] == Handle(key, hash, value, charge, capacity > 0, if capacity > 0 then 2 else 1)
      ensures displaced == if capacity > 0 then CachedAs(old(handles), key) else {}
      ensures lru == Remaining(old(lru), displaced) && lastUsed == old(lastUsed)
      ensures StayAsTheyAre(old(handles), handles, displaced, [])
    {
      hide Listed, Accounted, Tabled, Total, Without, HandleTable.Ok, InOrder, ClientsKeep, StayAsTheyAre, Remaining, CachedAs;
      ghost var before := handles;
      id := nextId;
      var h := Handle(key, hash, value, charge, capacity > 0, if capacity > 0 then 2 else 1);
      NewHandle(handles, lru, inUse, freed, id, h);
      nextId := nextId + 1;
      handles := handles[id := h];
      displaced := {};
      RemainingOne(lru, 0);
      if capacity > 0 {
        inUse := inUse + [id];
        usage := usage + charge;
        NotTabled(table.Slots(), before, id, h, {id});
        displaced := CacheHandle(id);
        CachedBefore(before, id, h);
        OthersStay(before, id, h, handles, displaced);
      } else {
        NotTabled(table.Slots(), before, id, h, {});
        OthersStay(before, id, h, handles, {});
      }
    }

    /** Enters a handle into the table; what was cached under its key leaves. */
    method CacheHandle(id: nat) returns (ghost displaced: set<nat>)
      requires ListsOk() && TableOk({id}) && id in handles && handles[id].inCache && handles[id].refs >= 2
      modifies this`usage, this`handles, this`lru, this`inUse, this`freed, this`lastUsed, this`clock, table
      ensures Ok() && ClientsKeep(old(handles), handles)
      ensures id in handles && handles[id] == old(handles[id])
      ensures displaced == CachedAs(old(handles), old(handles[id]).key) - {id}
      ensures lru == Remaining(old(lru), displaced) && lastUsed == old(lastUsed)
      ensures StayAsTheyAre(old(handles), handles, displaced, [])
    {
      hide Listed, Accounted, Tabled, Total, Without, HandleTable.Ok, InOrder;
      ghost var slots := table.Slots();
      var h := handles[id];
      var former := table.Insert(Slot(id, h.key, h.hash));
      Displaces(slots, handles, id, former);
      displaced := {};
      RemainingOne(lru, 0);
      if former.Some? {
        displaced := {former.value.id};
        RemainingOne(lru, former.value.id);
        FinishErase(former.value.id);
      }
    }

    method EvictUntilItFits() returns (ghost evicted: nat)
      requires Ok()
      modifies this, table
      ensures Ok() && (usage <= capacity || lru == []) && HeldStay(old(handles), handles)
      ensures evicted <= |old(lru)| && lru == old(lru)[evicted..]
      ensures lastUsed == old(lastUsed) && EvictedAreOlder(old(lru), evicted, lastUsed)
      ensures evicted > 0 ==> LastWasNeeded(old(handles), old(lru), evicted, usage, capacity)
      ensures StayAsTheyAre(old(handles), handles, {}, old(lru)[..evicted])
    {
      hide Listed, Accounted, Tabled, Total, Without, HandleTable.Ok, InOrder, HeldStay, StayAsTheyAre, EvictedAreOlder;
      ghost var was, list := handles, lru;
      evicted := 0;
      NothingEvicted(was, list);
      OlderGoFirst(list, lastUsed, clock);
      while usage > capacity && lru != []
        modifies this, table
        invariant Ok() && HeldStay(was, handles)
        invariant evicted <= |list| && lru == list[evicted..] && lastUsed == old(lastUsed)
        invariant StayAsTheyAre(was, handles, {}, list[..evicted])
        invariant evicted > 0 ==> LastWasNeeded(was, list, evicted, usage, capacity)
        decreases |lru|
      {
        ghost var now := handles;
        EvictOldest();
        OneMoreEvicted(was, now, handles, list, old(inUse), evicted);
        evicted := evicted + 1;
      }
    }

    /** The handle cached under the key, with one more reference. */
    method Lookup(key: Bytes, hash: nat) returns (found: Option<nat>)
      requires Ok() && hash == hashOf(key)
      modifies this
      ensures Ok()
      ensures found.Some? ==> found.value in CachedAs(old(handles), key)
      ensures found.Some? ==> handles == old(handles)[found.value := old(handles[found.value]).(refs := old(handles[found.value]).refs + 1)]
      ensures found.None? ==> CachedAs(old(handles), key) == {} && handles == old(handles)
      ensures lru == (if found.Some? then Without(old(lru), found.value) else old(lru))
      ensures lastUsed == old(lastUsed) && usage == old(usage)
    {
      hide Listed, Accounted, Tabled, InOrder;
      var slot := table.Lookup(key, hash);
      LookedUp(table.Slots(), handles, key, slot);
      found := None;
      if slot.Some? {
        found := Some(slot.value.id);
        RefsTabled(table.Slots(), handles, slot.value.id, handles[slot.value.id].refs + 1);
        Ref(slot.value.id);
      }
    }

    /** A client gives a reference back. */
    method Release(id: nat)
      requires Ok() && id in handles && ClientRefs(handles[id]) > 0
      modifies this
      ensures Ok()
      ensures if old(handles[id]).refs == 1 then handles == old(handles) - {id} && freed == old(freed) + [id]
              else handles == old(handles)[id := old(handles[id]).(refs := old(handles[id]).refs - 1)] && freed == old(freed)
      ensures if old(handles[id]).inCache && old(handles[id]).refs == 2
              then lru == old(lru) + [id] && lastUsed == old(lastUsed)[id := old(clock)]
              else lru == old(lru) && lastUsed == old(lastUsed)
      ensures usage == old(usage)
    {
      hide Listed, Accounted, Tabled, InOrder;
      ghost var before := handles;
      RefsArePositive(handles, lru, inUse, id);
      Unref(id);
      if before[id].refs == 1 {
        OutOfTable(table.Slots(), before, {}, handles, id);
      } else {
        RefsTabled(table.Slots(), before, id, before[id].refs - 1);
      }
    }

    /** What is cached under a key leaves the cache; everything else stays as and where it is. */
    method Erase(key: Bytes, hash: nat)
      requires Ok() && hash == hashOf(key)
      modifies this, table
      ensures Ok() && CachedAs(handles, key) == {} && ClientsKeep(old(handles), handles)
      ensures lru == Remaining(old(lru), CachedAs(old(handles), key)) && lastUsed == old(lastUsed)
      ensures forall x :: x in old(handles) && x !in CachedAs(old(handles), key) ==> x in handles && handles[x] == old(handles)[x]
      ensures forall k :: k != key ==> CachedAs(handles, k) == CachedAs(old(handles), k)
    {
      hide Listed, Accounted, Tabled, Total, Without, HandleTable.Ok, InOrder;
      ghost var slots := table.Slots();
      RemainingOne(lru, 0);
      var slot := table.Remove(key, hash);
      RemovedFrom(slots, handles, key, slot);
      if slot.Some? {
        RemainingOne(lru, slot.value.id);
        RefsArePositive(handles, lru, inUse, slot.value.id);
        OneKeyLeaves(handles, slot.value.id, key);
        FinishErase(slot.value.id);
      }
    }

    /** Drops everything no client uses. */
    method Prune()
      requires Ok()
      modifies this, table
      ensures Ok() && lru == [] && HeldStay(old(handles), handles)
    {
      while lru != []
        modifies this, table
        invariant Ok() && HeldStay(old(handles), handles)
        decreases |lru|
      {
        EvictOldest();
      }
    }

    /** Removes the least recently used entry that no client uses. */
    method EvictOldest()
      requires Ok() && lru != []
      modifies this, table
      ensures Ok() && lru == old(lru)[1..] && lastUsed == old(lastUsed)
      ensures handles == old(handles) - {old(lru)[0]} && HeldStay(old(handles), handles)
      ensures old(lru)[0] in old(handles) && usage == old(usage) - old(handles)[old(lru)[0]].charge
    {
      var id := lru[0];
      assert id in lru;
      var h := handles[id];
      ghost var slots := table.Slots();
      var slot := table.Remove(h.key, h.hash);
      RemovedFrom(slots, handles, h.key, slot);
      assert id in CachedAs(handles, h.key);
      FinishErase(id);
      WithoutFirst(old(lru));
    }
  }

  /** Taking a handle out of the cache: it is gone unless clients hold it. */
  function Uncached(handles: map<nat, Handle>, id: nat): map<nat, Handle>
    requires id in handles && handles[id].refs > 0
  {
    var h := handles[id];
    if h.refs == 1 then handles - {id} else handles[id := h.(inCache := false, refs := h.refs - 1)]
  }

  lemma OneKeyLeaves(handles: map<nat, Handle>, id: nat, key: Bytes)
    requires id in handles && handles[id].refs > 0 && CachedAs(handles, key) == {id}
    ensures CachedAs(Uncached(handles, id), key) == {}
    ensures forall k :: k != key ==> CachedAs(Uncached(handles, id), k) == CachedAs(handles, k)
  {
    assert id in CachedAs(handles, key);
    forall x | x in handles && handles[x].inCache && handles[x].key == key ensures x == id {
      assert x in CachedAs(handles, key);
    }
  }

  /** Handles neither displaced nor evicted are not touched. */
  ghost predicate StayAsTheyAre(before: map<nat, Handle>, after: map<nat, Handle>, displaced: set<nat>, evicted: seq<nat>) {
    forall x :: x in before && x !in displaced && x !in evicted ==> x in after && after[x] == before[x]
  }

  /** Without the last eviction the cache would still be too full. */
  ghost predicate LastWasNeeded(handles: map<nat, Handle>, lru: seq<nat>, n: nat, usage: nat, capacity: nat)
    requires 0 < n <= |lru|
  {
    lru[n - 1] in handles && usage + handles[lru[n - 1]].charge > capacity
  }

  lemma {:induction false} RemainingHas(list: seq<nat>, gone: set<nat>)
    ensures forall x :: x in Remaining(list, gone) <==> x in list && x !in gone
  {
    if list != [] {
      RemainingHas(list[1..], gone);
    }
  }

  lemma NeededBefore(before: map<nat, Handle>, lru: seq<nat>, inUse: seq<nat>, after: map<nat, Handle>, displaced: set<nat>, n: nat)
    requires Listed(before, lru, inUse) && StayAsTheyAre(before, after, displaced, [])
    requires 0 < n <= |Remaining(lru, displaced)|
    ensures var x := Remaining(lru, displaced)[n - 1]; x in before && x in after && after[x] == before[x]
  {
    RemainingHas(lru, displaced);
    assert Remaining(lru, displaced)[n - 1] in Remaining(lru, displaced);
  }

  lemma NothingEvicted(handles: map<nat, Handle>, list: seq<nat>)
    ensures HeldStay(handles, handles) && StayAsTheyAre(handles, handles, {}, list[..0])
  {
  }

  lemma OlderGoFirst(lru: seq<nat>, lastUsed: map<nat, nat>, clock: nat)
    requires InOrder(lru, lastUsed, clock)
    ensures forall n: nat :: n <= |lru| ==> EvictedAreOlder(lru, n, lastUsed)
  {
  }

  /** The next one of the list goes; until then it was as at the start. */
  lemma OneMoreEvicted(was: map<nat, Handle>, now: map<nat, Handle>, next: map<nat, Handle>, list: seq<nat>, inUse: seq<nat>, n: nat)
    requires Listed(was, list, inUse) && n < |list| && StayAsTheyAre(was, now, {}, list[..n])
    requires next == now - {list[n]} && HeldStay(was, now) && HeldStay(now, next)
    ensures HeldStay(was, next) && StayAsTheyAre(was, next, {}, list[..n + 1])
    ensures list[n] in was && list[n] in now && now[list[n]] == was[list[n]]
  {
    assert list[n] in list && list[n] !in list[..n];
    assert list[..n + 1] == list[..n] + [list[n]];
  }

  /** The first `n` unused handles were given back before all others. */
  ghost predicate EvictedAreOlder(lru: seq<nat>, n: nat, lastUsed: map<nat, nat>)
    requires n <= |lru|
  {
    forall i, j :: 0 <= i < n <= j < |lru| ==> lru[i] in lastUsed && lru[j] in lastUsed && lastUsed[lru[i]] < lastUsed[lru[j]]
  }

  lemma {:induction false} LeavingKeepsOrder(lru: seq<nat>, lastUsed: map<nat, nat>, clock: nat, id: nat)
    requires InOrder(lru, lastUsed, clock)
    ensures InOrder(Without(lru, id), lastUsed, clock)
  {
    if lru != [] {
      forall i, j | 0 <= i < j < |lru[1..]| ensures lastUsed[lru[1..][i]] < lastUsed[lru[1..][j]] {
        assert lastUsed[lru[i + 1]] < lastUsed[lru[j + 1]];
      }
      LeavingKeepsOrder(lru[1..], lastUsed, clock, id);
      WithoutIs(lru[1..], id);
      var r := Without(lru[1..], id);
      forall j | 0 <= j < |r| ensures lastUsed[lru[0]] < lastUsed[r[j]] {
        assert r[j] in r;
        var k :| 0 <= k < |lru[1..]| && lru[1..][k] == r[j];
        assert lru[k + 1] == r[j];
      }
    }
  }

  lemma OnlyUnusedLeave(handles: map<nat, Handle>, lru: seq<nat>, inUse: seq<nat>, id: nat)
    requires Listed(handles, lru, inUse) && id in handles
    ensures !(handles[id].refs == 1 && handles[id].inCache) ==> Without(lru, id) == lru
  {
    if !(handles[id].refs == 1 && handles[id].inCache) {
      forall k | 0 <= k < |lru| ensures lru[k] != id {
        assert lru[k] in lru;
      }
      WithoutOther(lru, id);
    }
  }

  lemma NewestGoesLast(handles: map<nat, Handle>, lru: seq<nat>, inUse: seq<nat>, lastUsed: map<nat, nat>, clock: nat, id: nat)
    requires Listed(handles, lru, inUse) && InOrder(lru, lastUsed, clock) && id in handles
    ensures handles[id].refs == 2 ==> InOrder(lru + [id], lastUsed[id := clock], clock + 1)
  {
    if handles[id].refs == 2 {
      forall k | 0 <= k < |lru| ensures lru[k] != id {
        assert lru[k] in lru;
      }
    }
  }

  /** Handles cached under a key. */
  ghost function CachedAs(handles: map<nat, Handle>, key: Bytes): set<nat> {
    set id | id in handles && handles[id].inCache && handles[id].key == key
  }

  function Remaining(list: seq<nat>, gone: set<nat>): seq<nat> {
    if list == [] then [] else (if list[0] in gone then [] else [list[0]]) + Remaining(list[1..], gone)
  }

  /** What a client holds stays, with its references. */
  ghost predicate ClientsKeep(before: map<nat, Handle>, after: map<nat, Handle>) {
    forall id :: id in before && ClientRefs(before[id]) > 0
      ==> id in after && ClientRefs(after[id]) == ClientRefs(before[id]) && after[id].key == before[id].key && after[id].value == before[id].value
  }

  /** Handles that clients hold are not touched at all. */
  ghost predicate HeldStay(before: map<nat, Handle>, after: map<nat, Handle>) {
    forall id :: id in before && ClientRefs(before[id]) > 0 ==> id in after && after[id] == before[id]
  }

  function ClientRefs(h: Handle): int {
    h.refs - (if h.inCache then 1 else 0)
  }

  lemma {:induction false} RemainingOne(list: seq<nat>, id: nat)
    ensures Remaining(list, {id}) == Without(list, id) && Remaining(list, {}) == list
  {
    if list != [] {
      RemainingOne(list[1..], id);
    }
  }

  lemma NewHandle(handles: map<nat, Handle>, lru: seq<nat>, inUse: seq<nat>, freed: seq<nat>, id: nat, h: Handle)
    requires Listed(handles, lru, inUse) && Accounted(handles, freed, id) && h.refs == (if h.inCache then 2 else 1)
    ensures id !in handles && Accounted(handles[id := h], freed, id + 1)
    ensures var inUse' := if h.inCache then inUse + [id] else inUse;
      Listed(handles[id := h], lru, inUse')
      && Total(handles[id := h], lru) + Total(handles[id := h], inUse') == Total(handles, lru) + Total(handles, inUse) + if h.inCache then h.charge else 0
  {
    TotalSame(handles, handles[id := h], lru);
    TotalSame(handles, handles[id := h], inUse);
    TotalAppend(handles[id := h], inUse, id);
  }

  lemma NotTabled(slots: set<Slot>, handles: map<nat, Handle>, id: nat, h: Handle, leaving: set<nat>)
    requires Tabled(slots, handles, {}) && id !in handles && leaving == (if h.inCache then {id} else {})
    ensures Tabled(slots, handles[id := h], leaving)
  {
  }

  /** The old handles fare as if the new one had not come. */
  lemma OthersStay(before: map<nat, Handle>, id: nat, h: Handle, after: map<nat, Handle>, displaced: set<nat>)
    requires id !in before
    requires after == before[id := h] || (ClientsKeep(before[id := h], after) && StayAsTheyAre(before[id := h], after, displaced, []))
    ensures ClientsKeep(before, after) && StayAsTheyAre(before, after, displaced, [])
  {
  }

  lemma CachedBefore(handles: map<nat, Handle>, id: nat, h: Handle)
    requires id !in handles
    ensures CachedAs(handles[id := h], h.key) - {id} == CachedAs(handles, h.key)
  {
  }

  /** Inserting into the table displaces whatever was cached under the key. */
  lemma Displaces(slots: set<Slot>, handles: map<nat, Handle>, id: nat, former: Option<Slot>)
    requires Tabled(slots, handles, {id}) && id in handles && handles[id].inCache
    requires former.Some? ==> former.value in slots && former.value.key == handles[id].key && OnlyOne(slots, former.value)
    requires former.None? ==> forall s :: s in slots ==> s.key != handles[id].key
    ensures var h, added := handles[id], {SlotOf(id, handles[id])};
      if former.Some? then
        var f := former.value.id;
        && f in handles && handles[f].inCache && f != id && CachedAs(handles, h.key) - {id} == {f}
        && Tabled(slots - {former.value} + added, handles, {f})
      else CachedAs(handles, h.key) - {id} == {} && Tabled(slots + added, handles, {})
  {
    forall x | x in handles && handles[x].inCache && x != id ensures SlotOf(x, handles[x]) in slots {}
  }

  /** What the table no longer holds under a key is what was cached under it. */
  lemma RemovedFrom(slots: set<Slot>, handles: map<nat, Handle>, key: Bytes, removed: Option<Slot>)
    requires Tabled(slots, handles, {})
    requires removed.Some? ==> removed.value in slots && removed.value.key == key && OnlyOne(slots, removed.value)
    requires removed.None? ==> forall s :: s in slots ==> s.key != key
    ensures removed.Some? ==> CachedAs(handles, key) == {removed.value.id} && Tabled(slots - {removed.value}, handles, {removed.value.id})
    ensures removed.None? ==> CachedAs(handles, key) == {}
  {
    forall x | x in handles && handles[x].inCache ensures SlotOf(x, handles[x]) in slots {}
  }

  lemma WithoutFirst(list: seq<nat>)
    requires list != [] && Distinct(list)
    ensures Without(list, list[0]) == list[1..]
  {
    WithoutOther(list[1..], list[0]);
  }

  lemma {:induction false} WithoutOther(list: seq<nat>, id: nat)
    requires forall k :: 0 <= k < |list| ==> list[k] != id
    ensures Without(list, id) == list
  {
    if list != [] {
      WithoutOther(list[1..], id);
    }
  }

  /** Leaving the cache gives back the cache's reference, not a client's. */
  lemma OneLess(handles: map<nat, Handle>, id: nat)
    requires id in handles && handles[id].inCache && handles[id].refs > 0
    ensures ClientsKeep(handles, Uncached(handles, id))
    ensures var h := handles[id];
      var out := handles[id := h.(inCache := false)];
      Uncached(handles, id) == if h.refs == 1 then out - {id} else out[id := h.(inCache := false, refs := h.refs - 1)]
  {
    assert forall x :: x in handles && x != id ==> x in Uncached(handles, id) && Uncached(handles, id)[x] == handles[x];
  }

  lemma RefsArePositive(handles: map<nat, Handle>, lru: seq<nat>, inUse: seq<nat>, id: nat)
    requires Listed(handles, lru, inUse) && id in handles
    ensures handles[id].refs > 0
  {
  }

  lemma AccountedSame(handles: map<nat, Handle>, handles': map<nat, Handle>, freed: seq<nat>, nextId: nat)
    requires Accounted(handles, freed, nextId) && handles.Keys == handles'.Keys
    ensures Accounted(handles', freed, nextId)
  {
  }

  /** The table is in step again once the handle that left it is out of the cache or freed. */
  lemma OutOfTable(slots: set<Slot>, before: map<nat, Handle>, leaving: set<nat>, after: map<nat, Handle>, id: nat)
    requires Tabled(slots, before, leaving) && id in before && (leaving == {id} || (leaving == {} && !before[id].inCache))
    requires forall x :: x in after ==> x in before && (x != id ==> after[x] == before[x])
    requires forall x :: x in before && x != id ==> x in after
    requires id in after ==> !after[id].inCache
    ensures Tabled(slots, after, {})
  {
  }

  /** Counting references does not concern the table. */
  lemma RefsTabled(slots: set<Slot>, handles: map<nat, Handle>, id: nat, refs: nat)
    requires Tabled(slots, handles, {}) && id in handles
    ensures Tabled(slots, handles[id := handles[id].(refs := refs)], {})
  {
  }

  lemma LookedUp(slots: set<Slot>, handles: map<nat, Handle>, key: Bytes, found: Option<Slot>)
    requires Tabled(slots, handles, {})
    requires found.Some? ==> found.value in slots && found.value.key == key
    requires found.None? ==> forall s :: s in slots ==> s.key != key
    ensures found.Some? ==> found.value.id in CachedAs(handles, key)
    ensures found.None? ==> CachedAs(handles, key) == {}
  {
    if found.None? {
      forall id | id in handles && handles[id].inCache ensures handles[id].key != key {
        assert SlotOf(id, handles[id]) in slots;
      }
    }
  }

  lemma LeaveKeepsLists(handles: map<nat, Handle>, lru: seq<nat>, inUse: seq<nat>, id: nat)
    requires Listed(handles, lru, inUse) && id in handles && handles[id].inCache
    ensures var h := handles[id];
      var handles' := handles[id := h.(inCache := false)];
      && Listed(handles', Without(lru, id), Without(inUse, id))
      && Total(handles', Without(lru, id)) + Total(handles', Without(inUse, id)) + h.charge == Total(handles, lru) + Total(handles, inUse)
  {
    var h := handles[id];
    var handles' := handles[id := h.(inCache := false)];
    WithoutIs(lru, id);
    WithoutIs(inUse, id);
    TotalSame(handles, handles', lru);
    TotalSame(handles, handles', inUse);
    TotalWithout(handles', lru, id);
    TotalWithout(handles', inUse, id);
  }

  lemma RefKeepsLists(handles: map<nat, Handle>, lru: seq<nat>, inUse: seq<nat>, id: nat)
    requires Listed(handles, lru, inUse) && id in handles
    ensures var h := handles[id];
      var moves := h.refs == 1 && h.inCache;
      var handles' := handles[id := h.(refs := h.refs + 1)];
      var lru', inUse' := if moves then Without(lru, id) else lru, if moves then inUse + [id] else inUse;
      Listed(handles', lru', inUse') && Total(handles', lru') + Total(handles', inUse') == Total(handles, lru) + Total(handles, inUse)
  {
    var h := handles[id];
    var handles' := handles[id := h.(refs := h.refs + 1)];
    WithoutIs(lru, id);
    TotalSame(handles, handles', lru);
    TotalSame(handles, handles', inUse);
    if h.refs == 1 && h.inCache {
      TotalWithout(handles', lru, id);
      TotalAppend(handles', inUse, id);
    }
  }

  lemma UnrefAccounts(handles: map<nat, Handle>, freed: seq<nat>, nextId: nat, id: nat)
    requires Accounted(handles, freed, nextId) && id in handles && handles[id].refs > 0
    ensures if handles[id].refs == 1 then Accounted(handles - {id}, freed + [id], nextId)
            else Accounted(handles[id := handles[id].(refs := handles[id].refs - 1)], freed, nextId)
  {
  }

  lemma UnrefKeepsLists(handles: map<nat, Handle>, lru: seq<nat>, inUse: seq<nat>, id: nat)
    requires Listed(handles, lru, inUse) && id in handles && (handles[id].refs == 1 ==> !handles[id].inCache)
    ensures var h := handles[id];
      var moves := h.refs == 2 && h.inCache;
      var handles' := if h.refs == 1 then handles - {id} else handles[id := h.(refs := h.refs - 1)];
      var lru', inUse' := if moves then lru + [id] else lru, if moves then Without(inUse, id) else inUse;
      Listed(handles', lru', inUse') && Total(handles', lru') + Total(handles', inUse') == Total(handles, lru) + Total(handles, inUse)
  {
    var h := handles[id];
    var handles' := if h.refs == 1 then handles - {id} else handles[id := h.(refs := h.refs - 1)];
    WithoutIs(inUse, id);
    TotalSame(handles, handles', lru);
    TotalSame(handles, handles', inUse);
    if h.refs == 2 && h.inCache {
      TotalWithout(handles', inUse, id);
      TotalAppend(handles', lru, id);
    }
  }
}
