/** LegacyLruCache: a list of nodes spliced in place, and a hash index of iterators into it. */
module Lru {
  import opened Options
  import opened LruModel

  /** A list node at a stable location; an iterator is the location of a node. */
  datatype Slot<K, V> = Slot(location: nat, node: Node<K, V>)

  ghost function View<K, V>(slots: seq<Slot<K, V>>): (s: seq<Node<K, V>>)
    ensures |s| == |slots| && forall i :: 0 <= i < |s| ==> s[i] == slots[i].node
  {
    seq(|slots|, i requires 0 <= i < |slots| => slots[i].node)
  }

  /** Where the list holds the node at `location`. */
  function At<K, V>(slots: seq<Slot<K, V>>, location: nat): (i: nat)
    ensures i <= |slots|
    ensures i < |slots| ==> slots[i].location == location
    ensures forall j :: 0 <= j < i ==> slots[j].location != location
  {
    if slots == [] || slots[0].location == location then 0 else 1 + At(slots[1..], location)
  }

  /** list::erase of the node at `location`. */
  function Erase<K, V>(slots: seq<Slot<K, V>>, location: nat): seq<Slot<K, V>>
    requires At(slots, location) < |slots|
  {
    var i := At(slots, location);
    slots[..i] + slots[i + 1..]
  }

  /** List and index agree: the same distinct keys, every iterator at the node of its key. */
  ghost predicate Agree<K(!new), V>(slots: seq<Slot<K, V>>, index: map<K, nat>) {
    && (forall i, j :: 0 <= i < j < |slots| ==>
          slots[i].node.key != slots[j].node.key && slots[i].location != slots[j].location)
    && (forall i :: 0 <= i < |slots| ==>
          slots[i].node.key in index && index[slots[i].node.key] == slots[i].location)
    && |index| == |slots|
  }

  lemma {:induction false} KeySet<K(!new), V>(slots: seq<Slot<K, V>>, index: map<K, nat>, n: nat)
    requires Agree(slots, index) && n <= |slots|
    ensures |set i | 0 <= i < n :: slots[i].node.key| == n
    ensures (set i | 0 <= i < n :: slots[i].node.key) <= index.Keys
  {
    if n > 0 {
      KeySet(slots, index, n - 1);
      assert (set i | 0 <= i < n :: slots[i].node.key) ==
             (set i | 0 <= i < n - 1 :: slots[i].node.key) + {slots[n - 1].node.key};
    }
  }

  /** Every indexed key has its node in the list. */
  lemma {:induction false} Indexed<K(!new), V>(slots: seq<Slot<K, V>>, index: map<K, nat>, k: K)
    requires Agree(slots, index)
    ensures k in index <==> Resident(View(slots), k)
    ensures k in index ==> At(slots, index[k]) == Position(View(slots), k)
  {
    var keys := set i | 0 <= i < |slots| :: slots[i].node.key;
    KeySet(slots, index, |slots|);
    assert |index.Keys| == |index|;
    assert keys == index.Keys by {
      assert index.Keys == keys + (index.Keys - keys);
    }
    if k in index {
      var i :| 0 <= i < |slots| && slots[i].node.key == k;
      assert View(slots)[i].key == k;
    }
    if Resident(View(slots), k) { assert slots[Position(View(slots), k)].node.key == k; }
  }

  /** A pointer to the value of a key stays valid as long as the key stays in the cache. */
  ghost predicate PointersStay<K(!new)>(before: map<K, nat>, after: map<K, nat>) {
    forall k :: k in before && k in after ==> after[k] == before[k]
  }

  /** Writing through a pointer touches one value and nothing else. */
  lemma {:induction false} Written<K(!new), V>(slots: seq<Slot<K, V>>, index: map<K, nat>, k: K, v: V)
    requires Agree(slots, index) && k in index
    ensures At(slots, index[k]) < |slots|
    ensures var i := At(slots, index[k]); var slots' := slots[i := Slot(index[k], Node(k, v))];
            Agree(slots', index) && View(slots') == Assigned(View(slots), k, v)
  {
    Indexed(slots, index, k);
  }

  lemma {:induction false} Erased<K(!new), V>(slots: seq<Slot<K, V>>, index: map<K, nat>, k: K)
    requires Agree(slots, index) && k in index
    ensures At(slots, index[k]) < |slots|
    ensures Agree(Erase(slots, index[k]), index - {k})
    ensures View(Erase(slots, index[k])) == Without(View(slots), k)
  {
    Indexed(slots, index, k);
    WithoutSplits(View(slots), k);
    var i := At(slots, index[k]);
    var rest := Erase(slots, index[k]);
    assert View(rest) == View(slots)[..i] + View(slots)[i + 1..];
    ErasedAgrees(slots, index, k, i);
  }

  lemma {:induction false} ErasedAgrees<K(!new), V>(slots: seq<Slot<K, V>>, index: map<K, nat>, k: K, i: nat)
    requires Agree(slots, index) && k in index && i < |slots| && slots[i].node.key == k
    ensures Agree(slots[..i] + slots[i + 1..], index - {k})
  {
    var rest := slots[..i] + slots[i + 1..];
    assert forall j :: 0 <= j < |rest| ==> rest[j] == slots[if j < i then j else j + 1];
    assert index.Keys == (index - {k}).Keys + {k};
  }

  lemma {:induction false} Pushed<K(!new), V>(slots: seq<Slot<K, V>>, index: map<K, nat>, s: Slot<K, V>)
    requires Agree(slots, index) && s.node.key !in index
    requires forall i :: 0 <= i < |slots| ==> slots[i].location != s.location
    ensures Agree([s] + slots, index[s.node.key := s.location])
    ensures View([s] + slots) == [s.node] + View(slots)
  {
    assert View([s] + slots) == [s.node] + View(slots);
    OneMoreKey(index, s.node.key, s.location);
    PushedApart(slots, index, s);
    PushedIndexed(slots, index, s);
  }

  lemma OneMoreKey<K, V>(m: map<K, V>, k: K, v: V)
    requires k !in m
    ensures |m[k := v]| == |m| + 1
  {
    assert m[k := v].Keys == m.Keys + {k};
  }

  lemma {:induction false} PushedApart<K(!new), V>(slots: seq<Slot<K, V>>, index: map<K, nat>, s: Slot<K, V>)
    requires Agree(slots, index) && s.node.key !in index
    requires forall i :: 0 <= i < |slots| ==> slots[i].location != s.location
    ensures var more := [s] + slots;
            forall i, j :: 0 <= i < j < |more| ==>
              more[i].node.key != more[j].node.key && more[i].location != more[j].location
  {
    var more := [s] + slots;
    forall i, j | 0 <= i < j < |more|
      ensures more[i].node.key != more[j].node.key && more[i].location != more[j].location
    {
      assert more[j] == slots[j - 1] && slots[j - 1].node.key in index;
      if 0 < i { assert more[i] == slots[i - 1]; }
    }
  }

  lemma {:induction false} PushedIndexed<K(!new), V>(slots: seq<Slot<K, V>>, index: map<K, nat>, s: Slot<K, V>)
    requires Agree(slots, index) && s.node.key !in index
    ensures var more, index' := [s] + slots, index[s.node.key := s.location];
            forall i :: 0 <= i < |more| ==>
              more[i].node.key in index' && index'[more[i].node.key] == more[i].location
  {
    var more := [s] + slots;
    forall i | 0 < i < |more| ensures more[i] == slots[i - 1] && more[i].node.key in index {}
  }

  /** list::splice of the node of `k` to the front. */
  lemma {:induction false} Spliced<K(!new), V>(slots: seq<Slot<K, V>>, index: map<K, nat>, k: K)
    requires Agree(slots, index) && k in index
    ensures At(slots, index[k]) < |slots|
    ensures var slot := slots[At(slots, index[k])]; var moved := [slot] + Erase(slots, index[k]);
            && Agree(moved, index) && View(moved) == Touched(View(slots), k)
            && Lookup(View(slots), k) == Some(slot.node.value)
            && forall i :: 0 <= i < |moved| ==> moved[i] in slots
  {
    Indexed(slots, index, k);
    Erased(slots, index, k);
    var slot := slots[At(slots, index[k])];
    Pushed(Erase(slots, index[k]), index - {k}, slot);
    assert index == (index - {k})[k := slot.location];
  }

  class LegacyLruCache<K(==, !new), V> {
    const capacity: nat
    var nodeList: seq<Slot<K, V>>
    var lruMap: map<K, nat>
    var nextLocation: nat  // locations from here on are unused memory

    ghost predicate Valid()
      reads this
    {
      && 0 < capacity
      && |nodeList| <= capacity
      && Agree(nodeList, lruMap)
      && forall i :: 0 <= i < |nodeList| ==> nodeList[i].location < nextLocation
    }

    ghost function Contents(): seq<Node<K, V>>
      reads this
    {
      View(nodeList)
    }

    constructor (capacity: nat)
      requires 0 < capacity
      ensures Valid() && this.capacity == capacity && Contents() == []
    {
      this.capacity := capacity;
      nodeList, lruMap, nextLocation := [], map[], 0;
    }

    method Clear()
      requires Valid()
      modifies this
      ensures Valid() && Contents() == []
    {
      lruMap := map[];
      nodeList := [];
    }

    /** A hit splices the node to the front and yields a pointer to its value. */
    method Find(key: K) returns (found: Option<nat>)
      requires Valid()
      modifies this`nodeList
      ensures Valid()
      ensures Contents() == Touched(old(Contents()), key)
      ensures found.Some? <==> Resident(old(Contents()), key)
      ensures found == if key in lruMap then Some(lruMap[key]) else None
    {
      Indexed(nodeList, lruMap, key);
      if key !in lruMap {
        return None;
      }
      Spliced(nodeList, lruMap, key);
      var slot := nodeList[At(nodeList, lruMap[key])];
      nodeList := [slot] + Erase(nodeList, lruMap[key]);
      found := Some(slot.location);
    }

    /** Reading through a pointer that Find has returned for the key, which is still cached. */
    method Load(pointer: nat, ghost key: K) returns (value: V)
      requires Valid() && key in lruMap && lruMap[key] == pointer
      ensures Lookup(Contents(), key) == Some(value)
    {
      Indexed(nodeList, lruMap, key);
      value := nodeList[At(nodeList, pointer)].node.value;
    }

    /** Writing through it: the cache holds the new value and is not warmed up. */
    method Store(pointer: nat, value: V, ghost key: K)
      requires Valid() && key in lruMap && lruMap[key] == pointer
      modifies this`nodeList
      ensures Valid()
      ensures Contents() == Assigned(old(Contents()), key, value)
    {
      Written(nodeList, lruMap, key, value);
      var i := At(nodeList, pointer);
      assert nodeList[i].node.key == key by { Indexed(nodeList, lruMap, key); }
      nodeList := nodeList[i := Slot(pointer, Node(nodeList[i].node.key, value))];
    }

    method Get(key: K) returns (value: Option<V>)
      requires Valid()
      modifies this`nodeList
      ensures Valid()
      ensures Contents() == Touched(old(Contents()), key)
      ensures value == Lookup(old(Contents()), key)
    {
      var pointer := Find(key);
      if pointer.None? {
        return None;
      }
      var v := Load(pointer.value, key);
      assert Contents()[0].key == key;
      value := Some(v);
    }

    method HasKey(key: K) returns (present: bool)
      requires Valid()
      modifies this`nodeList
      ensures Valid()
      ensures Contents() == Touched(old(Contents()), key)
      ensures present <==> Resident(old(Contents()), key)
    {
      var found := Find(key);
      present := found.Some?;
    }

    /** Puts the pair at the front and hands back the node that had to leave, if any. */
    method Put(key: K, value: V) returns (evicted: Option<Node<K, V>>)
      requires Valid()
      modifies this
      ensures Valid()
      ensures Contents() == Inserted(capacity, old(Contents()), key, value)
      ensures evicted == Evicted(capacity, old(Contents()), key)
      ensures PointersStay(old(lruMap), lruMap)
    {
      var found := Find(key);
      if found.Some? {
        assert Contents()[0].key == key && Position(Contents(), key) == 0;
        Store(found.value, value, key);
        return None;
      }
      evicted := InsertNew(key, value);
    }

    /** The rest of Put: a new key makes room for itself. */
    method InsertNew(key: K, value: V) returns (evicted: Option<Node<K, V>>)
      requires Valid() && key !in lruMap && !Resident(Contents(), key)
      modifies this
      ensures Valid()
      ensures Contents() == Inserted(capacity, old(Contents()), key, value)
      ensures evicted == Evicted(capacity, old(Contents()), key)
      ensures PointersStay(old(lruMap), lruMap)
    {
      evicted := None;
      if |lruMap| == capacity {
        evicted := PopBack();
      }
      EmplaceFront(key, value);
    }

    /** The insertion inside Put: a new node at the front of the list and in the index. */
    method EmplaceFront(key: K, value: V)
      requires Valid() && |nodeList| < capacity && key !in lruMap
      modifies this
      ensures Valid()
      ensures Contents() == [Node(key, value)] + old(Contents())
      ensures lruMap == old(lruMap)[key := old(nextLocation)]
    {
      var slot := Slot(nextLocation, Node(key, value));
      Pushed(nodeList, lruMap, slot);
      nodeList := [slot] + nodeList;
      lruMap := lruMap[key := slot.location];
      nextLocation := nextLocation + 1;
    }

    /** The eviction inside Put: the tail leaves the index and the list. */
    method PopBack() returns (evicted: Option<Node<K, V>>)
      requires Valid() && nodeList != []
      modifies this
      ensures Valid() && |nodeList| == |old(nodeList)| - 1
      ensures Contents() == old(Contents())[..|nodeList|]
      ensures evicted == Some(old(Contents())[|nodeList|])
      ensures lruMap == old(lruMap) - {evicted.value.key}
    {
      var tail := nodeList[|nodeList| - 1];
      Erased(nodeList, lruMap, tail.node.key);
      assert At(nodeList, tail.location) == |nodeList| - 1;
      lruMap := lruMap - {tail.node.key};
      evicted := Some(tail.node);
      nodeList := nodeList[..|nodeList| - 1];
      assert nodeList == Erase(old(nodeList), tail.location);
    }

    method Remove(key: K) returns (removed: bool)
      requires Valid()
      modifies this
      ensures Valid()
      ensures Contents() == Without(old(Contents()), key)
      ensures removed <==> Resident(old(Contents()), key)
      ensures PointersStay(old(lruMap), lruMap)
    {
      Indexed(nodeList, lruMap, key);
      if key !in lruMap {
        WithoutSplits(Contents(), key);
        return false;
      }
      Erased(nodeList, lruMap, key);
      nodeList := Erase(nodeList, lruMap[key]);
      lruMap := lruMap - {key};
      removed := true;
    }

    method Size() returns (n: nat)
      requires Valid()
      ensures n == |Contents()|
    {
      n := |lruMap|;
    }
  }
}
