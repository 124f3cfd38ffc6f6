/**
 Init of the MetricIdAllocator on the value level. Close keeps the callbacks, so
 devices can be paired while the allocator is closed; Init then loads its map over them.
 */
module MetricIdInit {
  import opened Options
  import opened LruModel
  import opened MetricIdModel

  /** The maps Init accepts, in the order their iterator yields them. */
  ghost predicate Loadable(saved: seq<Device>) {
    DistinctKeys(saved) && |saved| <= MAX_PAIRED && forall n :: n in saved ==> IsValidId(n.value)
  }

  ghost predicate DistinctIds(saved: seq<Device>) {
    forall i, j :: 0 <= i < j < |saved| ==> saved[i].value != saved[j].value
  }

  ghost function Values(saved: seq<Device>): set<int> {
    Ids(Nodes(saved))
  }

  /** The body of the loop of Init for one saved device. */
  function LoadOne(d: Devices, n: Device): Devices {
    var out := Evicted(MAX_PAIRED, d.paired, n.key);
    Devices(
      Inserted(MAX_PAIRED, d.paired, n.key, n.value),
      d.temporary,
      d.idSet - (if out.Some? then {out.value.value} else {}) + {n.value},
      if d.nextId < n.value + 1 then n.value + 1 else d.nextId)
  }

  function Load(d: Devices, saved: seq<Device>): Devices {
    if saved == [] then d.(nextId := MIN_ID)
    else LoadOne(Load(d, saved[..|saved| - 1]), saved[|saved| - 1])
  }

  function LoadOneCallbacks(d: Devices, n: Device): seq<Callback> {
    var out := Evicted(MAX_PAIRED, d.paired, n.key);
    if out.Some? then [Forgotten(out.value.key, out.value.value)] else []
  }

  function LoadCallbacks(d: Devices, saved: seq<Device>): seq<Callback> {
    if saved == [] then []
    else
      var k := |saved| - 1;
      LoadCallbacks(d, saved[..k]) + LoadOneCallbacks(Load(d, saved[..k]), saved[k])
  }

  lemma {:induction false} LoadUnfolds(d: Devices, saved: seq<Device>, i: nat)
    requires i < |saved|
    ensures Load(d, saved[..i + 1]) == LoadOne(Load(d, saved[..i]), saved[i])
    ensures LoadCallbacks(d, saved[..i + 1]) ==
            LoadCallbacks(d, saved[..i]) + LoadOneCallbacks(Load(d, saved[..i]), saved[i])
  {
    assert saved[..i + 1][..i] == saved[..i];
  }

  /** The state Init leaves. */
  function InitOf(d: Devices, saved: seq<Device>): Devices {
    var l := Load(d, saved);
    l.(nextId := if l.nextId > MAX_ID then MIN_ID else l.nextId)
  }

  // ---------- what loading does to the devices paired before ----------

  /**
   The devices paired before are those still behind the loaded ones, those that had
   to leave, and those whose address the map gives an id of its own.
   */
  datatype Split = Split(rest: seq<Device>, evicted: set<Device>, replaced: set<Device>, idSet: set<int>)

  ghost function SplitOne(s: Split, loaded: nat, n: Device): Split {
    var had := Lookup(s.rest, n.key);
    if had.Some? then
      s.(rest := Without(s.rest, n.key), replaced := s.replaced + {Node(n.key, had.value)},
         idSet := s.idSet + {n.value})
    else if loaded + |s.rest| == MAX_PAIRED && s.rest != [] then
      var tail := s.rest[|s.rest| - 1];
      s.(rest := s.rest[..|s.rest| - 1], evicted := s.evicted + {tail}, idSet := s.idSet - {tail.value} + {n.value})
    else
      s.(idSet := s.idSet + {n.value})
  }

  ghost function SplitOf(d: Devices, saved: seq<Device>): Split {
    if saved == [] then Split(d.paired, {}, {}, d.idSet)
    else SplitOne(SplitOf(d, saved[..|saved| - 1]), |saved| - 1, saved[|saved| - 1])
  }

  lemma {:induction false} NodesPlusLast(s: seq<Device>)
    requires s != []
    ensures Nodes(s) == Nodes(s[..|s| - 1]) + {s[|s| - 1]}
  {
    assert s == s[..|s| - 1] + [s[|s| - 1]];
  }

  ghost function Rev(s: seq<Device>): (r: seq<Device>)
    ensures |r| == |s| && Nodes(r) == Nodes(s)
  {
    if s == [] then []
    else
      var k := |s| - 1;
      NodesPlusLast(s);
      Cons(s[k], Rev(s[..k]));
      [s[k]] + Rev(s[..k])
  }

  lemma {:induction false} PositionBehind(a: seq<Device>, b: seq<Device>, k: RawAddress)
    requires forall n :: n in a ==> n.key != k
    ensures Position(a + b, k) == |a| + Position(b, k)
  {
    if a == [] {
      assert a + b == b;
    } else {
      assert (a + b)[1..] == a[1..] + b && a[0] in a;
      PositionBehind(a[1..], b, k);
    }
  }

  lemma {:induction false} WithoutBehind(a: seq<Device>, b: seq<Device>, k: RawAddress)
    requires forall n :: n in a ==> n.key != k
    ensures Lookup(a + b, k) == Lookup(b, k)
    ensures Without(a + b, k) == a + Without(b, k)
  {
    PositionBehind(a, b, k);
    WithoutSplits(a + b, k);
    WithoutSplits(b, k);
    if Position(b, k) < |b| { CutBehind(a, b, Position(b, k)); }
  }

  lemma CutBehind(a: seq<Device>, b: seq<Device>, p: nat)
    requires p < |b|
    ensures (a + b)[|a| + p] == b[p]
    ensures (a + b)[..|a| + p] + (a + b)[|a| + p + 1..] == a + (b[..p] + b[p + 1..])
  {
    assert (a + b)[..|a| + p] == a + b[..p] && (a + b)[|a| + p + 1..] == b[p + 1..];
  }

  /** Putting a device whose address is not among the front nodes. */
  lemma {:induction false} InsertOver(a: seq<Device>, b: seq<Device>, n: Device)
    requires (forall m :: m in a ==> m.key != n.key) && |a| + |b| <= MAX_PAIRED && |a| < MAX_PAIRED
    ensures Inserted(MAX_PAIRED, a + b, n.key, n.value) ==
            [n] + a + (if Lookup(b, n.key).Some? then Without(b, n.key)
                       else if |a| + |b| == MAX_PAIRED then b[..|b| - 1] else b)
    ensures Evicted(MAX_PAIRED, a + b, n.key) ==
            if Lookup(b, n.key).None? && |a| + |b| == MAX_PAIRED then Some(b[|b| - 1]) else None
  {
    WithoutBehind(a, b, n.key);
    assert b != [] ==> (a + b)[..|a + b| - 1] == a + b[..|b| - 1];
  }

  lemma {:induction false} SplitFits(d: Devices, saved: seq<Device>)
    requires |d.paired| <= MAX_PAIRED && |saved| <= MAX_PAIRED
    ensures |saved| + |SplitOf(d, saved).rest| <= MAX_PAIRED
  {
    if saved != [] {
      var k := |saved| - 1;
      SplitFits(d, saved[..k]);
      WithoutLength(SplitOf(d, saved[..k]).rest, saved[k].key);
    }
  }

  lemma {:induction false} NotLoadedYet(saved: seq<Device>)
    requires DistinctKeys(saved) && saved != []
    ensures forall m :: m in Rev(saved[..|saved| - 1]) ==> m.key != saved[|saved| - 1].key
  {
    var k := |saved| - 1;
    forall m | m in Rev(saved[..k]) ensures m.key != saved[k].key {
      assert m in Nodes(saved[..k]);
      var i :| 0 <= i < k && saved[i] == m;
    }
  }

  /** Loaded devices stand in front, in reverse order, and are never evicted. */
  lemma {:induction false} LoadSplits(d: Devices, saved: seq<Device>)
    requires |d.paired| <= MAX_PAIRED && DistinctKeys(saved) && |saved| <= MAX_PAIRED
    ensures var l, s := Load(d, saved), SplitOf(d, saved);
            l.paired == Rev(saved) + s.rest && l.temporary == d.temporary && l.idSet == s.idSet
  {
    if saved != [] {
      var k := |saved| - 1;
      var s, n := SplitOf(d, saved[..k]), saved[k];
      LoadSplits(d, saved[..k]);
      SplitFits(d, saved[..k]);
      NotLoadedYet(saved);
      LoadOneSplits(Load(d, saved[..k]), Rev(saved[..k]), s, n);
      assert Rev(saved) == [n] + Rev(saved[..k]);
    }
  }

  lemma {:induction false} LoadOneSplits(l: Devices, front: seq<Device>, s: Split, n: Device)
    requires l.paired == front + s.rest && l.idSet == s.idSet
    requires (forall m :: m in front ==> m.key != n.key) && |front| + |s.rest| <= MAX_PAIRED && |front| < MAX_PAIRED
    ensures var l', s' := LoadOne(l, n), SplitOne(s, |front|, n);
            l'.paired == [n] + front + s'.rest && l'.idSet == s'.idSet
  {
    InsertOver(front, s.rest, n);
  }

  ghost predicate SplitFacts(paired: seq<Device>, saved: seq<Device>, s: Split) {
    && DistinctKeys(s.rest)
    && Nodes(s.rest) + s.evicted + s.replaced == Nodes(paired)
    && Nodes(s.rest) !! s.evicted && Nodes(s.rest) !! s.replaced && s.evicted !! s.replaced
    && (forall n :: n in s.rest ==> n.key !in KeySet(saved))
    && (forall n :: n in s.replaced ==> n.key in KeySet(saved))
  }

  /** Every device paired before is in exactly one of the three parts. */
  lemma {:induction false} SplitPartitions(d: Devices, saved: seq<Device>)
    requires DistinctKeys(d.paired)
    ensures SplitFacts(d.paired, saved, SplitOf(d, saved))
  {
    if saved != [] {
      var k := |saved| - 1;
      SplitPartitions(d, saved[..k]);
      assert saved == saved[..k] + [saved[k]];
      assert KeySet(saved) == KeySet(saved[..k]) + {saved[k].key};
      SplitOneFacts(d.paired, saved[..k], SplitOf(d, saved[..k]), saved[k], saved);
    }
  }

  lemma {:induction false} SplitOneFacts(
      paired: seq<Device>, before: seq<Device>, s: Split, n: Device, saved: seq<Device>)
    requires SplitFacts(paired, before, s) && KeySet(saved) == KeySet(before) + {n.key}
    ensures SplitFacts(paired, saved, SplitOne(s, |before|, n))
  {
    var had := Lookup(s.rest, n.key);
    if had.Some? {
      var o := Node(n.key, had.value);
      NodesWithout(s.rest, n.key);
      forall m | m in s.rest && m.key == n.key ensures m == o { NodeIsLookup(s.rest, m); }
      assert Nodes(Without(s.rest, n.key)) == Nodes(s.rest) - {o};
      forall m | m in Without(s.rest, n.key) ensures m in Nodes(s.rest) - {o} {
        assert m in Nodes(Without(s.rest, n.key));
      }
    } else if |before| + |s.rest| == MAX_PAIRED && s.rest != [] {
      AllButTail(s.rest);
    }
  }

  // ---------- what it does to the ids ----------

  /** No eviction takes back an id that has already been loaded. */
  ghost predicate NoneFreedLate(d: Devices, saved: seq<Device>) {
    saved != [] ==>
      var k := |saved| - 1;
      var before, after := SplitOf(d, saved[..k]), SplitOf(d, saved);
      && NoneFreedLate(d, saved[..k])
      && forall e :: e in after.evicted - before.evicted ==> e.value !in Values(saved[..k])
  }

  lemma {:induction false} ValuesPlus(saved: seq<Device>)
    requires saved != []
    ensures var k := |saved| - 1; Values(saved) == Values(saved[..k]) + {saved[k].value}
  {
    var k := |saved| - 1;
    assert saved == saved[..k] + [saved[k]];
    assert Nodes(saved) == Nodes(saved[..k]) + {saved[k]};
    IdsOfUnion(Nodes(saved[..k]), {saved[k]});
    assert Ids({saved[k]}) == {saved[k].value};
  }

  /** Then exactly the ids of the devices that left are gone, and exactly the loaded ones are new. */
  lemma {:induction false} IdsAfterLoad(d: Devices, saved: seq<Device>)
    requires DistinctKeys(d.paired) && NoneFreedLate(d, saved)
    ensures var s := SplitOf(d, saved); s.idSet == d.idSet - Ids(s.evicted) + Values(saved)
  {
    if saved != [] {
      var k := |saved| - 1;
      IdsAfterLoad(d, saved[..k]);
      ValuesPlus(saved);
      SplitPartitions(d, saved[..k]);
      IdsAfterOne(d.idSet, SplitOf(d, saved[..k]), k, saved[k], Values(saved[..k]));
    }
  }

  lemma {:induction false} IdsAfterOne(ids: set<int>, s: Split, loaded: nat, n: Device, values: set<int>)
    requires s.idSet == ids - Ids(s.evicted) + values && Nodes(s.rest) !! s.evicted
    requires forall e :: e in SplitOne(s, loaded, n).evicted - s.evicted ==> e.value !in values
    ensures var s' := SplitOne(s, loaded, n); s'.idSet == ids - Ids(s'.evicted) + (values + {n.value})
  {
    if SplitOne(s, loaded, n).evicted != s.evicted {
      var tail := s.rest[|s.rest| - 1];
      assert tail in Nodes(s.rest) && tail in SplitOne(s, loaded, n).evicted - s.evicted;
      IdsOfUnion(s.evicted, {tail});
      assert Ids({tail}) == {tail.value};
    }
  }

  /** If all loaded ids, all different, are still there, none of them was taken back. */
  lemma {:induction false} AllThereMeansNoneLate(d: Devices, saved: seq<Device>)
    requires DistinctIds(saved) && Values(saved) <= SplitOf(d, saved).idSet
    ensures NoneFreedLate(d, saved)
  {
    if saved != [] {
      var k := |saved| - 1;
      var s, s' := SplitOf(d, saved[..k]), SplitOf(d, saved);
      ValuesPlus(saved);
      forall x | x in Values(saved[..k]) ensures x != saved[k].value {
        var n :| n in Nodes(saved[..k]) && n.value == x;
        var i :| 0 <= i < k && saved[i] == n;
      }
      AllThereMeansNoneLate(d, saved[..k]);
    }
  }

  // ---------- the two invariants after Init ----------

  /** The devices that loading leaves as they are. */
  ghost function Others(d: Devices, saved: seq<Device>): set<Device> {
    Nodes(SplitOf(d, saved).rest) + Nodes(d.temporary)
  }

  lemma {:induction false} HeldAfterInit(d: Devices, saved: seq<Device>)
    requires Shaped(d) && Loadable(saved)
    ensures var d' := InitOf(d, saved);
            && Held(d') == Nodes(saved) + Others(d, saved)
            && Nodes(d'.paired) == Nodes(saved) + Nodes(SplitOf(d, saved).rest)
            && d'.temporary == d.temporary && d'.idSet == SplitOf(d, saved).idSet
  {
    LoadSplits(d, saved);
    var rest := SplitOf(d, saved).rest;
    assert forall n :: n in Rev(saved) + rest <==> n in Rev(saved) || n in rest;
    assert forall n :: n in Rev(saved) <==> n in Nodes(saved);
  }

  lemma {:induction false} RevDistinct(s: seq<Device>)
    requires DistinctKeys(s)
    ensures DistinctKeys(Rev(s))
  {
    if s != [] {
      var k := |s| - 1;
      RevDistinct(s[..k]);
      NotLoadedYet(s);
      Cons(s[k], Rev(s[..k]));
    }
  }

  lemma {:induction false} ConcatDistinct(a: seq<Device>, b: seq<Device>)
    requires DistinctKeys(a) && DistinctKeys(b) && forall m, n :: m in a && n in b ==> m.key != n.key
    ensures DistinctKeys(a + b)
  {
  }

  /** Init always leaves a state of the right shape. */
  lemma {:induction false} InitShaped(d: Devices, saved: seq<Device>)
    requires Shaped(d) && Loadable(saved)
    ensures Shaped(InitOf(d, saved))
  {
    LoadSplits(d, saved);
    SplitFits(d, saved);
    LoadedDistinct(d, saved);
    CursorPastLargest(d, saved);
    ValidIdsAfterLoad(d, saved);
  }

  lemma {:induction false} ValidIdsAfterLoad(d: Devices, saved: seq<Device>)
    requires Shaped(d) && Loadable(saved)
    ensures forall x :: x in SplitOf(d, saved).idSet ==> IsValidId(x)
  {
    forall x | x in SplitOf(d, saved).idSet ensures IsValidId(x) { IdsOnlyFrom(d, saved, x); }
  }

  lemma {:induction false} LoadedDistinct(d: Devices, saved: seq<Device>)
    requires DistinctKeys(d.paired) && DistinctKeys(saved)
    ensures DistinctKeys(Rev(saved) + SplitOf(d, saved).rest)
  {
    SplitPartitions(d, saved);
    RevDistinct(saved);
    forall m, n | m in Rev(saved) && n in SplitOf(d, saved).rest ensures m.key != n.key {
      assert m in Nodes(saved) && m.key in KeySet(saved);
    }
    ConcatDistinct(Rev(saved), SplitOf(d, saved).rest);
  }

  /** The cursor stands one past the largest saved id, or at the start. */
  lemma {:induction false} CursorPastLargest(d: Devices, saved: seq<Device>)
    requires forall n :: n in saved ==> IsValidId(n.value)
    ensures var next := Load(d, saved).nextId;
            && MIN_ID <= next <= MAX_ID + 1
            && (forall n :: n in saved ==> n.value < next)
            && (next == MIN_ID || exists n :: n in saved && n.value == next - 1)
    ensures var next := InitOf(d, saved).nextId;
            && IsValidId(next)
            && ((exists n :: n in saved && n.value == MAX_ID) ==> next == MIN_ID)
            && ((forall n :: n in saved ==> n.value != MAX_ID) ==>
                  && (forall n :: n in saved ==> n.value < next)
                  && (next == MIN_ID || exists n :: n in saved && n.value == next - 1))
  {
    if saved != [] {
      var k := |saved| - 1;
      CursorPastLargest(d, saved[..k]);
      assert saved == saved[..k] + [saved[k]] && saved[k] in saved;
      var before := Load(d, saved[..k]).nextId;
      if before >= saved[k].value + 1 && before != MIN_ID {
        var n :| n in saved[..k] && n.value == before - 1;
        assert n in saved;
      }
    }
  }

  lemma {:induction false} OneReported(l: Devices, front: seq<Device>, s: Split, n: Device, c: Callback)
    requires l.paired == front + s.rest
    requires (forall m :: m in front ==> m.key != n.key) && |front| + |s.rest| <= MAX_PAIRED && |front| < MAX_PAIRED
    ensures c in LoadOneCallbacks(l, n) || (c.Forgotten? && Node(c.address, c.id) in s.evicted) <==>
            c.Forgotten? && Node(c.address, c.id) in SplitOne(s, |front|, n).evicted
  {
    PositionBehind(front, s.rest, n.key);
    if s.rest != [] { assert (front + s.rest)[|front| + |s.rest| - 1] == s.rest[|s.rest| - 1]; }
  }

  /** Init reports exactly the devices that have to leave. */
  lemma {:induction false} ReportsEvicted(d: Devices, saved: seq<Device>, c: Callback)
    requires |d.paired| <= MAX_PAIRED && DistinctKeys(saved) && |saved| <= MAX_PAIRED
    ensures c in LoadCallbacks(d, saved) <==> c.Forgotten? && Node(c.address, c.id) in SplitOf(d, saved).evicted
  {
    if saved != [] {
      var k := |saved| - 1;
      ReportsEvicted(d, saved[..k], c);
      LoadSplits(d, saved[..k]);
      SplitFits(d, saved[..k]);
      NotLoadedYet(saved);
      OneReported(Load(d, saved[..k]), Rev(saved[..k]), SplitOf(d, saved[..k]), saved[k], c);
    }
  }

  /**
   Init calls back for devices that were paired before, and for each of them that is
   gone afterwards although the map does not name it.
   */
  lemma {:induction false} InitReports(d: Devices, saved: seq<Device>, n: Device)
    requires Shaped(d) && Loadable(saved)
    ensures forall c :: c in LoadCallbacks(d, saved) ==> c.Forgotten? && Node(c.address, c.id) in d.paired
    ensures n in d.paired && n !in InitOf(d, saved).paired && n.key !in KeySet(saved) ==>
              Forgotten(n.key, n.value) in LoadCallbacks(d, saved)
    ensures Forgotten(n.key, n.value) in LoadCallbacks(d, saved) ==> n !in InitOf(d, saved).paired || n in saved
  {
    LoadSplits(d, saved);
    SplitPartitions(d, saved);
    ReportsEvicted(d, saved, Forgotten(n.key, n.value));
    forall c | c in LoadCallbacks(d, saved) ensures c.Forgotten? && Node(c.address, c.id) in d.paired {
      ReportsEvicted(d, saved, c);
      assert Node(c.address, c.id) in Nodes(d.paired);
    }
    LeavesOrStays(d, saved, n);
  }

  lemma {:induction false} LeavesOrStays(d: Devices, saved: seq<Device>, n: Device)
    requires SplitFacts(d.paired, saved, SplitOf(d, saved))
    requires InitOf(d, saved).paired == Rev(saved) + SplitOf(d, saved).rest
    ensures var s := SplitOf(d, saved);
            && (n in d.paired && n !in InitOf(d, saved).paired && n.key !in KeySet(saved) ==> n in s.evicted)
            && (n in s.evicted ==> n !in InitOf(d, saved).paired || n in saved)
  {
    var s := SplitOf(d, saved);
    assert n in InitOf(d, saved).paired <==> n in Rev(saved) || n in s.rest;
    assert n in Rev(saved) <==> n in Nodes(Rev(saved));
    assert n in d.paired ==> n in Nodes(d.paired);
    assert n in s.rest <==> n in Nodes(s.rest);
  }

  /** What the devices that the map overrides leave behind: their old ids, unless the map gives them to somebody. */
  ghost function LeftStale(d: Devices, saved: seq<Device>): set<int> {
    Ids(SplitOf(d, saved).replaced) - Values(saved)
  }

  lemma {:induction false} HeldBefore(d: Devices, saved: seq<Device>)
    requires DistinctKeys(d.paired)
    ensures var s := SplitOf(d, saved);
            && Held(d) == Others(d, saved) + s.evicted + s.replaced
            && s.evicted <= Nodes(d.paired) && s.replaced <= Nodes(d.paired)
  {
    SplitPartitions(d, saved);
  }

  /** Where an id in the set after Init comes from. */
  lemma {:induction false} IdsOnlyFrom(d: Devices, saved: seq<Device>, x: int)
    requires DistinctKeys(d.paired) && x in SplitOf(d, saved).idSet
    ensures x in Values(saved) || (x in d.idSet && x !in Ids(SplitOf(d, saved).evicted))
  {
    if saved != [] {
      var k := |saved| - 1;
      ValuesPlus(saved);
      if x != saved[k].value {
        NotJustFreed(SplitOf(d, saved[..k]), k, saved[k], x);
        IdsOnlyFrom(d, saved[..k], x);
      }
    }
  }

  lemma {:induction false} NotJustFreed(s: Split, loaded: nat, n: Device, x: int)
    requires x in SplitOne(s, loaded, n).idSet && x != n.value
    ensures x in s.idSet && (x in Ids(SplitOne(s, loaded, n).evicted) ==> x in Ids(s.evicted))
  {
    if SplitOne(s, loaded, n).evicted != s.evicted {
      var tail := s.rest[|s.rest| - 1];
      IdsOfUnion(s.evicted, {tail});
      assert Ids({tail}) == {tail.value};
    }
  }

  /** Init makes no other ids stale than those of overridden devices. */
  lemma {:induction false} InitStale(d: Devices, saved: seq<Device>)
    requires Shaped(d) && Loadable(saved)
    ensures Stale(InitOf(d, saved)) <= Stale(d) + LeftStale(d, saved)
  {
    var d', s := InitOf(d, saved), SplitOf(d, saved);
    HeldAfterInit(d, saved);
    HeldBefore(d, saved);
    IdsOfUnion(Nodes(saved), Others(d, saved));
    IdsOfUnion(Others(d, saved) + s.evicted, s.replaced);
    IdsOfUnion(Others(d, saved), s.evicted);
    forall x | x in Stale(d') ensures x in Stale(d) + LeftStale(d, saved) { IdsOnlyFrom(d, saved, x); }
  }

  /** From a unique state it makes exactly those stale. */
  lemma {:induction false} InitStaleExactly(d: Devices, saved: seq<Device>)
    requires Shaped(d) && Unique(d) && Loadable(saved)
    ensures Stale(InitOf(d, saved)) == LeftStale(d, saved)
  {
    InitStale(d, saved);
    HeldAfterInit(d, saved);
    IdsOfUnion(Nodes(saved), Others(d, saved));
    forall x | x in LeftStale(d, saved) ensures x in Stale(InitOf(d, saved)) { LeftBehind(d, saved, x); }
  }

  lemma {:induction false} LeftBehind(d: Devices, saved: seq<Device>, x: int)
    requires Shaped(d) && Unique(d) && x in LeftStale(d, saved)
    ensures x in SplitOf(d, saved).idSet && x !in Ids(Others(d, saved))
  {
    var r :| r in SplitOf(d, saved).replaced && r.value == x;
    HeldBefore(d, saved);
    SplitPartitions(d, saved);
    StaleStays(d, saved, r);
    forall h | h in Others(d, saved) ensures h.value != x { assert h in Held(d) && r in Held(d) && h != r; }
  }

  /** The id of an overridden device is never taken out of the set. */
  lemma {:induction false} StaleStays(d: Devices, saved: seq<Device>, r: Device)
    requires Shaped(d) && Unique(d) && r in Nodes(d.paired) && r !in SplitOf(d, saved).evicted
    ensures r.value in SplitOf(d, saved).idSet
  {
    if saved == [] {
      assert r in Held(d);
    } else {
      var s, s' := SplitOf(d, saved[..|saved| - 1]), SplitOf(d, saved);
      SplitPartitions(d, saved[..|saved| - 1]);
      StaleStays(d, saved[..|saved| - 1], r);
      if s'.evicted != s.evicted {
        var tail := s.rest[|s.rest| - 1];
        assert tail in Nodes(s.rest) && tail in Held(d) && r in Held(d) && tail != r;
      }
    }
  }

  /**
   The map gives no two devices the same id, none the address of a device that stays
   temporary, and none the id of a device that stays as it is.
   */
  ghost predicate NoClash(d: Devices, saved: seq<Device>) {
    && DistinctIds(saved)
    && (forall n, o :: n in saved && o in Others(d, saved) ==> n.key != o.key && n.value != o.value)
  }

  /**
   Init keeps addresses and ids unique and the id set exact exactly when the map
   does not clash, leaves no stale id, and no eviction takes back a loaded id.
   */
  lemma {:induction false} InitUniqueIff(d: Devices, saved: seq<Device>)
    requires Shaped(d) && Unique(d) && Loadable(saved)
    ensures Unique(InitOf(d, saved)) <==> NoClash(d, saved) && LeftStale(d, saved) == {} && NoneFreedLate(d, saved)
  {
    if Unique(InitOf(d, saved)) { UniqueNeeds(d, saved); }
    if NoClash(d, saved) && LeftStale(d, saved) == {} && NoneFreedLate(d, saved) { StaysUnique(d, saved); }
  }

  lemma {:induction false} UniqueNeeds(d: Devices, saved: seq<Device>)
    requires Shaped(d) && Unique(d) && Loadable(saved) && Unique(InitOf(d, saved))
    ensures NoClash(d, saved) && LeftStale(d, saved) == {} && NoneFreedLate(d, saved)
  {
    UniqueNeedsNoClash(d, saved);
    HeldAfterInit(d, saved);
    IdsOfUnion(Nodes(saved), Others(d, saved));
    AllThereMeansNoneLate(d, saved);
    InitStaleExactly(d, saved);
  }

  lemma {:induction false} UniqueNeedsNoClash(d: Devices, saved: seq<Device>)
    requires Shaped(d) && Loadable(saved) && Unique(InitOf(d, saved))
    ensures NoClash(d, saved)
  {
    HeldAfterInit(d, saved);
    forall i, j | 0 <= i < j < |saved| ensures saved[i].value != saved[j].value {
      SavedTwice(InitOf(d, saved), saved, i, j);
    }
    forall n, o | n in saved && o in Others(d, saved) ensures n.key != o.key && n.value != o.value {
      SavedAndOther(d, saved, n, o);
    }
  }

  lemma {:induction false} SavedTwice(d: Devices, saved: seq<Device>, i: nat, j: nat)
    requires Unique(d) && Nodes(saved) <= Held(d) && DistinctKeys(saved) && i < j < |saved|
    ensures saved[i].value != saved[j].value
  {
    assert saved[i] in Nodes(saved) && saved[j] in Nodes(saved) && saved[i].key != saved[j].key;
  }

  lemma {:induction false} SavedAndOther(d: Devices, saved: seq<Device>, n: Device, o: Device)
    requires Shaped(d) && Loadable(saved) && Unique(InitOf(d, saved)) && n in saved && o in Others(d, saved)
    ensures n.key != o.key && n.value != o.value
  {
    HeldAfterInit(d, saved);
    SplitPartitions(d, saved);
    assert n in Nodes(saved) && n.key in KeySet(saved);
    assert n in Held(InitOf(d, saved)) && o in Held(InitOf(d, saved));
  }

  lemma {:induction false} StaysUnique(d: Devices, saved: seq<Device>)
    requires Shaped(d) && Unique(d) && Loadable(saved)
    requires NoClash(d, saved) && LeftStale(d, saved) == {} && NoneFreedLate(d, saved)
    ensures Unique(InitOf(d, saved))
  {
    HeldAfterInit(d, saved);
    IdsExact(d, saved);
    AllApart(d, saved);
  }

  lemma {:induction false} AllApart(d: Devices, saved: seq<Device>)
    requires Shaped(d) && Unique(d) && Loadable(saved) && NoClash(d, saved)
    ensures var all := Nodes(saved) + Others(d, saved);
            && (forall m, n :: m in all && n in all && m != n ==> m.key != n.key && m.value != n.value)
            && (forall n :: n in all ==> IsValidId(n.value))
            && (Nodes(saved) + Nodes(SplitOf(d, saved).rest)) !! Nodes(d.temporary)
  {
    var all := Nodes(saved) + Others(d, saved);
    forall m, n | m in all && n in all && m != n ensures m.key != n.key && m.value != n.value {
      PairApart(d, saved, m, n);
    }
    HeldBefore(d, saved);
    forall n | n in Nodes(d.temporary) ensures n !in Nodes(saved) && n !in Nodes(SplitOf(d, saved).rest) {
      TemporaryApart(d, saved, n);
    }
  }

  lemma {:induction false} TemporaryApart(d: Devices, saved: seq<Device>, n: Device)
    requires Shaped(d) && Unique(d) && Loadable(saved) && NoClash(d, saved) && n in Nodes(d.temporary)
    ensures n !in Nodes(saved) && n !in Nodes(SplitOf(d, saved).rest)
  {
    SplitPartitions(d, saved);
    assert n in Others(d, saved);
  }

  lemma {:induction false} PairApart(d: Devices, saved: seq<Device>, m: Device, n: Device)
    requires Shaped(d) && Unique(d) && Loadable(saved) && NoClash(d, saved) && m != n
    requires m in Nodes(saved) + Others(d, saved) && n in Nodes(saved) + Others(d, saved)
    ensures m.key != n.key && m.value != n.value
  {
    if m in Nodes(saved) && n in Nodes(saved) {
      SavedApart(saved, m, n);
    } else if m !in Nodes(saved) && n !in Nodes(saved) {
      HeldBefore(d, saved);
      assert m in Held(d) && n in Held(d);
    }
  }

  lemma {:induction false} SavedApart(saved: seq<Device>, m: Device, n: Device)
    requires DistinctKeys(saved) && DistinctIds(saved) && m in saved && n in saved && m != n
    ensures m.key != n.key && m.value != n.value
  {
    var i :| 0 <= i < |saved| && saved[i] == m;
    var j :| 0 <= j < |saved| && saved[j] == n;
  }

  lemma {:induction false} IdsExact(d: Devices, saved: seq<Device>)
    requires Shaped(d) && Unique(d) && Loadable(saved) && LeftStale(d, saved) == {} && NoneFreedLate(d, saved)
    ensures InitOf(d, saved).idSet == Values(saved) + Ids(Others(d, saved)) == Ids(Nodes(saved) + Others(d, saved))
  {
    var s := SplitOf(d, saved);
    HeldAfterInit(d, saved);
    HeldBefore(d, saved);
    SplitPartitions(d, saved);
    IdsAfterLoad(d, saved);
    IdsOfUnion(Nodes(saved), Others(d, saved));
    IdsOfUnion(Others(d, saved) + s.evicted, s.replaced);
    IdsOfUnion(Others(d, saved), s.evicted);
    forall x | x in Ids(Others(d, saved)) ensures x !in Ids(s.evicted) {
      var o :| o in Others(d, saved) && o.value == x;
      forall e | e in s.evicted ensures e.value != x { assert o in Held(d) && e in Held(d) && o != e; }
    }
  }

  // ---------- when there is room for everybody ----------

  /** The map and the devices paired before fit into the cache together. */
  ghost predicate Room(d: Devices, saved: seq<Device>) {
    |KeySet(saved) + KeySet(d.paired)| <= MAX_PAIRED
  }

  lemma {:induction false} NobodyLeaves(d: Devices, saved: seq<Device>, all: set<RawAddress>)
    requires DistinctKeys(d.paired) && DistinctKeys(saved)
    requires KeySet(saved) <= all && KeySet(d.paired) <= all && |all| <= MAX_PAIRED
    ensures SplitOf(d, saved).evicted == {} && NoneFreedLate(d, saved)
  {
    if saved != [] {
      var k := |saved| - 1;
      assert saved == saved[..k] + [saved[k]];
      NobodyLeaves(d, saved[..k], all);
      SplitPartitions(d, saved[..k]);
      var rest := SplitOf(d, saved[..k]).rest;
      if Lookup(rest, saved[k].key).None? {
        forall n | n in rest ensures n.key in all { assert n in Nodes(d.paired); }
        RoomForOne(saved, k, rest, all);
      }
    }
  }

  lemma {:induction false} RoomForOne(saved: seq<Device>, k: nat, rest: seq<Device>, all: set<RawAddress>)
    requires k < |saved| && DistinctKeys(saved) && DistinctKeys(rest) && Lookup(rest, saved[k].key).None?
    requires forall n :: n in rest ==> n.key !in KeySet(saved[..k]) && n.key in all
    requires KeySet(saved) <= all
    ensures k + |rest| < |all|
  {
    KeySetSize(saved[..k]);
    KeySetSize(rest);
    var before := KeySet(saved[..k]) + KeySet(rest);
    assert |before| == k + |rest|;
    forall n | n in saved[..k] ensures n in saved && n.key != saved[k].key {
      var i :| 0 <= i < k && saved[i] == n;
    }
    assert saved[k] in saved;
    assert saved[k].key !in before && before + {saved[k].key} <= all;
    Subset(before + {saved[k].key}, all);
  }

  /**
   The condition on the map then, in terms of what is held before: distinct ids;
   nobody's id given to a new address; and a known address only if it is paired and
   its old id is given to somebody.
   */
  ghost predicate Compatible(d: Devices, saved: seq<Device>) {
    && DistinctIds(saved)
    && (forall o :: o in Held(d) && o.key !in KeySet(saved) ==> o.value !in Values(saved))
    && (forall o :: o in Held(d) && o.key in KeySet(saved) ==> o in d.paired && o.value in Values(saved))
  }

  /** With room for everybody, Init keeps uniqueness exactly for compatible maps. */
  lemma {:induction false} InitUniqueWithRoom(d: Devices, saved: seq<Device>)
    requires Shaped(d) && Unique(d) && Loadable(saved) && Room(d, saved)
    ensures Unique(InitOf(d, saved)) <==> Compatible(d, saved)
  {
    NobodyLeaves(d, saved, KeySet(saved) + KeySet(d.paired));
    InitUniqueIff(d, saved);
    SplitPartitions(d, saved);
    HeldBefore(d, saved);
    if NoClash(d, saved) && LeftStale(d, saved) == {} { CompatibleWhenClean(d, saved); }
    if Compatible(d, saved) { CleanWhenCompatible(d, saved); }
  }

  lemma {:induction false} CompatibleWhenClean(d: Devices, saved: seq<Device>)
    requires Unique(d) && SplitFacts(d.paired, saved, SplitOf(d, saved)) && SplitOf(d, saved).evicted == {}
    requires NoClash(d, saved) && LeftStale(d, saved) == {}
    ensures Compatible(d, saved)
  {
    forall o | o in Held(d) && o.key !in KeySet(saved) ensures o.value !in Values(saved) {
      assert o in Others(d, saved);
    }
    forall o | o in Held(d) && o.key in KeySet(saved) ensures o in d.paired && o.value in Values(saved) {
      assert o in Nodes(d.temporary) ==> o in Others(d, saved);
      assert o in SplitOf(d, saved).replaced && o.value !in LeftStale(d, saved);
    }
  }

  lemma {:induction false} CleanWhenCompatible(d: Devices, saved: seq<Device>)
    requires Unique(d) && SplitFacts(d.paired, saved, SplitOf(d, saved)) && SplitOf(d, saved).evicted == {}
    requires Compatible(d, saved)
    ensures NoClash(d, saved) && LeftStale(d, saved) == {}
  {
    forall n, o | n in saved && o in Others(d, saved) ensures n.key != o.key && n.value != o.value {
      assert o in Held(d) && n in Nodes(saved) && n.key in KeySet(saved) && n.value in Values(saved);
      assert o in Nodes(d.temporary) ==> o !in Nodes(d.paired);
    }
    forall r | r in SplitOf(d, saved).replaced ensures r.value in Values(saved) { assert r in Held(d); }
    assert LeftStale(d, saved) == {};
  }

  // ---------- starting from nothing ----------

  /** A new allocator, or one that Close has emptied. */
  predicate Blank(d: Devices) {
    d.paired == [] && d.temporary == [] && d.idSet == {}
  }

  lemma {:induction false} InitFromBlank(d: Devices, saved: seq<Device>)
    requires Blank(d) && IsValidId(d.nextId) && Loadable(saved)
    ensures var d' := InitOf(d, saved);
            && Sound(d') && AsMap(d'.paired) == AsMap(saved) && d'.temporary == []
            && (Unique(d') <==> DistinctIds(saved))
  {
    BlankSound(d, saved);
    BlankLoads(d, saved);
    BlankUnique(d, saved);
  }

  lemma {:induction false} BlankSound(d: Devices, saved: seq<Device>)
    requires Blank(d) && IsValidId(d.nextId) && Loadable(saved)
    ensures Sound(InitOf(d, saved))
  {
    BlankSplit(d, saved);
    InitShaped(d, saved);
    InitStale(d, saved);
    assert Stale(InitOf(d, saved)) == {};
  }

  lemma {:induction false} BlankLoads(d: Devices, saved: seq<Device>)
    requires Blank(d) && IsValidId(d.nextId) && Loadable(saved)
    ensures AsMap(InitOf(d, saved).paired) == AsMap(saved) && InitOf(d, saved).temporary == []
  {
    BlankSplit(d, saved);
    HeldAfterInit(d, saved);
    InitShaped(d, saved);
    SameNodesSameMap(saved, InitOf(d, saved).paired);
  }

  lemma {:induction false} BlankSplit(d: Devices, saved: seq<Device>)
    requires Blank(d)
    ensures var s := SplitOf(d, saved); s.rest == [] && s.replaced == {} && Others(d, saved) == {}
    ensures Sound(d) <==> IsValidId(d.nextId)
    ensures Unique(d)
  {
    SplitPartitions(d, saved);
    BlankRest(d, saved);
  }

  lemma {:induction false} BlankRest(d: Devices, saved: seq<Device>)
    requires d.paired == []
    ensures SplitOf(d, saved).rest == []
  {
    if saved != [] { BlankRest(d, saved[..|saved| - 1]); }
  }

  lemma {:induction false} BlankUnique(d: Devices, saved: seq<Device>)
    requires Blank(d) && IsValidId(d.nextId) && Loadable(saved)
    ensures Unique(InitOf(d, saved)) <==> DistinctIds(saved)
  {
    BlankSplit(d, saved);
    KeySetSize(saved);
    assert KeySet(saved) + KeySet(d.paired) == KeySet(saved);
    InitUniqueWithRoom(d, saved);
  }

  /**
   After Init of an empty allocator with distinct valid ids every call of every run
   returns, addresses and ids stay unique and the id set exact.
   */
  lemma {:induction false} AlwaysUnique(d: Devices, saved: seq<Device>, ops: seq<DeviceOp>)
    requires Blank(d) && IsValidId(d.nextId) && Loadable(saved) && DistinctIds(saved)
    ensures Completes(InitOf(d, saved), ops)
    ensures var end := DeviceRun(InitOf(d, saved), ops); Sound(end) && Unique(end)
  {
    InitFromBlank(d, saved);
    SoundCompletes(InitOf(d, saved), ops);
    RunKeeps(InitOf(d, saved), ops);
  }

  lemma {:induction false} SavedIdsAreGood(d: Devices, again: seq<Device>)
    requires Shaped(d) && Unique(d) && DistinctKeys(again) && Submap(AsMap(again), AsMap(d.paired))
    ensures Loadable(again) && DistinctIds(again)
  {
    MapSize(d.paired);
    MapSize(again);
    Subset(AsMap(again).Keys, AsMap(d.paired).Keys);
    forall n | n in again ensures n in Held(d) {
      NodesOfMap(again, n);
      NodesOfMap(d.paired, n);
      assert n in Nodes(d.paired);
    }
    forall i, j | 0 <= i < j < |again| ensures again[i].value != again[j].value {
      assert again[i] in again && again[j] in again && again[i].key != again[j].key;
    }
  }

  /**
   From Init with distinct ids through any run, Close, and Init from what reached the
   disk: the second Init succeeds, ids are unique again, every device on the disk
   has the id it had, and if no save was refused, every paired device is on the disk.
   */
  lemma {:induction false} RestartKeepsIds(
      start: Devices, saved: seq<Device>, ops: seq<DeviceOp>, closed: Devices, again: seq<Device>)
    requires Blank(start) && IsValidId(start.nextId) && Loadable(saved) && DistinctIds(saved)
    requires Blank(closed) && IsValidId(closed.nextId) && DistinctKeys(again)
    ensures Completes(InitOf(start, saved), ops)
    ensures AsMap(again) == ReplayAccepted(AsMap(saved), RunCallbacks(InitOf(start, saved), ops)) ==>
              && Loadable(again) && DistinctIds(again)
              && Resumes(DeviceRun(InitOf(start, saved), ops), InitOf(closed, again), again)
              && ((forall c :: c in RunCallbacks(InitOf(start, saved), ops) && c.Saved? ==> c.accepted) ==>
                    AsMap(again) == AsMap(DeviceRun(InitOf(start, saved), ops).paired))
  {
    var d := InitOf(start, saved);
    InitFromBlank(start, saved);
    AlwaysUnique(start, saved, ops);
    var end, calls := DeviceRun(d, ops), RunCallbacks(d, ops);
    FailedSavesOnlyLose(AsMap(saved), d, ops);
    if AsMap(again) == ReplayAccepted(AsMap(saved), calls) {
      ResumesFromDisk(end, closed, again);
      if forall c :: c in calls && c.Saved? ==> c.accepted {
        AcceptedIsAll(AsMap(saved), calls);
        RunMirrors(d, ops);
      }
    }
  }

  /** After the restart every device on the disk is answered as before. */
  ghost predicate Resumes(before: Devices, after: Devices, disk: seq<Device>) {
    && Sound(after) && Unique(after)
    && forall a :: a in AsMap(disk) ==>
         Answers(after, a) && Answers(before, a) && AllocatedId(after, a) == AsMap(disk)[a] == AllocatedId(before, a)
  }

  lemma {:induction false} ResumesFromDisk(before: Devices, closed: Devices, disk: seq<Device>)
    requires Shaped(before) && Unique(before) && Blank(closed) && IsValidId(closed.nextId)
    requires DistinctKeys(disk) && Submap(AsMap(disk), AsMap(before.paired))
    ensures Loadable(disk) && DistinctIds(disk) && Resumes(before, InitOf(closed, disk), disk)
  {
    SavedIdsAreGood(before, disk);
    InitFromBlank(closed, disk);
    forall a | a in AsMap(disk)
      ensures Answers(InitOf(closed, disk), a) && AllocatedId(InitOf(closed, disk), a) == AsMap(disk)[a]
      ensures Answers(before, a) && AllocatedId(before, a) == AsMap(disk)[a]
    {
      AnswersFromPaired(InitOf(closed, disk), a);
      AnswersFromPaired(before, a);
    }
  }

  // ---------- maps that Init should not have accepted ----------

  /** Two addresses share an id; forgetting one of them then frees the id of the other. */
  lemma {:induction false} SharedIdBreaksUniqueness()
    ensures var saved := [Node(RawAddress(1), 7), Node(RawAddress(2), 7)]; var d := InitOf(CLOSED, saved);
            && Loadable(saved) && !Unique(d) && Sound(d)
            && 7 !in Forget(d, RawAddress(1)).idSet && Node(RawAddress(2), 7) in Held(Forget(d, RawAddress(1)))
  {
    var saved := [Node(RawAddress(1), 7), Node(RawAddress(2), 7)];
    assert saved[0].value == saved[1].value;
    InitFromBlank(CLOSED, saved);
    SharedIdFreed(saved, InitOf(CLOSED, saved));
  }

  lemma {:induction false} SharedIdFreed(saved: seq<Device>, d: Devices)
    requires saved == [Node(RawAddress(1), 7), Node(RawAddress(2), 7)]
    requires Shaped(d) && DistinctKeys(saved) && AsMap(d.paired) == AsMap(saved)
    ensures 7 !in Forget(d, RawAddress(1)).idSet && Node(RawAddress(2), 7) in Held(Forget(d, RawAddress(1)))
  {
    forall i | 0 <= i < 2 ensures saved[i] in d.paired && Lookup(d.paired, saved[i].key) == Some(7) {
      NodesOfMap(saved, saved[i]);
      NodesOfMap(d.paired, saved[i]);
      NodeIsLookup(d.paired, saved[i]);
    }
    ForgetNodes(d, RawAddress(1));
    assert saved[1] in Nodes(d.paired);
  }
}
