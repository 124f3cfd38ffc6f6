/**
 The whole life of a MetricIdAllocator: when every call returns, and what any
 sequence of Init, Close and the calls in between leaves.
 */
module MetricIdLife {
  import opened Options
  import opened LruModel
  import opened MetricIdModel
  import opened MetricIdInit

  // ---------- when every call of every run returns ----------

  lemma {:induction false} CompletesConcat(d: Devices, a: seq<DeviceOp>, b: seq<DeviceOp>)
    requires Completes(d, a)
    ensures Completes(d, a + b) <==> Completes(DeviceRun(d, a), b)
    ensures Completes(d, a + b) ==> DeviceRun(d, a + b) == DeviceRun(DeviceRun(d, a), b)
    decreases |a|
  {
    if a == [] {
      assert a + b == b;
    } else {
      assert (a + b)[0] == a[0] && (a + b)[1..] == a[1..] + b;
      CompletesConcat(DeviceStep(d, a[0]), a[1..], b);
    }
  }

  lemma {:induction false} First(d: Devices, op: DeviceOp, rest: seq<DeviceOp>)
    requires Returns(d, op)
    ensures Completes(d, [op] + rest) <==> Completes(DeviceStep(d, op), rest)
    ensures Completes(d, [op] + rest) ==> DeviceRun(d, [op] + rest) == DeviceRun(DeviceStep(d, op), rest)
  {
    assert ([op] + rest)[1..] == rest;
  }

  /** Forgetting the paired devices, and pairing and forgetting the temporary ones, empties both caches. */
  lemma {:induction false} EmptyOut(d: Devices) returns (ops: seq<DeviceOp>)
    requires Shaped(d)
    ensures Completes(d, ops) && DeviceRun(d, ops).paired == [] == DeviceRun(d, ops).temporary
    decreases 2 * |d.temporary| + |d.paired|
  {
    if d.paired != [] {
      var op := ForgetDevice(d.paired[0].key);
      ForgetsFirst(d);
      StepKeeps(d, op);
      ops := EmptyOut(DeviceStep(d, op));
      First(d, op, ops);
      ops := [op] + ops;
    } else if d.temporary != [] {
      var op := SaveDevice(d.temporary[0].key, true);
      SavesFirst(d);
      StepKeeps(d, op);
      ops := EmptyOut(DeviceStep(d, op));
      First(d, op, ops);
      ops := [op] + ops;
    } else {
      ops := [];
    }
  }

  lemma {:induction false} ForgetsFirst(d: Devices)
    requires d.paired != []
    ensures var d' := Forget(d, d.paired[0].key); |d'.paired| < |d.paired| && d'.temporary == d.temporary
  {
    assert Position(d.paired, d.paired[0].key) == 0;
  }

  lemma {:induction false} SavesFirst(d: Devices)
    requires d.paired == [] && d.temporary != []
    ensures var d' := Save(d, d.temporary[0].key); |d'.paired| == 1 && |d'.temporary| == |d.temporary| - 1
  {
    assert Position(d.temporary, d.temporary[0].key) == 0;
  }

  ghost function Addresses(n: nat): (s: set<RawAddress>)
    ensures |s| == n && forall a :: a in s <==> 1 <= a.octets <= n
  {
    if n == 0 then {} else Addresses(n - 1) + {RawAddress(n)}
  }

  /** Among the first addresses there is one that neither cache holds. */
  lemma {:induction false} NewAddress(d: Devices) returns (a: RawAddress)
    requires Shaped(d)
    ensures !Known(d, a)
  {
    var known, n := KeySet(d.paired) + KeySet(d.temporary), |d.paired| + |d.temporary| + 1;
    KeySetSize(d.paired);
    KeySetSize(d.temporary);
    if Addresses(n) <= known { Subset(Addresses(n), known); }
    a :| a in Addresses(n) && a !in known;
    forall m | m in d.paired || m in d.temporary ensures m.key != a { assert m.key in known; }
  }

  lemma {:induction false} ManyNodes(s: seq<Device>)
    requires DistinctKeys(s)
    ensures |Nodes(s)| == |s|
  {
    if s != [] {
      assert s == [s[0]] + s[1..];
      Cons(s[0], s[1..]);
      ManyNodes(s[1..]);
      assert s[0] !in Nodes(s[1..]);
    }
  }

  lemma {:induction false} ManyIds(devices: set<Device>)
    requires forall m, n :: m in devices && n in devices && m != n ==> m.value != n.value
    ensures |Ids(devices)| == |devices|
  {
    if devices != {} {
      var n :| n in devices;
      var rest := devices - {n};
      ManyIds(rest);
      assert devices == rest + {n};
      IdsOfUnion(rest, {n});
      assert Ids({n}) == {n.value} && n.value !in Ids(rest);
    }
  }

  ghost function UpTo(n: nat): (s: set<int>)
    ensures |s| == n && forall i :: i in s <==> 1 <= i <= n
  {
    if n == 0 then {} else UpTo(n - 1) + {n as int}
  }

  /** A set of valid ids that is as large as the range is the range. */
  lemma {:induction false} AllTaken(ids: set<int>)
    requires (forall id :: id in ids ==> IsValidId(id)) && |ids| >= ID_COUNT
    ensures !HasFree(ids)
  {
    var n: nat :| n == MAX_ID;
    forall id | IsValidId(id) ensures id in ids { OneMissing(ids, n, id); }
  }

  lemma {:induction false} OneMissing(ids: set<int>, n: nat, id: int)
    requires (forall x :: x in ids ==> 1 <= x <= n) && 1 <= id <= n
    ensures id !in ids ==> |ids| < n
  {
    if id !in ids { Subset(ids, UpTo(n) - {id}); }
  }

  /** With both caches full and more stale ids than there are to spare, every id is taken. */
  lemma {:induction false} FullIsStuck(d: Devices)
    requires Shaped(d) && Tidy(d) && SPARE_IDS < |Stale(d)|
    requires |d.paired| == MAX_PAIRED && |d.temporary| == MAX_UNPAIRED
    ensures !HasFree(d.idSet)
  {
    ManyNodes(d.paired);
    ManyNodes(d.temporary);
    ManyIds(Held(d));
    assert |Held(d)| == |Nodes(d.paired)| + |Nodes(d.temporary)|;
    assert Ids(Held(d)) !! Stale(d);
    Subset(Ids(Held(d)) + Stale(d), d.idSet);
    AllTaken(d.idSet);
  }

  /** Finding and pairing new devices until both caches are full gets stuck. */
  lemma {:induction false} GetStuck(d: Devices) returns (ops: seq<DeviceOp>)
    requires Shaped(d) && Tidy(d) && SPARE_IDS < |Stale(d)|
    ensures !Completes(d, ops)
    decreases MAX_PAIRED - |d.paired|, MAX_UNPAIRED - |d.temporary|
  {
    var a := NewAddress(d);
    var find, pair := AllocateId(a), SaveDevice(a, true);
    if !HasFree(d.idSet) {
      ops := [find];
    } else if |d.paired| < MAX_PAIRED {
      AllocateKeeps(d, a);
      SaveKeeps(Allocated(d, a), a);
      OneMorePaired(d, a);
      ops := GetStuck(Save(Allocated(d, a), a));
      First(Allocated(d, a), pair, ops);
      First(d, find, [pair] + ops);
      ops := [find] + ([pair] + ops);
    } else {
      if |d.temporary| == MAX_UNPAIRED { FullIsStuck(d); }
      AllocateKeeps(d, a);
      OneMoreTemporary(d, a);
      ops := GetStuck(Allocated(d, a));
      First(d, find, ops);
      ops := [find] + ops;
    }
  }

  lemma {:induction false} OneMorePaired(d: Devices, a: RawAddress)
    requires !Known(d, a) && IsValidId(d.nextId) && HasFree(d.idSet) && |d.paired| < MAX_PAIRED
    ensures |Save(Allocated(d, a), a).paired| == |d.paired| + 1
  {
    var d' := Allocated(d, a);
    assert d'.temporary[0].key == a && Position(d'.temporary, a) == 0;
  }

  lemma {:induction false} OneMoreTemporary(d: Devices, a: RawAddress)
    requires !Known(d, a) && IsValidId(d.nextId) && HasFree(d.idSet) && |d.temporary| < MAX_UNPAIRED
    ensures |Allocated(d, a).temporary| == |d.temporary| + 1 && Allocated(d, a).paired == d.paired
  {
  }

  /** From every state the code can be in, every call of every run returns exactly when at most 333 ids are stale. */
  lemma {:induction false} EveryRunReturnsIff(d: Devices)
    requires Shaped(d)
    ensures (forall ops :: Completes(d, ops)) <==> |Stale(d)| <= SPARE_IDS
  {
    if |Stale(d)| <= SPARE_IDS {
      forall ops ensures Completes(d, ops) { SoundCompletes(d, ops); }
    } else {
      var first := EmptyOut(d);
      RunKeeps(d, first);
      var second := GetStuck(DeviceRun(d, first));
      CompletesConcat(d, first, second);
    }
  }

  /** After Init from a unique state: exactly when the map leaves at most that many stale ids behind. */
  lemma {:induction false} EveryRunReturnsAfterInitIff(d: Devices, saved: seq<Device>)
    requires Shaped(d) && Unique(d) && Loadable(saved)
    ensures (forall ops :: Completes(InitOf(d, saved), ops)) <==> |LeftStale(d, saved)| <= SPARE_IDS
  {
    InitShaped(d, saved);
    InitStaleExactly(d, saved);
    EveryRunReturnsIff(InitOf(d, saved));
  }

  // ---------- the life of an allocator ----------

  datatype Allocator = Allocator(devices: Devices, initialized: bool, callbacksSet: bool)

  datatype Call = Use(op: DeviceOp) | OnInit(saved: seq<Device>) | OnClose

  const NEW := Allocator(CLOSED, false, false)

  /** The call returns, and makes no callback that was never set. */
  ghost predicate Defined(al: Allocator, call: Call) {
    match call
    case Use(op) =>
      Returns(al.devices, op) &&
      (op.SaveDevice? ==> al.callbacksSet || Lookup(al.devices.temporary, op.address).None?)
    case OnInit(saved) => DistinctKeys(saved) && (al.initialized || Loadable(saved))
    case OnClose => true
  }

  ghost function After(al: Allocator, call: Call): Allocator
    requires Defined(al, call)
  {
    match call
    case Use(op) => al.(devices := DeviceStep(al.devices, op))
    case OnInit(saved) => if al.initialized then al else Allocator(InitOf(al.devices, saved), true, true)
    case OnClose =>
      if !al.initialized then al else al.(devices := CLOSED.(nextId := al.devices.nextId), initialized := false)
  }

  /** A new allocator after these calls, or None when one of them was not defined. */
  ghost function Life(calls: seq<Call>): Option<Allocator> {
    if calls == [] then Some(NEW)
    else
      var before, call := Life(calls[..|calls| - 1]), calls[|calls| - 1];
      if before.Some? && Defined(before.value, call) then Some(After(before.value, call)) else None
  }

  ghost predicate WellFormed(al: Allocator) {
    && Shaped(al.devices)
    && (al.initialized ==> al.callbacksSet)
    && (!al.callbacksSet ==> al.devices.paired == [])
  }

  /** In every life the caches keep their bounds, ids are valid, and nothing is paired without callbacks. */
  lemma {:induction false} AlwaysWellFormed(calls: seq<Call>)
    requires Life(calls).Some?
    ensures WellFormed(Life(calls).value)
  {
    if calls != [] {
      AlwaysWellFormed(calls[..|calls| - 1]);
      CallKeepsForm(Life(calls[..|calls| - 1]).value, calls[|calls| - 1]);
    }
  }

  lemma {:induction false} CallKeepsForm(al: Allocator, call: Call)
    requires WellFormed(al) && Defined(al, call)
    ensures WellFormed(After(al, call))
  {
    match call
    case Use(op) =>
      StepKeeps(al.devices, op);
      if !al.callbacksSet { NothingPaired(al.devices, op); }
    case OnInit(saved) => if !al.initialized { InitShaped(al.devices, saved); }
    case OnClose =>
  }

  lemma {:induction false} NothingPaired(d: Devices, op: DeviceOp)
    requires d.paired == [] && Returns(d, op) && (op.SaveDevice? ==> Lookup(d.temporary, op.address).None?)
    ensures DeviceStep(d, op).paired == []
  {
    assert Lookup(d.paired, op.address).None?;
  }

  /** The maps that keep uniqueness in the state in which Init gets them. */
  ghost predicate Good(d: Devices, saved: seq<Device>) {
    NoClash(d, saved) && LeftStale(d, saved) == {} && NoneFreedLate(d, saved)
  }

  /** Every Init that took effect was given a good map. */
  ghost predicate GoodInits(calls: seq<Call>)
    requires Life(calls).Some?
  {
    calls != [] ==>
      var before, call := calls[..|calls| - 1], calls[|calls| - 1];
      && GoodInits(before)
      && (call.OnInit? && !Life(before).value.initialized ==> Good(Life(before).value.devices, call.saved))
  }

  /** At every point of the life no two devices share an address or an id, and the id set is exact. */
  ghost predicate UniqueThroughout(calls: seq<Call>)
    requires Life(calls).Some?
  {
    Unique(Life(calls).value.devices) && (calls != [] ==> UniqueThroughout(calls[..|calls| - 1]))
  }

  /** Over whole lives uniqueness holds throughout exactly when every Init was given a good map. */
  lemma {:induction false} UniqueThroughoutIff(calls: seq<Call>)
    requires Life(calls).Some?
    ensures UniqueThroughout(calls) <==> GoodInits(calls)
  {
    if calls != [] {
      var before, call := calls[..|calls| - 1], calls[|calls| - 1];
      UniqueThroughoutIff(before);
      AlwaysWellFormed(before);
      if GoodInits(before) { StaysUniqueIff(Life(before).value, call); }
    }
  }

  lemma {:induction false} StaysUniqueIff(al: Allocator, call: Call)
    requires WellFormed(al) && Unique(al.devices) && Defined(al, call)
    ensures Unique(After(al, call).devices) <==>
            (call.OnInit? && !al.initialized ==> Good(al.devices, call.saved))
  {
    match call
    case Use(op) => StepKeeps(al.devices, op);
    case OnInit(saved) => if !al.initialized { InitUniqueIff(al.devices, saved); }
    case OnClose =>
  }

  /** And in such a life every call that the callbacks allow returns. */
  lemma {:induction false} GoodLifeReturns(calls: seq<Call>, op: DeviceOp)
    requires Life(calls).Some? && GoodInits(calls)
    ensures Returns(Life(calls).value.devices, op)
  {
    UniqueThroughoutIff(calls);
    AlwaysWellFormed(calls);
    assert Stale(Life(calls).value.devices) == {};
    FreeIdExists(Life(calls).value.devices);
  }

  lemma {:induction false} Then(calls: seq<Call>, call: Call)
    requires Life(calls).Some? && Defined(Life(calls).value, call)
    ensures Life(calls + [call]) == Some(After(Life(calls).value, call))
  {
    assert (calls + [call])[..|calls|] == calls;
  }

  // ---------- lives in which an Init goes wrong ----------

  ghost function Descending(n: nat): (s: seq<Device>)
    ensures |s| == n && forall i :: 0 <= i < n ==> s[i] == Node(RawAddress(n - i), n - i)
  {
    if n == 0 then [] else [Node(RawAddress(n), n)] + Descending(n - 1)
  }

  /** The devices 1 to n, paired in this order. */
  ghost function PairedUp(n: nat): Devices {
    Devices(Descending(n), [], UpTo(n), n + 1)
  }

  lemma {:induction false} DescendingIds(n: nat)
    ensures DistinctKeys(Descending(n)) && Ids(Nodes(Descending(n))) == UpTo(n)
    ensures forall m :: m in Nodes(Descending(n)) ==> m.key == RawAddress(m.value) && 1 <= m.value <= n
  {
    var s := Descending(n);
    forall m | m in Nodes(s) ensures m.key == RawAddress(m.value) && 1 <= m.value <= n {
      var i :| 0 <= i < n && s[i] == m;
    }
    forall x | x in UpTo(n) ensures x in Ids(Nodes(s)) { assert s[n - x] in Nodes(s); }
  }

  lemma {:induction false} PairedUpUnique(n: nat)
    requires n <= MAX_PAIRED
    ensures Shaped(PairedUp(n)) && Unique(PairedUp(n)) && HasFree(PairedUp(n).idSet)
  {
    DescendingIds(n);
    NumberedDevices(PairedUp(n));
    assert n + 1 !in PairedUp(n).idSet;
  }

  lemma {:induction false} NumberedDevices(d: Devices)
    requires d.temporary == [] && DistinctKeys(d.paired) && |d.paired| <= MAX_PAIRED && IsValidId(d.nextId)
    requires d.idSet == Ids(Nodes(d.paired))
    requires forall m :: m in Nodes(d.paired) ==> IsValidId(m.value) && m.key == RawAddress(m.value)
    ensures Shaped(d) && Unique(d)
  {
    assert Held(d) == Nodes(d.paired);
  }

  lemma {:induction false} FindsNext(d: Devices, a: RawAddress)
    requires d.temporary == [] && Lookup(d.paired, a).None? && IsValidId(d.nextId) && d.nextId !in d.idSet
    ensures Answers(d, a)
    ensures Allocated(d, a) == Devices(d.paired, [Node(a, d.nextId)], d.idSet + {d.nextId}, Advanced(d.nextId))
  {
    assert Lookup(d.temporary, a).None?;
    FirstFreeIsUnique(d.idSet, d.nextId, NextFree(d.idSet, d.nextId), d.nextId);
    assert Inserted(MAX_UNPAIRED, d.temporary, a, d.nextId) == [Node(a, d.nextId)];
  }

  lemma {:induction false} PairsNext(paired: seq<Device>, n: Device, ids: set<int>, next: int)
    requires Lookup(paired, n.key).None? && |paired| < MAX_PAIRED
    ensures Save(Devices(paired, [n], ids, next), n.key) == Devices([n] + paired, [], ids, next)
  {
    assert Position([n], n.key) == 0 && Lookup([n], n.key) == Some(n.value) && Without([n], n.key) == [];
  }

  /** Init of an empty map and Close leave an empty allocator that has its callbacks; devices can then be paired. */
  lemma {:induction false} PairWhileClosed(n: nat) returns (calls: seq<Call>)
    requires n <= MAX_PAIRED
    ensures Life(calls) == Some(Allocator(PairedUp(n), false, true))
  {
    if n == 0 {
      assert Life([]) == Some(NEW);
      Then([], OnInit([]));
      calls := [] + [OnInit([])];
      Then(calls, OnClose);
      calls := calls + [OnClose];
    } else {
      calls := PairWhileClosed(n - 1);
      calls := PairOneMore(calls, n - 1);
    }
  }

  lemma {:induction false} PairOneMore(calls: seq<Call>, k: nat) returns (more: seq<Call>)
    requires k < MAX_PAIRED && Life(calls) == Some(Allocator(PairedUp(k), false, true))
    ensures Life(more) == Some(Allocator(PairedUp(k + 1), false, true))
  {
    NextIsPaired(k);
    more := FindAndPair(calls, PairedUp(k), RawAddress(k + 1));
  }

  lemma {:induction false} FindAndPair(calls: seq<Call>, d: Devices, a: RawAddress) returns (more: seq<Call>)
    requires Life(calls) == Some(Allocator(d, false, true)) && Answers(d, a)
    ensures Life(more) == Some(Allocator(Save(Allocated(d, a), a), false, true))
  {
    Then(calls, Use(AllocateId(a)));
    more := calls + [Use(AllocateId(a))];
    Then(more, Use(SaveDevice(a, true)));
    more := more + [Use(SaveDevice(a, true))];
  }

  lemma {:induction false} NextIsPaired(k: nat)
    requires k < MAX_PAIRED
    ensures var d, a := PairedUp(k), RawAddress(k + 1); Answers(d, a) && Save(Allocated(d, a), a) == PairedUp(k + 1)
  {
    var d, n := PairedUp(k), Node(RawAddress(k + 1), k + 1);
    assert Lookup(Descending(k), n.key).None?;
    FindsNext(d, n.key);
    PairsNext(Descending(k), n, UpTo(k) + {k + 1}, k + 2);
    assert UpTo(k) + {k + 1} == UpTo(k + 1);
  }

  lemma {:induction false} InitNext(calls: seq<Call>, d: Devices, saved: seq<Device>) returns (more: seq<Call>)
    requires Life(calls) == Some(Allocator(d, false, true)) && Loadable(saved)
    ensures more == calls + [OnInit(saved)] && Life(more) == Some(Allocator(InitOf(d, saved), true, true))
  {
    Then(calls, OnInit(saved));
    more := calls + [OnInit(saved)];
  }

  /** A map with distinct ids gives a new address the id of a device paired while closed. */
  lemma {:induction false} ClashAfterClose() returns (calls: seq<Call>)
    ensures Life(calls).Some? && calls != [] && calls[|calls| - 1] == OnInit([Node(RawAddress(2), 1)])
    ensures !Unique(Life(calls).value.devices)
  {
    var n: nat, saved := 1, [Node(RawAddress(2), 1)];
    calls := PairWhileClosed(n);
    PairedUpUnique(n);
    ClashBreaks(PairedUp(n), saved[0], PairedUp(n).paired[0]);
    calls := InitNext(calls, PairedUp(n), saved);
  }

  lemma {:induction false} ClashBreaks(d: Devices, n: Device, o: Device)
    requires Shaped(d) && Unique(d) && |d.paired| < MAX_PAIRED && IsValidId(n.value)
    requires o in d.paired && o.value == n.value && forall m :: m in d.paired ==> m.key != n.key
    ensures Loadable([n]) && !Unique(InitOf(d, [n]))
  {
    KeySetSize(d.paired);
    assert KeySet([n]) == {n.key};
    InitUniqueWithRoom(d, [n]);
    assert n in Nodes([n]) && o in Nodes(d.paired);
    assert o in Held(d) && o.key !in KeySet([n]) && o.value in Values([n]);
  }

  /** The devices 1 to n with ids moved up to the end of the range. */
  ghost function MovedUp(n: nat): (s: seq<Device>)
    ensures |s| == n && forall i :: 0 <= i < n ==> s[i] == Node(RawAddress(i + 1), i + 1 + (MAX_ID - MAX_PAIRED))
  {
    if n == 0 then [] else MovedUp(n - 1) + [Node(RawAddress(n), n + (MAX_ID - MAX_PAIRED))]
  }

  lemma {:induction false} MovedUpLoads(n: nat)
    requires n <= MAX_PAIRED
    ensures Loadable(MovedUp(n)) && DistinctIds(MovedUp(n))
  {
  }

  lemma {:induction false} MovedUpOver(n: nat)
    ensures KeySet(MovedUp(n)) <= KeySet(Descending(n)) && RawAddress(n + 1) !in KeySet(Descending(n))
  {
    forall m | m in MovedUp(n) ensures m.key in KeySet(Descending(n)) {
      var i :| 0 <= i < n && MovedUp(n)[i] == m;
      assert Descending(n)[n - 1 - i] in Descending(n);
    }
  }

  lemma {:induction false} MovedUpFills(n: nat, x: int)
    requires n == MAX_PAIRED && IsValidId(x)
    ensures x in UpTo(n) || x in Values(MovedUp(n))
  {
    if n < x { assert MovedUp(n)[x - 1 - (MAX_ID - MAX_PAIRED)] in Nodes(MovedUp(n)); }
  }

  /** A map over known addresses whose ids fill the gaps leaves no free id. */
  lemma {:induction false} GapsFilled(d: Devices, saved: seq<Device>, a: RawAddress)
    requires Shaped(d) && Loadable(saved) && d.temporary == [] && KeySet(saved) <= KeySet(d.paired)
    requires a !in KeySet(d.paired) && forall x :: IsValidId(x) ==> x in d.idSet || x in Values(saved)
    ensures (forall x :: IsValidId(x) ==> x in InitOf(d, saved).idSet) && !Known(InitOf(d, saved), a)
  {
    KeySetSize(d.paired);
    NobodyLeaves(d, saved, KeySet(d.paired));
    IdsAfterLoad(d, saved);
    assert Ids({}) == {};
    StillUnknown(d, saved, a);
  }

  lemma {:induction false} StillUnknown(d: Devices, saved: seq<Device>, a: RawAddress)
    requires Shaped(d) && Loadable(saved) && a !in KeySet(saved) && a !in KeySet(d.paired) && d.temporary == []
    ensures !Known(InitOf(d, saved), a) && InitOf(d, saved).idSet == SplitOf(d, saved).idSet
  {
    HeldAfterInit(d, saved);
    SplitPartitions(d, saved);
    forall m | m in InitOf(d, saved).paired ensures m.key != a {
      assert m in Nodes(InitOf(d, saved).paired);
      assert m in Nodes(saved) || m in Nodes(d.paired);
    }
  }

  /**
   A life whose last call is Init with a map of distinct valid ids, after which every
   id is taken and the search for the id of a new device never ends.
   */
  lemma {:induction false} IdsCanRunOut() returns (calls: seq<Call>, saved: seq<Device>, a: RawAddress)
    ensures Life(calls).Some? && calls != [] && calls[|calls| - 1] == OnInit(saved) && DistinctIds(saved)
    ensures var d := Life(calls).value.devices;
            && (forall x :: IsValidId(x) ==> x in d.idSet)
            && (forall id :: !FirstFree(d.idSet, d.nextId, id)) && !Known(d, a)
  {
    var n: nat :| n == MAX_PAIRED;
    saved, a := MovedUp(n), RawAddress(n + 1);
    MovedUpLoads(n);
    calls := MoveAllUp(n);
    NoIdLeft(n);
  }

  lemma {:induction false} MoveAllUp(n: nat) returns (calls: seq<Call>)
    requires n <= MAX_PAIRED && Loadable(MovedUp(n))
    ensures calls != [] && calls[|calls| - 1] == OnInit(MovedUp(n))
    ensures Life(calls) == Some(Allocator(InitOf(PairedUp(n), MovedUp(n)), true, true))
  {
    calls := PairWhileClosed(n);
    calls := InitNext(calls, PairedUp(n), MovedUp(n));
  }

  lemma {:induction false} NoIdLeft(n: nat)
    requires n == MAX_PAIRED && Loadable(MovedUp(n))
    ensures var d := InitOf(PairedUp(n), MovedUp(n));
            && (forall x :: IsValidId(x) ==> x in d.idSet) && !Known(d, RawAddress(n + 1))
            && (forall id :: !FirstFree(d.idSet, d.nextId, id))
  {
    var d := PairedUp(n);
    assert d.paired == Descending(n) && d.temporary == [] && d.idSet == UpTo(n);
    assert Shaped(d) by { PairedUpUnique(n); }
    MovedUpOver(n);
    forall x | IsValidId(x) ensures x in UpTo(n) || x in Values(MovedUp(n)) { MovedUpFills(n, x); }
    GapsFilled(d, MovedUp(n), RawAddress(n + 1));
  }
}
