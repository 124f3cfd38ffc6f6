/**
 What the MetricIdAllocator gives up when a cache is full, and how long a device
 keeps its id, told by the list of calls: both caches are ordered by last use.
 */
module MetricIdRecency {
  import opened Options
  import opened LruModel
  import opened MetricIdModel
  import opened MetricIdInit
  import opened MetricIdLife

  // ---------- uses ----------

  /** Whether the allocator is initialized: its last Init or Close was an Init. */
  function Initialized(calls: seq<Call>): bool {
    if calls == [] then false
    else
      var call := calls[|calls| - 1];
      if call.Use? then Initialized(calls[..|calls| - 1]) else call.OnInit?
  }

  /** The addresses a call uses: the one it allocates or saves, or those of the map an Init loads. */
  ghost function UsedBy(call: Call, initialized: bool): seq<RawAddress> {
    match call
    case Use(op) => if op.ForgetDevice? then [] else [op.address]
    case OnInit(saved) => if initialized then [] else KeysOf(saved)
    case OnClose => []
  }

  /** The addresses used in a life, in order. */
  ghost function Uses(calls: seq<Call>): seq<RawAddress> {
    if calls == [] then []
    else Uses(calls[..|calls| - 1]) + UsedBy(calls[|calls| - 1], Initialized(calls[..|calls| - 1]))
  }

  /** The addresses allocated while they were not paired, in order: the uses of the temporary cache. */
  ghost function TemporaryUses(calls: seq<Call>): seq<RawAddress>
    requires Life(calls).Some?
  {
    if calls == [] then []
    else
      var before, call := calls[..|calls| - 1], calls[|calls| - 1];
      TemporaryUses(before) +
      if call.Use? && call.op.AllocateId? && Lookup(Life(before).value.devices.paired, call.op.address).None?
      then [call.op.address] else []
  }

  /** The place of the last use of an address, or -1. */
  function LastUse(uses: seq<RawAddress>, a: RawAddress): (i: int)
    ensures -1 <= i < |uses|
    ensures 0 <= i ==> uses[i] == a
    ensures forall j :: i < j < |uses| ==> uses[j] != a
  {
    if uses == [] then -1
    else if uses[|uses| - 1] == a then |uses| - 1
    else LastUse(uses[..|uses| - 1], a)
  }

  /** All devices of the list have been used, and each later than those behind it. */
  ghost predicate ByLastUse(s: seq<Device>, uses: seq<RawAddress>) {
    && (forall i :: 0 <= i < |s| ==> 0 <= LastUse(uses, s[i].key))
    && (forall i, j :: 0 <= i < j < |s| ==> LastUse(uses, s[j].key) < LastUse(uses, s[i].key))
  }

  // ---------- lists by last use ----------

  lemma {:induction false} OneMoreUse(uses: seq<RawAddress>, a: RawAddress, b: RawAddress)
    ensures LastUse(uses + [a], b) == if a == b then |uses| else LastUse(uses, b)
  {
    assert (uses + [a])[..|uses|] == uses;
  }

  lemma {:induction false} UsedInFront(s: seq<Device>, n: Device, uses: seq<RawAddress>)
    requires ByLastUse(s, uses) && forall m :: m in s ==> m.key != n.key
    ensures ByLastUse([n] + s, uses + [n.key])
  {
    var r := [n] + s;
    forall i | 0 <= i < |r|
      ensures LastUse(uses + [n.key], r[i].key) == if i == 0 then |uses| else LastUse(uses, s[i - 1].key)
    {
      OneMoreUse(uses, n.key, r[i].key);
      if i > 0 { assert r[i] == s[i - 1] && s[i - 1] in s; }
    }
  }

  lemma {:induction false} UsedElsewhere(s: seq<Device>, a: RawAddress, uses: seq<RawAddress>)
    requires ByLastUse(s, uses) && forall m :: m in s ==> m.key != a
    ensures ByLastUse(s, uses + [a])
  {
    forall i | 0 <= i < |s| ensures LastUse(uses + [a], s[i].key) == LastUse(uses, s[i].key) {
      OneMoreUse(uses, a, s[i].key);
      assert s[i] in s;
    }
  }

  lemma {:induction false} OneTakenOut(s: seq<Device>, a: RawAddress, uses: seq<RawAddress>)
    requires ByLastUse(s, uses)
    ensures ByLastUse(Without(s, a), uses)
  {
    var p, r := Position(s, a), Without(s, a);
    assert r == if p < |s| then s[..p] + s[p + 1..] else s by { WithoutSplits(s, a); }
    if p < |s| { Gap(s, p, uses); }
  }

  lemma {:induction false} Gap(s: seq<Device>, p: nat, uses: seq<RawAddress>)
    requires ByLastUse(s, uses) && p < |s|
    ensures ByLastUse(s[..p] + s[p + 1..], uses)
  {
    var r := s[..p] + s[p + 1..];
    forall i, j | 0 <= i < j < |r| ensures LastUse(uses, r[j].key) < LastUse(uses, r[i].key) {
      assert r[i] == s[if i < p then i else i + 1] && r[j] == s[if j < p then j else j + 1];
    }
    forall i | 0 <= i < |r| ensures 0 <= LastUse(uses, r[i].key) { assert r[i] == s[if i < p then i else i + 1]; }
  }

  lemma {:induction false} NoneLeftOf(s: seq<Device>, a: RawAddress)
    requires DistinctKeys(s)
    ensures forall m :: m in Without(s, a) ==> m.key != a && m in s
  {
    NodesWithout(s, a);
    forall m | m in Without(s, a) ensures m.key != a && m in s { assert m in Nodes(Without(s, a)); }
  }

  lemma {:induction false} TouchedByUse(s: seq<Device>, a: RawAddress, uses: seq<RawAddress>)
    requires ByLastUse(s, uses) && DistinctKeys(s)
    ensures ByLastUse(Touched(s, a), uses + [a])
  {
    if Lookup(s, a).Some? {
      OneTakenOut(s, a, uses);
      NoneLeftOf(s, a);
      UsedInFront(Without(s, a), Node(a, Lookup(s, a).value), uses);
    } else {
      UsedElsewhere(s, a, uses);
    }
  }

  lemma {:induction false} InsertedByUse(capacity: nat, s: seq<Device>, n: Device, uses: seq<RawAddress>)
    requires ByLastUse(s, uses) && DistinctKeys(s)
    ensures ByLastUse(Inserted(capacity, s, n.key, n.value), uses + [n.key])
  {
    if Resident(s, n.key) {
      OneTakenOut(s, n.key, uses);
      NoneLeftOf(s, n.key);
      UsedInFront(Without(s, n.key), n, uses);
    } else {
      assert Lookup(s, n.key).None?;
      var kept := if |s| == capacity && s != [] then s[..|s| - 1] else s;
      UsedInFront(kept, n, uses);
    }
  }

  // ---------- every life ----------

  lemma {:induction false} InitializedIsRecorded(calls: seq<Call>)
    requires Life(calls).Some?
    ensures Life(calls).value.initialized == Initialized(calls)
  {
    if calls != [] { InitializedIsRecorded(calls[..|calls| - 1]); }
  }

  /** Loading a map uses its addresses one after the other. */
  lemma {:induction false} LoadedByUse(d: Devices, saved: seq<Device>, uses: seq<RawAddress>)
    requires Shaped(d) && ByLastUse(d.paired, uses)
    ensures ByLastUse(Load(d, saved).paired, uses + KeysOf(saved))
    ensures DistinctKeys(Load(d, saved).paired) && |Load(d, saved).paired| <= MAX_PAIRED
  {
    if saved == [] {
      assert uses + KeysOf(saved) == uses;
    } else {
      var k := |saved| - 1;
      LoadedByUse(d, saved[..k], uses);
      var s := Load(d, saved[..k]).paired;
      InsertedByUse(MAX_PAIRED, s, saved[k], uses + KeysOf(saved[..k]));
      KeysOneByOne(saved, uses);
      KeepsDistinct(s, saved[k]);
    }
  }

  lemma {:induction false} KeysOneByOne(saved: seq<Device>, uses: seq<RawAddress>)
    requires saved != []
    ensures uses + KeysOf(saved[..|saved| - 1]) + [saved[|saved| - 1].key] == uses + KeysOf(saved)
  {
  }

  lemma {:induction false} KeepsDistinct(s: seq<Device>, n: Device)
    requires DistinctKeys(s) && |s| <= MAX_PAIRED
    ensures var r := Inserted(MAX_PAIRED, s, n.key, n.value); DistinctKeys(r) && |r| <= MAX_PAIRED
  {
    if Resident(s, n.key) {
      NodesWithout(s, n.key);
      NoneLeftOf(s, n.key);
      Cons(n, Without(s, n.key));
    } else {
      NodesInserted(MAX_PAIRED, s, n.key, n.value);
    }
  }

  lemma {:induction false} StepUsesPaired(d: Devices, op: DeviceOp, uses: seq<RawAddress>)
    requires Shaped(d) && Returns(d, op) && ByLastUse(d.paired, uses)
    ensures ByLastUse(DeviceStep(d, op).paired, uses + UsedBy(Use(op), false))
  {
    match op
    case AllocateId(a) => TouchedByUse(d.paired, a, uses);
    case SaveDevice(a, _) =>
      TouchedByUse(d.paired, a, uses);
      if Lookup(d.paired, a).None? && Lookup(d.temporary, a).Some? {
        InsertedByUse(MAX_PAIRED, d.paired, Node(a, Lookup(d.temporary, a).value), uses);
      }
    case ForgetDevice(a) =>
      OneTakenOut(d.paired, a, uses);
      assert uses + [] == uses;
  }

  /** In every life the paired devices stand in the order of their last uses. */
  lemma {:induction false} PairedByLastUse(calls: seq<Call>)
    requires Life(calls).Some?
    ensures ByLastUse(Life(calls).value.devices.paired, Uses(calls))
  {
    if calls != [] {
      var before, call := calls[..|calls| - 1], calls[|calls| - 1];
      PairedByLastUse(before);
      AlwaysWellFormed(before);
      InitializedIsRecorded(before);
      var al := Life(before).value;
      match call
      case Use(op) => StepUsesPaired(al.devices, op, Uses(before));
      case OnInit(saved) =>
        if al.initialized { assert Uses(calls) == Uses(before); } else { LoadedByUse(al.devices, saved, Uses(before)); }
      case OnClose => assert Uses(calls) == Uses(before);
    }
  }

  lemma {:induction false} StepUsesTemporary(d: Devices, op: DeviceOp, uses: seq<RawAddress>)
    requires Shaped(d) && Returns(d, op) && ByLastUse(d.temporary, uses)
    ensures var used := op.AllocateId? && Lookup(d.paired, op.address).None?;
            ByLastUse(DeviceStep(d, op).temporary, uses + if used then [op.address] else [])
  {
    assert uses + [] == uses;
    match op
    case AllocateId(a) =>
      if Lookup(d.paired, a).None? {
        if Lookup(d.temporary, a).Some? {
          TouchedByUse(d.temporary, a, uses);
        } else {
          InsertedByUse(MAX_UNPAIRED, d.temporary, Node(a, NextFree(d.idSet, d.nextId)), uses);
        }
      }
    case SaveDevice(a, _) => OneTakenOut(d.temporary, a, uses);
    case ForgetDevice(a) =>
  }

  lemma {:induction false} LoadLeavesTemporary(d: Devices, saved: seq<Device>)
    ensures Load(d, saved).temporary == d.temporary
  {
    if saved != [] { LoadLeavesTemporary(d, saved[..|saved| - 1]); }
  }

  /** And so do the temporary devices, by the allocations made while they were not paired. */
  lemma {:induction false} TemporaryByLastUse(calls: seq<Call>)
    requires Life(calls).Some?
    ensures ByLastUse(Life(calls).value.devices.temporary, TemporaryUses(calls))
  {
    if calls != [] {
      var before, call := calls[..|calls| - 1], calls[|calls| - 1];
      TemporaryByLastUse(before);
      AlwaysWellFormed(before);
      var al := Life(before).value;
      if call.Use? {
        StepUsesTemporary(al.devices, call.op, TemporaryUses(before));
      } else {
        assert TemporaryUses(calls) == TemporaryUses(before);
        if call.OnInit? { LoadLeavesTemporary(al.devices, call.saved); }
      }
    }
  }

  // ---------- what a full cache gives up ----------

  lemma {:induction false} TailIsOldest(s: seq<Device>, uses: seq<RawAddress>, m: Device)
    requires ByLastUse(s, uses) && m in s
    ensures m == s[|s| - 1] || LastUse(uses, s[|s| - 1].key) < LastUse(uses, m.key)
  {
    var i :| 0 <= i < |s| && s[i] == m;
  }

  /** The device that a Put pushes out was the tail of a full list. */
  lemma {:induction false} PushedOutIsTail(capacity: nat, s: seq<Device>, k: RawAddress, v: int, n: Device)
    requires DistinctKeys(s) && |s| <= capacity && 0 < capacity && !Resident(s, k)
    requires n in s && n !in Inserted(capacity, s, k, v)
    ensures |s| == capacity && n == s[|s| - 1]
  {
    NodesInserted(capacity, s, k, v);
    assert n in Nodes(s) && n !in Nodes(Inserted(capacity, s, k, v));
  }

  /**
   A paired device that a call other than its own ForgetDevice pushes out: the cache
   was full, and every other paired device has been used later.
   */
  lemma {:induction false} PairedGivesUpOldest(calls: seq<Call>, op: DeviceOp, n: Device, m: Device)
    requires Life(calls).Some? && Defined(Life(calls).value, Use(op)) && op != ForgetDevice(n.key)
    requires var d := Life(calls).value.devices;
             n in d.paired && n !in DeviceStep(d, op).paired && m in d.paired && m != n
    ensures |Life(calls).value.devices.paired| == MAX_PAIRED
    ensures LastUse(Uses(calls), n.key) < LastUse(Uses(calls), m.key)
  {
    var d := Life(calls).value.devices;
    AlwaysWellFormed(calls);
    PairedByLastUse(calls);
    LeavesPaired(d, op, n);
    TailIsOldest(d.paired, Uses(calls), m);
  }

  lemma {:induction false} LeavesPaired(d: Devices, op: DeviceOp, n: Device)
    requires Shaped(d) && Returns(d, op) && op != ForgetDevice(n.key)
    requires n in d.paired && n !in DeviceStep(d, op).paired
    ensures |d.paired| == MAX_PAIRED && n == d.paired[|d.paired| - 1]
  {
    var a := op.address;
    NodesTouched(d.paired, a);
    NodesWithout(d.paired, a);
    assert n in Nodes(d.paired) && n !in Nodes(DeviceStep(d, op).paired);
    if op.SaveDevice? && Lookup(d.paired, a).None? && Lookup(d.temporary, a).Some? {
      PushedOutIsTail(MAX_PAIRED, d.paired, a, Lookup(d.temporary, a).value, n);
    }
  }

  /**
   A temporary device that a call other than its own SaveDevice pushes out: the cache
   was full, and every other temporary device has been allocated later.
   */
  lemma {:induction false} TemporaryGivesUpOldest(calls: seq<Call>, op: DeviceOp, n: Device, m: Device)
    requires Life(calls).Some? && Defined(Life(calls).value, Use(op)) && !(op.SaveDevice? && op.address == n.key)
    requires var d := Life(calls).value.devices;
             n in d.temporary && n !in DeviceStep(d, op).temporary && m in d.temporary && m != n
    ensures |Life(calls).value.devices.temporary| == MAX_UNPAIRED
    ensures LastUse(TemporaryUses(calls), n.key) < LastUse(TemporaryUses(calls), m.key)
  {
    var d := Life(calls).value.devices;
    AlwaysWellFormed(calls);
    TemporaryByLastUse(calls);
    LeavesTemporary(d, op, n);
    TailIsOldest(d.temporary, TemporaryUses(calls), m);
  }

  lemma {:induction false} LeavesTemporary(d: Devices, op: DeviceOp, n: Device)
    requires Shaped(d) && Returns(d, op) && !(op.SaveDevice? && op.address == n.key)
    requires n in d.temporary && n !in DeviceStep(d, op).temporary
    ensures |d.temporary| == MAX_UNPAIRED && n == d.temporary[|d.temporary| - 1]
  {
    var a := op.address;
    NodesTouched(d.temporary, a);
    NodesWithout(d.temporary, a);
    assert n in Nodes(d.temporary) && n !in Nodes(DeviceStep(d, op).temporary);
    if op.AllocateId? && !Known(d, a) {
      PushedOutIsTail(MAX_UNPAIRED, d.temporary, a, NextFree(d.idSet, d.nextId), n);
    }
  }

  /** The devices that Init pushes out have been used before those that stay behind the loaded ones. */
  ghost predicate EvictedFirst(s: Split, uses: seq<RawAddress>) {
    ByLastUse(s.rest, uses) && UsedBefore(s.evicted, s.rest, uses)
  }

  ghost predicate UsedBefore(gone: set<Device>, rest: seq<Device>, uses: seq<RawAddress>) {
    forall n, m :: n in gone && m in rest ==> LastUse(uses, n.key) < LastUse(uses, m.key)
  }

  lemma {:induction false} SplitByUse(d: Devices, saved: seq<Device>, uses: seq<RawAddress>)
    requires DistinctKeys(d.paired) && ByLastUse(d.paired, uses)
    ensures EvictedFirst(SplitOf(d, saved), uses)
  {
    if saved != [] {
      var k := |saved| - 1;
      SplitByUse(d, saved[..k], uses);
      SplitPartitions(d, saved[..k]);
      SplitOneByUse(SplitOf(d, saved[..k]), k, saved[k], uses);
    }
  }

  lemma {:induction false} SplitOneByUse(s: Split, loaded: nat, n: Device, uses: seq<RawAddress>)
    requires DistinctKeys(s.rest) && EvictedFirst(s, uses)
    ensures EvictedFirst(SplitOne(s, loaded, n), uses)
  {
    if Lookup(s.rest, n.key).Some? {
      OneTakenOut(s.rest, n.key, uses);
      NoneLeftOf(s.rest, n.key);
    } else if s.rest != [] {
      TailGoesFirst(s.evicted, s.rest, uses);
    }
  }

  lemma {:induction false} TailGoesFirst(gone: set<Device>, rest: seq<Device>, uses: seq<RawAddress>)
    requires ByLastUse(rest, uses) && UsedBefore(gone, rest, uses) && rest != []
    ensures var k := |rest| - 1; ByLastUse(rest[..k], uses) && UsedBefore(gone + {rest[k]}, rest[..k], uses)
  {
    var k := |rest| - 1;
    forall m | m in rest[..k] ensures m in rest && LastUse(uses, rest[k].key) < LastUse(uses, m.key) {
      var i :| 0 <= i < k && rest[..k][i] == m;
      assert rest[i] == m;
    }
  }

  /** So does an Init that needs room: what it reports as forgotten was used before every device that it leaves. */
  lemma {:induction false} InitGivesUpOldest(calls: seq<Call>, saved: seq<Device>, n: Device, m: Device)
    requires Life(calls).Some? && !Life(calls).value.initialized && Loadable(saved)
    requires var d := Life(calls).value.devices;
             && Forgotten(n.key, n.value) in LoadCallbacks(d, saved)
             && m in d.paired && m in InitOf(d, saved).paired && m.key !in KeySet(saved)
    ensures n in Life(calls).value.devices.paired
    ensures LastUse(Uses(calls), n.key) < LastUse(Uses(calls), m.key)
  {
    var d := Life(calls).value.devices;
    AlwaysWellFormed(calls);
    PairedByLastUse(calls);
    SplitByUse(d, saved, Uses(calls));
    ReportsEvicted(d, saved, Forgotten(n.key, n.value));
    InitReports(d, saved, n);
    LoadSplits(d, saved);
    assert m in Rev(saved) ==> m in Nodes(Rev(saved));
    assert m in SplitOf(d, saved).rest;
  }

  // ---------- how long a device keeps its id ----------

  /** The device stands in the list, and only these addresses are in front of it. */
  ghost predicate Behind(s: seq<Device>, n: Device, others: set<RawAddress>) {
    exists p :: 0 <= p < |s| && s[p] == n && forall i :: 0 <= i < p ==> s[i].key in others
  }

  lemma {:induction false} FewInFront(s: seq<Device>, p: nat, others: set<RawAddress>)
    requires DistinctKeys(s) && p <= |s| && forall i :: 0 <= i < p ==> s[i].key in others
    ensures p <= |others|
  {
    var front := s[..p];
    KeySetSize(front);
    Subset(KeySet(front), others);
  }

  /** Without the node of another address the device stands no further back. */
  lemma {:induction false} BehindWithout(s: seq<Device>, n: Device, b: RawAddress, others: set<RawAddress>)
    requires Behind(s, n, others) && b != n.key
    ensures Behind(Without(s, b), n, others)
  {
    var p :| 0 <= p < |s| && s[p] == n && forall i :: 0 <= i < p ==> s[i].key in others;
    WithoutSplits(s, b);
    var q, r := Position(s, b), Without(s, b);
    if q < p {
      assert r[p - 1] == n;
      forall i | 0 <= i < p - 1 ensures r[i].key in others { assert r[i] == if i < q then s[i] else s[i + 1]; }
    } else {
      assert r[p] == n;
    }
  }

  lemma {:induction false} BehindNewFront(s: seq<Device>, n: Device, o: Device, others: set<RawAddress>)
    requires Behind(s, n, others) && o.key in others
    ensures Behind([o] + s, n, others)
  {
    var p :| 0 <= p < |s| && s[p] == n && forall i :: 0 <= i < p ==> s[i].key in others;
    var r := [o] + s;
    assert r[p + 1] == n;
    forall i | 0 <= i < p + 1 ensures r[i].key in others { assert i > 0 ==> r[i] == s[i - 1]; }
  }

  lemma {:induction false} BehindTouched(s: seq<Device>, n: Device, b: RawAddress, others: set<RawAddress>)
    requires Behind(s, n, others) && DistinctKeys(s) && (b == n.key || b in others)
    ensures Behind(Touched(s, b), n, others)
  {
    NodeIsLookup(s, n);
    if Lookup(s, b).Some? {
      var v := Lookup(s, b).value;
      if b == n.key {
        assert Touched(s, b)[0] == n;
      } else {
        BehindWithout(s, n, b, others);
        BehindNewFront(Without(s, b), n, Node(b, v), others);
      }
    }
  }

  /** With fewer others than places the device is not the tail of a full list, so a Put does not push it out. */
  lemma {:induction false} BehindInserted(
      capacity: nat, s: seq<Device>, n: Device, o: Device, others: set<RawAddress>)
    requires Behind(s, n, others) && DistinctKeys(s) && |s| <= capacity
    requires o.key != n.key && o.key in others && |others| < capacity
    ensures Behind(Inserted(capacity, s, o.key, o.value), n, others)
  {
    if Resident(s, o.key) {
      BehindWithout(s, n, o.key, others);
      BehindNewFront(Without(s, o.key), n, o, others);
    } else {
      assert Lookup(s, o.key).None?;
      BehindShortened(capacity, s, n, o.key, others);
      BehindNewFront(if |s| == capacity then s[..|s| - 1] else s, n, o, others);
    }
  }

  lemma {:induction false} BehindShortened(
      capacity: nat, s: seq<Device>, n: Device, b: RawAddress, others: set<RawAddress>)
    requires Behind(s, n, others) && DistinctKeys(s) && |s| <= capacity
    requires b in others && |others| < capacity && forall m :: m in s ==> m.key != b
    ensures Behind(if |s| == capacity then s[..|s| - 1] else s, n, others)
  {
    var p :| 0 <= p < |s| && s[p] == n && forall i :: 0 <= i < p ==> s[i].key in others;
    FewInFront(s, p, others - {b});
    assert (if |s| == capacity then s[..|s| - 1] else s)[p] == n;
  }

  /** The device answers for its address, and so few others were used after it that it stays. */
  ghost predicate Recent(d: Devices, n: Device, others: set<RawAddress>) {
    if Lookup(d.paired, n.key).Some? then Behind(d.paired, n, others) && |others| < MAX_PAIRED
    else Behind(d.temporary, n, others) && |others| < MAX_UNPAIRED
  }

  /** The call neither forgets the device, nor brings an id for it, nor closes an initialized allocator. */
  ghost predicate Spares(call: Call, initialized: bool, a: RawAddress) {
    match call
    case Use(op) => op != ForgetDevice(a)
    case OnInit(saved) => initialized || forall n :: n in saved ==> n.key != a
    case OnClose => !initialized
  }

  /** All the calls that follow do. */
  ghost predicate AllSpare(calls: seq<Call>, later: seq<Call>, a: RawAddress) {
    forall i :: 0 <= i < |later| ==> Spares(later[i], Initialized(calls + later[..i]), a)
  }

  ghost function Members(addresses: seq<RawAddress>): (r: set<RawAddress>)
    ensures forall b :: b in r <==> b in addresses
  {
    set i | 0 <= i < |addresses| :: addresses[i]
  }

  /** The addresses other than `a` that the calls that follow use. */
  ghost function OthersUsed(calls: seq<Call>, later: seq<Call>, a: RawAddress): set<RawAddress>
    decreases |later|
  {
    if later == [] then {}
    else
      var k := |later| - 1;
      OthersUsed(calls, later[..k], a) + Members(UsedBy(later[k], Initialized(calls + later[..k]))) - {a}
  }

  lemma {:induction false} AllocateKeepsRecent(d: Devices, b: RawAddress, n: Device, others: set<RawAddress>)
    requires Shaped(d) && Answers(d, b) && Recent(d, n, others)
    requires b == n.key || b in others
    ensures Recent(Allocated(d, b), n, others)
  {
    NodesTouched(d.paired, b);
    SameLookup(d.paired, b, n.key);
    if Lookup(d.paired, b).Some? {
      if Lookup(d.paired, n.key).Some? { BehindTouched(d.paired, n, b, others); }
    } else if Lookup(d.temporary, b).Some? {
      if Lookup(d.paired, n.key).None? { BehindTouched(d.temporary, n, b, others); }
    } else if Lookup(d.paired, n.key).None? {
      NodeIsLookup(d.temporary, n);
      BehindInserted(MAX_UNPAIRED, d.temporary, n, Node(b, NextFree(d.idSet, d.nextId)), others);
    }
  }

  lemma {:induction false} SameLookup(s: seq<Device>, b: RawAddress, a: RawAddress)
    requires DistinctKeys(s)
    ensures Lookup(Touched(s, b), a).Some? <==> Lookup(s, a).Some?
  {
    NodesTouched(s, b);
    if Lookup(s, a).Some? { assert Node(a, Lookup(s, a).value) in Nodes(Touched(s, b)); }
    if Lookup(Touched(s, b), a).Some? { assert Node(a, Lookup(Touched(s, b), a).value) in Nodes(s); }
  }

  lemma {:induction false} SaveKeepsRecent(d: Devices, b: RawAddress, n: Device, others: set<RawAddress>)
    requires Shaped(d) && Recent(d, n, others) && (b == n.key || b in others)
    ensures Recent(Save(d, b), n, others)
  {
    SameLookup(d.paired, b, n.key);
    if Lookup(d.paired, b).Some? {
      if Lookup(d.paired, n.key).Some? { BehindTouched(d.paired, n, b, others); }
    } else if Lookup(d.temporary, b).Some? {
      PairKeepsRecent(d, b, n, others);
    }
  }

  lemma {:induction false} PairKeepsRecent(d: Devices, b: RawAddress, n: Device, others: set<RawAddress>)
    requires Shaped(d) && Recent(d, n, others) && (b == n.key || b in others)
    requires Lookup(d.paired, b).None? && Lookup(d.temporary, b).Some?
    ensures Recent(Save(d, b), n, others)
  {
    var o, d' := Node(b, Lookup(d.temporary, b).value), Save(d, b);
    PairNodes(d, b);
    if b == n.key {
      NodeIsLookup(d.temporary, n);
      assert d'.paired[0] == n;
      assert Behind(d'.paired, n, others);
    } else if Lookup(d.paired, n.key).Some? {
      BehindInserted(MAX_PAIRED, d.paired, n, o, others);
    } else {
      BehindWithout(d.temporary, n, b, others);
      forall m | m in d'.paired ensures m.key != n.key {
        assert m in Nodes(d'.paired);
        assert m == o || m in d.paired;
      }
    }
  }

  lemma {:induction false} ForgetKeepsRecent(d: Devices, b: RawAddress, n: Device, others: set<RawAddress>)
    requires Shaped(d) && Recent(d, n, others) && b != n.key
    ensures Recent(Forget(d, b), n, others)
  {
    if Lookup(d.paired, b).Some? {
      NodesWithout(d.paired, b);
      NoneLeftOf(d.paired, b);
      if Lookup(d.paired, n.key).Some? {
        BehindWithout(d.paired, n, b, others);
      } else {
        assert Lookup(Without(d.paired, b), n.key).None?;
      }
    }
  }

  lemma {:induction false} LoadKeepsRecent(d: Devices, saved: seq<Device>, n: Device, others: set<RawAddress>)
    requires Shaped(d) && Recent(d, n, others)
    requires forall o :: o in saved ==> o.key != n.key && o.key in others
    ensures Recent(Load(d, saved), n, others)
    ensures DistinctKeys(Load(d, saved).paired) && |Load(d, saved).paired| <= MAX_PAIRED
  {
    if saved != [] {
      var k := |saved| - 1;
      assert saved[k] in saved && forall o :: o in saved[..k] ==> o in saved;
      LoadKeepsRecent(d, saved[..k], n, others);
      LoadOneKeepsRecent(Load(d, saved[..k]), saved[k], n, others);
    }
  }

  lemma {:induction false} LoadOneKeepsRecent(d: Devices, o: Device, n: Device, others: set<RawAddress>)
    requires DistinctKeys(d.paired) && |d.paired| <= MAX_PAIRED && Recent(d, n, others)
    requires o.key != n.key && o.key in others
    ensures Recent(LoadOne(d, o), n, others)
    ensures DistinctKeys(LoadOne(d, o).paired) && |LoadOne(d, o).paired| <= MAX_PAIRED
  {
    KeepsDistinct(d.paired, o);
    if Lookup(d.paired, n.key).Some? {
      BehindInserted(MAX_PAIRED, d.paired, n, o, others);
    } else {
      NoneLeftOf(d.paired, o.key);
      forall m | m in LoadOne(d, o).paired ensures m.key != n.key { assert m == o || m in d.paired; }
    }
  }

  lemma {:induction false} CallKeepsRecent(al: Allocator, call: Call, n: Device, others: set<RawAddress>)
    requires WellFormed(al) && Defined(al, call) && Recent(al.devices, n, others) && Spares(call, al.initialized, n.key)
    requires forall b :: b in UsedBy(call, al.initialized) ==> b == n.key || b in others
    ensures Recent(After(al, call).devices, n, others)
  {
    match call
    case Use(op) =>
      if !op.ForgetDevice? { assert op.address in UsedBy(call, al.initialized); }
      match op {
        case AllocateId(b) => AllocateKeepsRecent(al.devices, b, n, others);
        case SaveDevice(b, _) => SaveKeepsRecent(al.devices, b, n, others);
        case ForgetDevice(b) => ForgetKeepsRecent(al.devices, b, n, others);
      }
    case OnInit(saved) =>
      if !al.initialized {
        forall o | o in saved ensures o.key in others {
          var i :| 0 <= i < |saved| && saved[i] == o;
          assert KeysOf(saved)[i] in UsedBy(call, al.initialized);
        }
        LoadKeepsRecent(al.devices, saved, n, others);
      }
    case OnClose =>
  }

  lemma {:induction false} LastCall(calls: seq<Call>, later: seq<Call>)
    requires later != [] && Life(calls + later).Some?
    ensures var before := calls + later[..|later| - 1]; var call := later[|later| - 1];
            && Life(before).Some? && Defined(Life(before).value, call)
            && Life(calls + later).value == After(Life(before).value, call)
    ensures later[|later| - 1] in later && forall c :: c in later[..|later| - 1] ==> c in later
  {
    WithoutLast(calls, later);
  }

  lemma WithoutLast(calls: seq<Call>, later: seq<Call>)
    requires later != []
    ensures (calls + later)[..|calls + later| - 1] == calls + later[..|later| - 1]
    ensures (calls + later)[|calls + later| - 1] == later[|later| - 1]
    ensures later[|later| - 1] in later && forall c :: c in later[..|later| - 1] ==> c in later
  {
  }

  lemma {:induction false} StaysRecent(calls: seq<Call>, later: seq<Call>, n: Device, others: set<RawAddress>)
    requires Life(calls).Some? && Life(calls + later).Some? && Recent(Life(calls).value.devices, n, others)
    requires AllSpare(calls, later, n.key) && OthersUsed(calls, later, n.key) <= others
    ensures Recent(Life(calls + later).value.devices, n, others)
    decreases |later|
  {
    if later == [] {
      assert calls + later == calls;
    } else {
      var k := |later| - 1;
      LastCall(calls, later);
      AllButLast(calls, later, n.key);
      StaysRecent(calls, later[..k], n, others);
      AlwaysWellFormed(calls + later[..k]);
      InitializedIsRecorded(calls + later[..k]);
      CallKeepsRecent(Life(calls + later[..k]).value, later[k], n, others);
    }
  }

  lemma {:induction false} AllButLast(calls: seq<Call>, later: seq<Call>, a: RawAddress)
    requires later != [] && AllSpare(calls, later, a)
    ensures AllSpare(calls, later[..|later| - 1], a)
  {
    var front := later[..|later| - 1];
    forall i | 0 <= i < |front| ensures Spares(front[i], Initialized(calls + front[..i]), a) {
      assert front[..i] == later[..i];
    }
  }

  lemma {:induction false} AllocatedIsRecent(d: Devices, a: RawAddress)
    requires Shaped(d) && Answers(d, a)
    ensures Recent(Allocated(d, a), Node(a, AllocatedId(d, a)), {})
  {
    var d', n := Allocated(d, a), Node(a, AllocatedId(d, a));
    if Lookup(d.paired, a).Some? {
      assert d'.paired[0] == n;
      assert Behind(d'.paired, n, {});
    } else {
      assert d'.temporary[0] == n;
      assert Behind(d'.temporary, n, {});
    }
  }

  lemma {:induction false} RecentAnswers(d: Devices, n: Device, others: set<RawAddress>)
    requires Shaped(d) && Recent(d, n, others)
    ensures Known(d, n.key) && AllocatedId(d, n.key) == n.value
  {
    if n in d.paired { NodeIsLookup(d.paired, n); } else { NodeIsLookup(d.temporary, n); }
  }

  /**
   An address that AllocateId has answered gets the same answer again, after any
   further calls that use fewer than 200 other addresses, or 65000 if it was paired,
   unless an initialized allocator is closed, the device is forgotten, or an Init
   brings an id for it. It may be paired meanwhile.
   */
  lemma {:induction false} KeepsIdWhileRecent(calls: seq<Call>, a: RawAddress, later: seq<Call>)
    requires Life(calls).Some? && Answers(Life(calls).value.devices, a)
    requires Life(calls + [Use(AllocateId(a))] + later).Some? && AllSpare(calls + [Use(AllocateId(a))], later, a)
    requires |OthersUsed(calls + [Use(AllocateId(a))], later, a)| <
             if Lookup(Life(calls).value.devices.paired, a).Some? then MAX_PAIRED else MAX_UNPAIRED
    ensures var d := Life(calls + [Use(AllocateId(a))] + later).value.devices;
            Known(d, a) && AllocatedId(d, a) == AllocatedId(Life(calls).value.devices, a)
  {
    var first := calls + [Use(AllocateId(a))];
    var n, others := Node(a, AllocatedId(Life(calls).value.devices, a)), OthersUsed(first, later, a);
    BecomesRecent(calls, a, others);
    StaysRecent(first, later, n, others);
    AlwaysWellFormed(first + later);
    RecentAnswers(Life(first + later).value.devices, n, others);
  }

  lemma {:induction false} BecomesRecent(calls: seq<Call>, a: RawAddress, others: set<RawAddress>)
    requires Life(calls).Some? && Answers(Life(calls).value.devices, a)
    requires |others| < if Lookup(Life(calls).value.devices.paired, a).Some? then MAX_PAIRED else MAX_UNPAIRED
    ensures Life(calls + [Use(AllocateId(a))]).Some?
    ensures var d := Life(calls).value.devices;
            Recent(Life(calls + [Use(AllocateId(a))]).value.devices, Node(a, AllocatedId(d, a)), others)
  {
    var d := Life(calls).value.devices;
    AlwaysWellFormed(calls);
    Then(calls, Use(AllocateId(a)));
    AllocatedIsRecent(d, a);
    SameLookup(d.paired, a, a);
    MoreInFront(Allocated(d, a), Node(a, AllocatedId(d, a)), others);
  }

  lemma {:induction false} MoreInFront(d: Devices, n: Device, others: set<RawAddress>)
    requires Recent(d, n, {})
    requires |others| < if Lookup(d.paired, n.key).Some? then MAX_PAIRED else MAX_UNPAIRED
    ensures Recent(d, n, others)
  {
    var s := if Lookup(d.paired, n.key).Some? then d.paired else d.temporary;
    var p :| 0 <= p < |s| && s[p] == n && forall i :: 0 <= i < p ==> s[i].key in {};
    assert Behind(s, n, others);
  }

  // ---------- and not longer ----------

  /** An allocation of another address that is not paired. */
  ghost predicate OtherScan(d: Devices, call: Call, a: RawAddress) {
    call.Use? && call.op.AllocateId? && call.op.address != a && Lookup(d.paired, call.op.address).None?
  }

  /** If the device is still temporary, all these addresses are in front of it. */
  ghost predicate InFrontOf(s: seq<Device>, a: RawAddress, others: set<RawAddress>) {
    forall p :: 0 <= p < |s| && s[p].key == a ==> forall b :: b in others ==> exists i :: 0 <= i < p && s[i].key == b
  }

  lemma {:induction false} ScanGoesInFront(d: Devices, b: RawAddress, a: RawAddress, others: set<RawAddress>)
    requires Shaped(d) && Answers(d, b) && Lookup(d.paired, b).None? && b != a
    requires InFrontOf(d.temporary, a, others)
    ensures Allocated(d, b).paired == d.paired && InFrontOf(Allocated(d, b).temporary, a, others + {b})
  {
    var r := Allocated(d, b).temporary;
    WithoutSplits(d.temporary, b);
    assert r[0].key == b && r == [r[0]] + r[1..];
    MovesInFront(d.temporary, r, b, a, others);
  }

  lemma {:induction false} MovesInFront(
      s: seq<Device>, r: seq<Device>, b: RawAddress, a: RawAddress, others: set<RawAddress>)
    requires InFrontOf(s, a, others) && a != b && r != [] && r[0].key == b
    requires var q := Position(s, b);
             if q < |s| then r[1..] == s[..q] + s[q + 1..] else r[1..] == s || (s != [] && r[1..] == s[..|s| - 1])
    ensures InFrontOf(r, a, others + {b})
  {
    forall p, x | 0 <= p < |r| && r[p].key == a && x in others + {b} ensures exists i :: 0 <= i < p && r[i].key == x {
      if x == b { assert r[0].key == x; } else { OldInFront(s, r, b, a, p, x, others); }
    }
  }

  lemma {:induction false} OldInFront(
      s: seq<Device>, r: seq<Device>, b: RawAddress, a: RawAddress, p: nat, x: RawAddress, others: set<RawAddress>)
    requires InFrontOf(s, a, others) && x in others && x != b && a != b && r != [] && r[0].key == b
    requires var q := Position(s, b);
             if q < |s| then r[1..] == s[..q] + s[q + 1..] else r[1..] == s || (s != [] && r[1..] == s[..|s| - 1])
    requires p < |r| && r[p].key == a
    ensures exists i :: 0 <= i < p && r[i].key == x
  {
    var q := Position(s, b);
    var p' := if p - 1 < q then p - 1 else p;
    assert r[p] == r[1..][p - 1] == s[p'];
    var i :| 0 <= i < p' && s[i].key == x;
    var i' := if i < q then i + 1 else i;
    assert r[i'] == r[1..][i' - 1] == s[i];
    assert 0 <= i' < p && r[i'].key == x;
  }

  lemma {:induction false} ScansGoInFront(calls: seq<Call>, a: RawAddress, later: seq<Call>)
    requires Life(calls).Some? && Life(calls + later).Some? && Lookup(Life(calls).value.devices.paired, a).None?
    requires forall call :: call in later ==> OtherScan(Life(calls).value.devices, call, a)
    ensures Life(calls + later).value.devices.paired == Life(calls).value.devices.paired
    ensures InFrontOf(Life(calls + later).value.devices.temporary, a, OthersUsed(calls, later, a))
    decreases |later|
  {
    if later == [] {
      assert calls + later == calls;
    } else {
      var k := |later| - 1;
      LastCall(calls, later);
      ScansGoInFront(calls, a, later[..k]);
      AlwaysWellFormed(calls + later[..k]);
      OneMoreScan(Life(calls + later[..k]).value, later[k], a, OthersUsed(calls, later[..k], a));
      OneMoreUsed(calls, later, a);
    }
  }

  lemma {:induction false} OneMoreScan(al: Allocator, call: Call, a: RawAddress, others: set<RawAddress>)
    requires WellFormed(al) && Defined(al, call) && OtherScan(al.devices, call, a)
    requires InFrontOf(al.devices.temporary, a, others)
    ensures After(al, call).devices.paired == al.devices.paired
    ensures InFrontOf(After(al, call).devices.temporary, a, others + {call.op.address})
  {
    ScanGoesInFront(al.devices, call.op.address, a, others);
  }

  lemma {:induction false} OneMoreUsed(calls: seq<Call>, later: seq<Call>, a: RawAddress)
    requires later != [] && later[|later| - 1].Use? && !later[|later| - 1].op.ForgetDevice?
    requires later[|later| - 1].op.address != a
    ensures OthersUsed(calls, later, a) ==
            OthersUsed(calls, later[..|later| - 1], a) + {later[|later| - 1].op.address}
  {
    NotUsed(calls, later[..|later| - 1], a);
  }

  lemma {:induction false} NotUsed(calls: seq<Call>, later: seq<Call>, a: RawAddress)
    ensures a !in OthersUsed(calls, later, a)
  {
  }

  lemma {:induction false} ManyInFront(s: seq<Device>, p: nat, others: set<RawAddress>)
    requires p <= |s| && forall b :: b in others ==> exists i :: 0 <= i < p && s[i].key == b
    ensures |others| <= p
    decreases p
  {
    if p > 0 {
      var rest := others - {s[p - 1].key};
      forall b | b in rest ensures exists i :: 0 <= i < p - 1 && s[i].key == b {
        var i :| 0 <= i < p && s[i].key == b;
        assert i != p - 1;
      }
      ManyInFront(s, p - 1, rest);
      Subset(others, rest + {s[p - 1].key});
    } else {
      assert forall b :: b !in others;
    }
  }

  /**
   That bound is exact: when nothing but allocations of other unpaired addresses
   follows, a temporary device is still known exactly while they are fewer than 200.
   */
  lemma {:induction false} TemporaryUntilManyOthers(calls: seq<Call>, a: RawAddress, later: seq<Call>)
    requires Life(calls).Some? && Answers(Life(calls).value.devices, a)
    requires Lookup(Life(calls).value.devices.paired, a).None?
    requires Life(calls + [Use(AllocateId(a))] + later).Some?
    requires forall call :: call in later ==> OtherScan(Life(calls).value.devices, call, a)
    ensures Known(Life(calls + [Use(AllocateId(a))] + later).value.devices, a) <==>
            |OthersUsed(calls + [Use(AllocateId(a))], later, a)| < MAX_UNPAIRED
  {
    var d, first := Life(calls).value.devices, calls + [Use(AllocateId(a))];
    Then(calls, Use(AllocateId(a)));
    assert Life(first).value.devices.paired == d.paired;
    AlwaysWellFormed(first + later);
    ScansGoInFront(first, a, later);
    var s, others := Life(first + later).value.devices.temporary, OthersUsed(first, later, a);
    if |others| < MAX_UNPAIRED {
      forall i | 0 <= i < |later| ensures Spares(later[i], Initialized(first + later[..i]), a) {
        assert later[i] in later;
      }
      KeepsIdWhileRecent(calls, a, later);
    } else if Lookup(s, a).Some? {
      ManyInFront(s, Position(s, a), others);
    }
  }

  // ---------- the ids handed out go round ----------

  /** The id that the last new address since the last Init got. */
  ghost function LastFresh(calls: seq<Call>): Option<int>
    requires Life(calls).Some?
  {
    if calls == [] then None
    else
      var before, call := calls[..|calls| - 1], calls[|calls| - 1];
      var d := Life(before).value.devices;
      if call.Use? && call.op.AllocateId? && !Known(d, call.op.address) then Some(AllocatedId(d, call.op.address))
      else if call.OnInit? && !Initialized(before) then None
      else LastFresh(before)
  }

  lemma {:induction false} CursorFollows(calls: seq<Call>)
    requires Life(calls).Some? && LastFresh(calls).Some?
    ensures Life(calls).value.devices.nextId == Cyclic(LastFresh(calls).value, 1)
  {
    var before, call := calls[..|calls| - 1], calls[|calls| - 1];
    AlwaysWellFormed(before);
    InitializedIsRecorded(before);
    var d := Life(before).value.devices;
    if call.Use? && call.op.AllocateId? && !Known(d, call.op.address) {
      AllocateFresh(d, call.op.address);
    } else {
      CursorFollows(before);
    }
  }

  /** A new address gets the first free id after the one handed out last, also across a Close. */
  lemma {:induction false} FreshIdsGoRound(calls: seq<Call>, a: RawAddress)
    requires Life(calls).Some? && LastFresh(calls).Some?
    requires !Known(Life(calls).value.devices, a) && Answers(Life(calls).value.devices, a)
    ensures var d := Life(calls).value.devices;
            FirstFree(d.idSet, Cyclic(LastFresh(calls).value, 1), AllocatedId(d, a))
  {
    CursorFollows(calls);
  }
}
