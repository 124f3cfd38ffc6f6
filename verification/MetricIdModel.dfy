/**
 The value-level model of MetricIdAllocator: two LRU lists of (address, id) nodes,
 the redundant set of ids in use, the wrapping cursor, and the callbacks that
 mirror the paired list to disk.
 */
module MetricIdModel {
  import opened Options
  import opened LruModel

  /** A Bluetooth device address, as the number its six octets form. */
  datatype RawAddress = RawAddress(octets: nat)
  type Device = Node<RawAddress, int>

  const MAX_UNPAIRED: nat := 200
  const MAX_PAIRED: nat := 65000
  const MIN_ID := 1
  const MAX_ID := 65534
  const ID_COUNT: nat := MAX_ID - MIN_ID + 1
  const SPARE_IDS: nat := ID_COUNT - MAX_PAIRED - MAX_UNPAIRED - 1

  predicate IsValidId(id: int) {
    MIN_ID <= id <= MAX_ID
  }

  datatype Devices = Devices(paired: seq<Device>, temporary: seq<Device>, idSet: set<int>, nextId: int)

  /** A callback made by the allocator, with the answer of the save callback. */
  datatype Callback = Saved(address: RawAddress, id: int, accepted: bool) | Forgotten(address: RawAddress, id: int)

  ghost function Held(d: Devices): set<Device> {
    Nodes(d.paired) + Nodes(d.temporary)
  }

  ghost function Ids(devices: set<Device>): set<int> {
    set n | n in devices :: n.value
  }

  /** What holds in every state the code can be in, whatever map Init was given. */
  ghost predicate Shaped(d: Devices) {
    && DistinctKeys(d.paired) && |d.paired| <= MAX_PAIRED
    && DistinctKeys(d.temporary) && |d.temporary| <= MAX_UNPAIRED
    && IsValidId(d.nextId) && forall id :: id in d.idSet ==> IsValidId(id)
  }

  /** The ids that are taken although no device has them. */
  ghost function Stale(d: Devices): set<int> {
    d.idSet - Ids(Held(d))
  }

  /** So few ids are stale that a free one is left even when both caches are full. */
  ghost predicate Sound(d: Devices) {
    Shaped(d) && |Stale(d)| <= SPARE_IDS
  }

  ghost predicate HasFree(idSet: set<int>) {
    exists id :: IsValidId(id) && id !in idSet
  }

  /** Devices have ids of their own, all in the set. */
  ghost predicate Tidy(d: Devices) {
    && Nodes(d.paired) !! Nodes(d.temporary)
    && (forall m, n :: m in Held(d) && n in Held(d) && m != n ==> m.value != n.value)
    && Ids(Held(d)) <= d.idSet
  }

  /** No two devices share an address or an id, and the id set is exact. */
  ghost predicate Unique(d: Devices) {
    && Nodes(d.paired) !! Nodes(d.temporary)
    && (forall m, n :: m in Held(d) && n in Held(d) && m != n ==> m.key != n.key && m.value != n.value)
    && d.idSet == Ids(Held(d))
    && (forall n :: n in Held(d) ==> IsValidId(n.value))
  }

  // ---------- the id search ----------

  function Cyclic(start: int, distance: nat): int {
    if start + distance <= MAX_ID then start + distance else start + distance - ID_COUNT
  }

  function Distance(start: int, id: int): (d: int)
    requires IsValidId(start) && IsValidId(id)
    ensures 0 <= d < ID_COUNT && Cyclic(start, d) == id
  {
    if start <= id then id - start else id - start + ID_COUNT
  }

  /** `id` is free and every id between `start` and `id`, going round, is taken. */
  ghost predicate FirstFree(idSet: set<int>, start: int, id: int) {
    && IsValidId(start) && IsValidId(id)
    && id !in idSet
    && forall d {:trigger Cyclic(start, d)} :: 0 <= d < Distance(start, id) ==> Cyclic(start, d) in idSet
  }

  lemma FirstFreeIsUnique(idSet: set<int>, start: int, a: int, b: int)
    requires FirstFree(idSet, start, a) && FirstFree(idSet, start, b)
    ensures a == b
  {
    assert Cyclic(start, Distance(start, a)) == a && Cyclic(start, Distance(start, b)) == b;
  }

  /** The ids met while going round from `start` are all different. */
  lemma {:induction false} TakenRun(idSet: set<int>, start: int, n: nat)
    requires IsValidId(start) && n <= ID_COUNT
    requires forall d {:trigger Cyclic(start, d)} :: 0 <= d < n ==> Cyclic(start, d) in idSet
    ensures n <= |idSet|
  {
    if n > 0 {
      var last := Cyclic(start, n - 1);
      forall d {:trigger Cyclic(start, d)} | 0 <= d < n - 1 ensures Cyclic(start, d) in idSet - {last} {
        assert Cyclic(start, d) in idSet;
      }
      TakenRun(idSet - {last}, start, n - 1);
    }
  }

  /** Walking on from distance `d`, a free id is met before the circle closes. */
  ghost function SearchFrom(idSet: set<int>, start: int, d: nat): (id: int)
    requires IsValidId(start) && HasFree(idSet) && d < ID_COUNT
    requires forall e {:trigger Cyclic(start, e)} :: 0 <= e < d ==> Cyclic(start, e) in idSet
    ensures FirstFree(idSet, start, id)
    decreases ID_COUNT - d
  {
    var id := Cyclic(start, d);
    if id !in idSet then
      id
    else
      NotAllRound(idSet, start, d + 1);
      SearchFrom(idSet, start, d + 1)
  }

  lemma {:induction false} NotAllRound(idSet: set<int>, start: int, d: nat)
    requires IsValidId(start) && HasFree(idSet) && d <= ID_COUNT
    requires forall e {:trigger Cyclic(start, e)} :: 0 <= e < d ==> Cyclic(start, e) in idSet
    ensures d < ID_COUNT
  {
    var id :| IsValidId(id) && id !in idSet;
    assert Cyclic(start, Distance(start, id)) == id;
  }

  ghost function NextFree(idSet: set<int>, start: int): (id: int)
    requires IsValidId(start) && HasFree(idSet)
    ensures FirstFree(idSet, start, id)
  {
    SearchFrom(idSet, start, 0)
  }

  /** The search from a valid cursor ends exactly when some valid id is not in the set. */
  lemma {:induction false} SearchEndsIff(idSet: set<int>, start: int)
    requires IsValidId(start)
    ensures (exists id :: FirstFree(idSet, start, id)) <==> HasFree(idSet)
  {
    if HasFree(idSet) { assert FirstFree(idSet, start, NextFree(idSet, start)); }
  }

  lemma {:induction false} FewNodes(s: seq<Device>)
    ensures |Nodes(s)| <= |s|
  {
    if s != [] {
      FewNodes(s[1..]);
      assert s == [s[0]] + s[1..];
      Cons(s[0], s[1..]);
    }
  }

  lemma {:induction false} FewIds(devices: set<Device>)
    ensures |Ids(devices)| <= |devices|
  {
    if devices != {} {
      var n :| n in devices;
      FewIds(devices - {n});
      OneMoreId(devices - {n}, n);
      assert devices == devices - {n} + {n};
    }
  }

  lemma {:induction false} OneMoreId(devices: set<Device>, n: Device)
    ensures Ids(devices + {n}) == Ids(devices) + {n.value} && |Ids(devices + {n})| <= |Ids(devices)| + 1
  {
    IdsOfUnion(devices, {n});
    assert Ids({n}) == {n.value};
  }

  /** Pigeonhole: the two caches and the spare ids together cannot use up the range. */
  lemma {:induction false} FreeIdExists(d: Devices)
    requires Sound(d)
    ensures HasFree(d.idSet)
  {
    FewNodes(d.paired);
    FewNodes(d.temporary);
    FewIds(Held(d));
    assert |Held(d)| <= |Nodes(d.paired)| + |Nodes(d.temporary)|;
    Subset(d.idSet, Ids(Held(d)) + Stale(d));
    NotFull(d.idSet);
  }

  lemma {:induction false} NotFull(idSet: set<int>)
    requires |idSet| < ID_COUNT
    ensures HasFree(idSet)
  {
    if !HasFree(idSet) { TakenRun(idSet, MIN_ID, ID_COUNT); }
  }

  // ---------- the operations ----------

  datatype DeviceOp =
    | AllocateId(address: RawAddress)
    | SaveDevice(address: RawAddress, accepted: bool)
    | ForgetDevice(address: RawAddress)

  function Advanced(id: int): int {
    if id + 1 > MAX_ID then MIN_ID else id + 1
  }

  predicate Known(d: Devices, a: RawAddress) {
    Lookup(d.paired, a).Some? || Lookup(d.temporary, a).Some?
  }

  /** The call returns: the address is known, or there is a free id to be found. */
  ghost predicate Answers(d: Devices, a: RawAddress) {
    Known(d, a) || (IsValidId(d.nextId) && HasFree(d.idSet))
  }

  ghost function Allocated(d: Devices, a: RawAddress): Devices
    requires Answers(d, a)
  {
    if Lookup(d.paired, a).Some? then d.(paired := Touched(d.paired, a))
    else if Lookup(d.temporary, a).Some? then d.(temporary := Touched(d.temporary, a))
    else
      var id := NextFree(d.idSet, d.nextId);
      var out := Evicted(MAX_UNPAIRED, d.temporary, a);
      Devices(
        d.paired,
        Inserted(MAX_UNPAIRED, d.temporary, a, id),
        d.idSet + {id} - (if out.Some? then {out.value.value} else {}),
        Advanced(id))
  }

  function PairedWith(d: Devices, a: RawAddress, id: int): Devices {
    var out := Evicted(MAX_PAIRED, d.paired, a);
    Devices(
      Inserted(MAX_PAIRED, d.paired, a, id),
      Without(d.temporary, a),
      d.idSet - (if out.Some? then {out.value.value} else {}),
      d.nextId)
  }

  function Save(d: Devices, a: RawAddress): Devices {
    if Lookup(d.paired, a).Some? then d.(paired := Touched(d.paired, a))
    else
      match Lookup(d.temporary, a)
      case None => d
      case Some(id) => PairedWith(d, a, id)
  }

  function PairCallbacks(d: Devices, a: RawAddress, id: int, accepted: bool): seq<Callback> {
    var out := Evicted(MAX_PAIRED, d.paired, a);
    (if out.Some? then [Forgotten(out.value.key, out.value.value)] else []) + [Saved(a, id, accepted)]
  }

  function SaveCallbacks(d: Devices, a: RawAddress, accepted: bool): seq<Callback> {
    if Lookup(d.paired, a).Some? then []
    else
      match Lookup(d.temporary, a)
      case None => []
      case Some(id) => PairCallbacks(d, a, id, accepted)
  }

  function Forget(d: Devices, a: RawAddress): Devices {
    match Lookup(d.paired, a)
    case None => d
    case Some(id) => d.(paired := Without(d.paired, a), idSet := d.idSet - {id})
  }

  function ForgetCallbacks(d: Devices, a: RawAddress): seq<Callback> {
    match Lookup(d.paired, a)
    case None => []
    case Some(id) => [Forgotten(a, id)]
  }

  /** Every call returns except an allocation that finds no free id. */
  ghost predicate Returns(d: Devices, op: DeviceOp) {
    op.AllocateId? ==> Answers(d, op.address)
  }

  ghost function DeviceStep(d: Devices, op: DeviceOp): Devices
    requires Returns(d, op)
  {
    match op
    case AllocateId(a) => Allocated(d, a)
    case SaveDevice(a, _) => Save(d, a)
    case ForgetDevice(a) => Forget(d, a)
  }

  function Callbacks(d: Devices, op: DeviceOp): seq<Callback> {
    match op
    case AllocateId(_) => []
    case SaveDevice(a, accepted) => SaveCallbacks(d, a, accepted)
    case ForgetDevice(a) => ForgetCallbacks(d, a)
  }

  // ---------- every step keeps the invariants ----------

  /** What every operation keeps: above all, it neither makes ids stale nor frees stale ones. */
  ghost predicate Kept(d: Devices, d': Devices) {
    Shaped(d') && Stale(d') == Stale(d) && (Tidy(d) ==> Tidy(d')) && (Unique(d) ==> Unique(d'))
  }

  lemma {:induction false} TouchKeeps(d: Devices, a: RawAddress)
    requires Shaped(d)
    ensures var p := d.(paired := Touched(d.paired, a)); Kept(d, p) && Held(p) == Held(d)
    ensures var t := d.(temporary := Touched(d.temporary, a)); Kept(d, t) && Held(t) == Held(d)
  {
    NodesTouched(d.paired, a);
    NodesTouched(d.temporary, a);
  }

  /** What a fresh allocation does to the devices held. */
  lemma {:induction false} AllocateFresh(d: Devices, a: RawAddress)
    requires Shaped(d) && !Known(d, a) && HasFree(d.idSet)
    ensures var d' := Allocated(d, a); var id, out := d'.temporary[0].value, Evicted(MAX_UNPAIRED, d.temporary, a);
            && FirstFree(d.idSet, d.nextId, id)
            && Nodes(d'.paired) == Nodes(d.paired)
            && Nodes(d'.temporary) == Nodes(d.temporary) + {Node(a, id)} - (if out.Some? then {out.value} else {})
            && (out.Some? ==> out.value in d.temporary)
            && d'.idSet == d.idSet + {id} - (if out.Some? then {out.value.value} else {})
            && DistinctKeys(d'.temporary) && |d'.temporary| <= MAX_UNPAIRED && IsValidId(d'.nextId)
  {
    var id := NextFree(d.idSet, d.nextId);
    NodesInserted(MAX_UNPAIRED, d.temporary, a, id);
  }

  lemma {:induction false} AllocateKeeps(d: Devices, a: RawAddress)
    requires Shaped(d) && Answers(d, a)
    ensures var d' := Allocated(d, a); Kept(d, d')
  {
    if Known(d, a) { TouchKeeps(d, a); } else { AllocateNewKeeps(d, a); }
  }

  lemma {:induction false} AllocateNewKeeps(d: Devices, a: RawAddress)
    requires Shaped(d) && !Known(d, a) && HasFree(d.idSet)
    ensures var d' := Allocated(d, a); Kept(d, d')
  {
    AllocateFresh(d, a);
    NewDeviceJoins(d, a);
  }

  lemma {:induction false} NewDeviceJoins(d: Devices, a: RawAddress)
    requires Shaped(d) && !Known(d, a) && HasFree(d.idSet)
    ensures var d' := Allocated(d, a);
            Stale(d') == Stale(d) && (Tidy(d) ==> Tidy(d')) && (Unique(d) ==> Unique(d'))
  {
    AllocateFresh(d, a);
    var d', out := Allocated(d, a), Evicted(MAX_UNPAIRED, d.temporary, a);
    var gone := if out.Some? then {out.value} else {};
    assert Ids(gone) == if out.Some? then {out.value.value} else {};
    NewDevice(d, d', Node(a, d'.temporary[0].value), gone);
  }

  /** A device with a fresh address and a free id joins the temporary list, `gone` leaves it. */
  lemma {:induction false} NewDevice(d: Devices, d': Devices, n: Device, gone: set<Device>)
    requires gone <= Nodes(d.temporary) && |gone| <= 1
    requires n.value !in d.idSet && forall m :: m in Held(d) ==> m.key != n.key
    requires Nodes(d'.paired) == Nodes(d.paired)
    requires Nodes(d'.temporary) == Nodes(d.temporary) + {n} - gone
    requires d'.idSet == d.idSet + {n.value} - Ids(gone)
    ensures Stale(d') == Stale(d)
    ensures Tidy(d) ==> Tidy(d')
    ensures Unique(d) && IsValidId(n.value) ==> Unique(d')
  {
    assert Nodes(d'.paired) + Nodes(d'.temporary) == Held(d') && n in Held(d') && n !in Held(d);
    NewStale(d, d', n, gone);
    if Tidy(d) || Unique(d) { NewIds(d, d', n, gone); }
  }

  lemma {:induction false} NewStale(d: Devices, d': Devices, n: Device, gone: set<Device>)
    requires gone <= Held(d) && n.value !in d.idSet && n in Held(d')
    requires Held(d) - gone + {n} <= Held(d') <= Held(d) + {n}
    requires d'.idSet == d.idSet + {n.value} - Ids(gone)
    ensures Stale(d') == Stale(d)
  {
    forall x | x in Stale(d') ensures x in Stale(d) {
      forall m | m in Held(d) ensures m.value != x { assert m in gone || m in Held(d'); }
    }
    forall x | x in Stale(d) ensures x in Stale(d') {
      forall m | m in gone ensures m.value != x { assert m in Held(d); }
    }
  }

  lemma {:induction false} NewIds(d: Devices, d': Devices, n: Device, gone: set<Device>)
    requires gone <= Held(d) && n.value !in d.idSet && Held(d') <= Held(d) - gone + {n}
    requires forall m, o :: m in Held(d) && o in Held(d) && m != o ==> m.value != o.value
    requires Ids(Held(d)) <= d.idSet && d'.idSet == d.idSet + {n.value} - Ids(gone)
    ensures Ids(Held(d')) <= d'.idSet
    ensures forall m, o :: m in Held(d') && o in Held(d') && m != o ==> m.value != o.value
  {
    forall m | m in Held(d) ensures m.value != n.value { assert m.value in Ids(Held(d)); }
    forall m | m in Held(d') ensures m.value in d'.idSet {
      if m != n { assert m.value in Ids(Held(d)); }
      forall g | g in gone ensures g.value != m.value { assert g in Held(d) && g != m; }
    }
  }

  /** What pairing a device does to the devices held. */
  lemma {:induction false} PairNodes(d: Devices, a: RawAddress)
    requires Shaped(d) && Lookup(d.paired, a).None? && Lookup(d.temporary, a).Some?
    ensures var n, d', out := Node(a, Lookup(d.temporary, a).value), Save(d, a), Evicted(MAX_PAIRED, d.paired, a);
            && n in d.temporary
            && Nodes(d'.temporary) == Nodes(d.temporary) - {n}
            && Nodes(d'.paired) == Nodes(d.paired) + {n} - (if out.Some? then {out.value} else {})
            && (out.Some? ==> out.value in d.paired)
            && DistinctKeys(d'.paired) && |d'.paired| <= MAX_PAIRED
            && DistinctKeys(d'.temporary) && |d'.temporary| <= MAX_UNPAIRED
  {
    var n := Node(a, Lookup(d.temporary, a).value);
    NodesInserted(MAX_PAIRED, d.paired, a, n.value);
    NodesWithout(d.temporary, a);
    forall m | m in d.temporary && m.key == a ensures m == n { NodeIsLookup(d.temporary, m); }
  }

  lemma {:induction false} SaveKeeps(d: Devices, a: RawAddress)
    requires Shaped(d)
    ensures var d' := Save(d, a); Kept(d, d')
  {
    TouchKeeps(d, a);
    if Lookup(d.paired, a).None? && Lookup(d.temporary, a).Some? {
      PairNodes(d, a);
      var d', n, out := Save(d, a), Node(a, Lookup(d.temporary, a).value), Evicted(MAX_PAIRED, d.paired, a);
      var gone := if out.Some? then {out.value} else {};
      assert d'.idSet == d.idSet - Ids(gone);
      MovedDevice(d, d', n, gone);
    }
  }

  /** A device moves from the temporary to the paired list, `gone` leaves the paired list. */
  lemma {:induction false} MovedDevice(d: Devices, d': Devices, n: Device, gone: set<Device>)
    requires gone <= Nodes(d.paired) && n in d.temporary && forall m :: m in d.paired ==> m.key != n.key
    requires Nodes(d'.temporary) == Nodes(d.temporary) - {n}
    requires Nodes(d'.paired) == Nodes(d.paired) + {n} - gone
    requires d'.idSet == d.idSet - Ids(gone)
    ensures Held(d') == Held(d) - (gone - Nodes(d'.temporary))
    ensures Stale(d') == Stale(d) && (Tidy(d) ==> Tidy(d')) && (Unique(d) ==> Unique(d'))
  {
    DevicesLeave(d, d', gone);
  }

  /** Devices leave together with their ids. */
  lemma {:induction false} DevicesLeave(d: Devices, d': Devices, gone: set<Device>)
    requires Held(d) - gone <= Held(d') <= Held(d) && gone <= Held(d)
    requires d'.idSet == d.idSet - Ids(gone)
    ensures Stale(d') == Stale(d)
    ensures (Tidy(d) || Unique(d)) && Held(d') == Held(d) - gone ==> Ids(Held(d')) <= d'.idSet
    ensures Unique(d) && Held(d') == Held(d) - gone ==> d'.idSet == Ids(Held(d'))
  {
    forall x | x in Stale(d') ensures x in Stale(d) {
      forall m | m in Held(d) ensures m.value != x { assert m in gone || m in Held(d'); }
    }
    forall x | x in Stale(d) ensures x in Stale(d') {
      forall m | m in gone ensures m.value != x { assert m in Held(d); }
    }
    if (Tidy(d) || Unique(d)) && Held(d') == Held(d) - gone { RemainingIds(d, d', gone); }
  }

  lemma {:induction false} RemainingIds(d: Devices, d': Devices, gone: set<Device>)
    requires gone <= Held(d) && Held(d') == Held(d) - gone && d'.idSet == d.idSet - Ids(gone)
    requires forall m, o :: m in Held(d) && o in Held(d) && m != o ==> m.value != o.value
    requires Ids(Held(d)) <= d.idSet
    ensures Ids(Held(d')) <= d'.idSet
  {
    forall m | m in Held(d') ensures m.value in d'.idSet {
      assert m.value in Ids(Held(d));
      forall g | g in gone ensures g.value != m.value { assert g in Held(d) && g != m; }
    }
  }

  lemma {:induction false} ForgetNodes(d: Devices, a: RawAddress)
    requires Shaped(d) && Lookup(d.paired, a).Some?
    ensures var n := Node(a, Lookup(d.paired, a).value);
            n in d.paired && Nodes(Forget(d, a).paired) == Nodes(d.paired) - {n}
    ensures DistinctKeys(Forget(d, a).paired) && |Forget(d, a).paired| <= |d.paired|
  {
    var n := Node(a, Lookup(d.paired, a).value);
    NodesWithout(d.paired, a);
    forall m | m in d.paired && m.key == a ensures m == n { NodeIsLookup(d.paired, m); }
  }

  lemma {:induction false} ForgetKeeps(d: Devices, a: RawAddress)
    requires Shaped(d)
    ensures var d' := Forget(d, a); Kept(d, d')
  {
    if Lookup(d.paired, a).Some? {
      ForgetNodes(d, a);
      var n := Node(a, Lookup(d.paired, a).value);
      DevicesLeave(d, Forget(d, a), {n});
    }
  }

  /** Every operation that returns keeps the invariants and leaves the stale ids as they are. */
  lemma {:induction false} StepKeeps(d: Devices, op: DeviceOp)
    requires Shaped(d) && Returns(d, op)
    ensures Kept(d, DeviceStep(d, op))
  {
    match op
    case AllocateId(a) => AllocateKeeps(d, a);
    case SaveDevice(a, _) => SaveKeeps(d, a);
    case ForgetDevice(a) => ForgetKeeps(d, a);
  }

  // ---------- devices as maps ----------

  const CLOSED := Devices([], [], {}, MIN_ID)

  ghost function KeySet(s: seq<Device>): set<RawAddress> {
    set n | n in s :: n.key
  }

  lemma {:induction false} KeySetSize(s: seq<Device>)
    requires DistinctKeys(s)
    ensures |KeySet(s)| == |s|
  {
    if s != [] {
      assert s == [s[0]] + s[1..];
      Cons(s[0], s[1..]);
      KeySetSize(s[1..]);
      assert KeySet(s) == KeySet(s[1..]) + {s[0].key};
      assert s[0].key !in KeySet(s[1..]);
    }
  }

  lemma {:induction false} MapSize(s: seq<Device>)
    requires DistinctKeys(s)
    ensures |AsMap(s)| == |s|
  {
    KeySetSize(s);
    assert AsMap(s).Keys == KeySet(s);
  }

  lemma {:induction false} NodesOfMap(s: seq<Device>, n: Device)
    requires DistinctKeys(s)
    ensures n in s <==> n.key in AsMap(s) && AsMap(s)[n.key] == n.value
  {
    AsMapHas(s, n.key);
    NodeIsLookup(s, n);
  }

  lemma {:induction false} IdsOfUnion(a: set<Device>, b: set<Device>)
    ensures Ids(a + b) == Ids(a) + Ids(b)
  {
    forall x | x in Ids(a) + Ids(b) ensures x in Ids(a + b) {
      var n :| n in a + b && n.value == x;
    }
  }

  // ---------- whole runs ----------

  /** Every call of the run returns. */
  ghost predicate Completes(d: Devices, ops: seq<DeviceOp>)
    decreases |ops|
  {
    ops == [] || (Returns(d, ops[0]) && Completes(DeviceStep(d, ops[0]), ops[1..]))
  }

  ghost function DeviceRun(d: Devices, ops: seq<DeviceOp>): Devices
    requires Completes(d, ops)
    decreases |ops|
  {
    if ops == [] then d else DeviceRun(DeviceStep(d, ops[0]), ops[1..])
  }

  ghost function RunCallbacks(d: Devices, ops: seq<DeviceOp>): seq<Callback>
    requires Completes(d, ops)
    decreases |ops|
  {
    if ops == [] then [] else Callbacks(d, ops[0]) + RunCallbacks(DeviceStep(d, ops[0]), ops[1..])
  }

  lemma {:induction false} RunKeeps(d: Devices, ops: seq<DeviceOp>)
    requires Shaped(d) && Completes(d, ops)
    ensures Kept(d, DeviceRun(d, ops))
    decreases |ops|
  {
    if ops != [] {
      StepKeeps(d, ops[0]);
      RunKeeps(DeviceStep(d, ops[0]), ops[1..]);
    }
  }

  /** With few stale ids every call of every run returns. */
  lemma {:induction false} SoundCompletes(d: Devices, ops: seq<DeviceOp>)
    requires Sound(d)
    ensures Completes(d, ops)
    decreases |ops|
  {
    if ops != [] {
      FreeIdExists(d);
      StepKeeps(d, ops[0]);
      SoundCompletes(DeviceStep(d, ops[0]), ops[1..]);
    }
  }

  // ---------- an address keeps its id ----------

  /** The id AllocateId answers with. */
  ghost function AllocatedId(d: Devices, a: RawAddress): int
    requires Answers(d, a)
  {
    if Lookup(d.paired, a).Some? then Lookup(d.paired, a).value
    else if Lookup(d.temporary, a).Some? then Lookup(d.temporary, a).value
    else NextFree(d.idSet, d.nextId)
  }

  lemma {:induction false} AnswerIsHeld(d: Devices, a: RawAddress)
    requires Shaped(d) && Answers(d, a)
    ensures var n := Node(a, AllocatedId(d, a));
            && n in Held(Allocated(d, a))
            && ((forall m :: m in Held(d) ==> m.key != a) ==> FirstFree(d.idSet, d.nextId, n.value))
            && (Unique(d) ==> n in Held(d) || (n.value !in Ids(Held(d)) && forall m :: m in Held(d) ==> m.key != a))
  {
    TouchKeeps(d, a);
    if Lookup(d.paired, a).Some? { assert Node(a, AllocatedId(d, a)) in Held(d); }
    else if Lookup(d.temporary, a).Some? { assert Node(a, AllocatedId(d, a)) in Held(d); }
    else { AllocateFresh(d, a); }
  }

  /** The device an operation takes away, if any: the forgotten one, or the tail of a full list. */
  ghost function Leaver(d: Devices, op: DeviceOp): Option<Device> {
    match op
    case AllocateId(a) =>
      if Known(d, a) then None else Evicted(MAX_UNPAIRED, d.temporary, a)
    case SaveDevice(a, _) =>
      if Lookup(d.paired, a).Some? || Lookup(d.temporary, a).None? then None else Evicted(MAX_PAIRED, d.paired, a)
    case ForgetDevice(a) =>
      match Lookup(d.paired, a)
      case None => None
      case Some(id) => Some(Node(a, id))
  }

  /** Everybody else stays with the same id, and only AllocateId adds a device. */
  lemma {:induction false} OnlyLeaverLeaves(d: Devices, op: DeviceOp)
    requires Shaped(d) && Unique(d) && Returns(d, op)
    ensures var gone := if Leaver(d, op).Some? then {Leaver(d, op).value} else {};
            var added := if op.AllocateId? then {Node(op.address, AllocatedId(d, op.address))} else {};
            gone <= Held(d) && Held(DeviceStep(d, op)) == Held(d) + added - gone
  {
    match op
    case AllocateId(a) => AllocateAddsOnly(d, a);
    case SaveDevice(a, accepted) => SaveMoves(d, a, accepted);
    case ForgetDevice(a) => ForgetTakes(d, a);
  }

  lemma {:induction false} AllocateAddsOnly(d: Devices, a: RawAddress)
    requires Shaped(d) && Unique(d) && Answers(d, a)
    ensures var out := Leaver(d, AllocateId(a)); var gone := if out.Some? then {out.value} else {};
            gone <= Held(d) && Held(Allocated(d, a)) == Held(d) + {Node(a, AllocatedId(d, a))} - gone
  {
    AllocateAdds(d, a);
  }

  lemma {:induction false} SaveMoves(d: Devices, a: RawAddress, accepted: bool)
    requires Shaped(d) && Unique(d)
    ensures var out := Leaver(d, SaveDevice(a, accepted)); var gone := if out.Some? then {out.value} else {};
            gone <= Held(d) && Held(Save(d, a)) == Held(d) - gone
  {
    if Lookup(d.paired, a).Some? {
      TouchKeeps(d, a);
    } else if Lookup(d.temporary, a).Some? {
      PairingMoves(d, a);
    }
  }

  lemma {:induction false} PairingMoves(d: Devices, a: RawAddress)
    requires Shaped(d) && Unique(d) && Lookup(d.paired, a).None? && Lookup(d.temporary, a).Some?
    ensures var out := Evicted(MAX_PAIRED, d.paired, a); var gone := if out.Some? then {out.value} else {};
            gone <= Held(d) && Held(Save(d, a)) == Held(d) - gone
  {
    PairNodes(d, a);
  }

  lemma {:induction false} ForgetTakes(d: Devices, a: RawAddress)
    requires Shaped(d) && Unique(d)
    ensures var out := Leaver(d, ForgetDevice(a)); var gone := if out.Some? then {out.value} else {};
            gone <= Held(d) && Held(Forget(d, a)) == Held(d) - gone
  {
    if Lookup(d.paired, a).Some? { ForgetNodes(d, a); }
  }

  lemma {:induction false} AllocateAdds(d: Devices, a: RawAddress)
    requires Shaped(d) && Answers(d, a)
    ensures var out := Leaver(d, AllocateId(a)); var gone := if out.Some? then {out.value} else {};
            gone <= Nodes(d.temporary) && Nodes(d.paired) !! gone ==>
              Held(Allocated(d, a)) == Held(d) + {Node(a, AllocatedId(d, a))} - gone
    ensures Leaver(d, AllocateId(a)).Some? ==> Leaver(d, AllocateId(a)).value in Nodes(d.temporary)
  {
    TouchKeeps(d, a);
    AnswerIsHeld(d, a);
    if !Known(d, a) { AllocateFresh(d, a); }
  }

  /** The device is neither forgotten nor evicted anywhere in the run. */
  ghost predicate Untouched(d: Devices, ops: seq<DeviceOp>, n: Device)
    requires Completes(d, ops)
    decreases |ops|
  {
    ops == [] || (Leaver(d, ops[0]) != Some(n) && Untouched(DeviceStep(d, ops[0]), ops[1..], n))
  }

  lemma {:induction false} HeldIsKnown(d: Devices, n: Device)
    requires n in Held(d)
    ensures Known(d, n.key)
  {
    assert n in d.paired || n in d.temporary;
  }

  /** Until it is evicted or forgotten, a device keeps its id and AllocateId answers with it. */
  lemma {:induction false} KeepsId(d: Devices, ops: seq<DeviceOp>, n: Device)
    requires Shaped(d) && Unique(d) && n in Held(d) && Completes(d, ops) && Untouched(d, ops, n)
    ensures n in Held(DeviceRun(d, ops))
    ensures Answers(DeviceRun(d, ops), n.key) && AllocatedId(DeviceRun(d, ops), n.key) == n.value
    decreases |ops|
  {
    if ops == [] {
      HeldIsKnown(d, n);
      AnswerIsHeld(d, n.key);
    } else {
      OnlyLeaverLeaves(d, ops[0]);
      StepKeeps(d, ops[0]);
      KeepsId(DeviceStep(d, ops[0]), ops[1..], n);
    }
  }

  // ---------- the disk mirrors the paired list ----------

  function Applied(disk: map<RawAddress, int>, call: Callback): map<RawAddress, int> {
    match call
    case Saved(a, id, _) => disk[a := id]
    case Forgotten(a, _) => disk - {a}
  }

  function Replay(disk: map<RawAddress, int>, calls: seq<Callback>): map<RawAddress, int>
    decreases |calls|
  {
    if calls == [] then disk else Replay(Applied(disk, calls[0]), calls[1..])
  }

  /** The same, but a save that the callback reported as failed leaves the disk alone. */
  function ReplayAccepted(disk: map<RawAddress, int>, calls: seq<Callback>): map<RawAddress, int>
    decreases |calls|
  {
    if calls == [] then disk
    else if calls[0].Saved? && !calls[0].accepted then ReplayAccepted(disk, calls[1..])
    else ReplayAccepted(Applied(disk, calls[0]), calls[1..])
  }

  lemma {:induction false} SameNodesSameMap(s: seq<Device>, r: seq<Device>)
    requires DistinctKeys(s) && DistinctKeys(r) && Nodes(s) == Nodes(r)
    ensures AsMap(s) == AsMap(r)
  {
    forall n ensures n in s <==> n in r { assert n in Nodes(s) <==> n in Nodes(r); }
    forall n ensures n in s <==> n.key in AsMap(s) && AsMap(s)[n.key] == n.value { NodesOfMap(s, n); }
    AsMapIs(r, AsMap(s));
  }

  lemma {:induction false} PairMirrors(d: Devices, a: RawAddress, accepted: bool)
    requires Shaped(d) && Lookup(d.paired, a).None? && Lookup(d.temporary, a).Some?
    ensures AsMap(Save(d, a).paired) == Replay(AsMap(d.paired), SaveCallbacks(d, a, accepted))
  {
    var m, id := AsMap(d.paired), Lookup(d.temporary, a).value;
    var out, r := Evicted(MAX_PAIRED, d.paired, a), Save(d, a).paired;
    PairNodes(d, a);
    var next := if out.Some? then m - {out.value.key} else m;
    var calls, save := SaveCallbacks(d, a, accepted), Saved(a, id, accepted);
    assert [save][1..] == [] && Replay(next, [save]) == next[a := id];
    assert Replay(m, calls) == next[a := id] by {
      if out.Some? {
        assert calls == [Forgotten(out.value.key, out.value.value), save] && calls[1..] == [save];
        assert Applied(m, calls[0]) == next;
      } else {
        assert calls == [save];
      }
    }
    forall n ensures n in r <==> n.key in next[a := id] && next[a := id][n.key] == n.value {
      NodesOfMap(d.paired, n);
      if out.Some? { NodesOfMap(d.paired, out.value); }
      assert n in r <==> n in Nodes(r);
      assert n in d.paired <==> n in Nodes(d.paired);
      AsMapHas(d.paired, a);
    }
    AsMapIs(r, next[a := id]);
  }

  lemma {:induction false} StepMirrors(d: Devices, op: DeviceOp)
    requires Shaped(d) && Returns(d, op)
    ensures AsMap(DeviceStep(d, op).paired) == Replay(AsMap(d.paired), Callbacks(d, op))
  {
    match op
    case AllocateId(a) => AllocateMirrors(d, a);
    case SaveDevice(a, accepted) => SaveMirrors(d, a, accepted);
    case ForgetDevice(a) => ForgetMirrors(d, a);
  }

  lemma {:induction false} AllocateMirrors(d: Devices, a: RawAddress)
    requires Shaped(d) && Answers(d, a)
    ensures AsMap(Allocated(d, a).paired) == AsMap(d.paired)
  {
    if Lookup(d.paired, a).Some? { TouchMirrors(d.paired, a); }
  }

  lemma {:induction false} TouchMirrors(s: seq<Device>, a: RawAddress)
    requires DistinctKeys(s)
    ensures AsMap(Touched(s, a)) == AsMap(s)
  {
    NodesTouched(s, a);
    SameNodesSameMap(s, Touched(s, a));
  }

  lemma {:induction false} SaveMirrors(d: Devices, a: RawAddress, accepted: bool)
    requires Shaped(d)
    ensures AsMap(Save(d, a).paired) == Replay(AsMap(d.paired), SaveCallbacks(d, a, accepted))
  {
    if Lookup(d.paired, a).Some? {
      TouchMirrors(d.paired, a);
    } else if Lookup(d.temporary, a).Some? {
      PairMirrors(d, a, accepted);
    }
  }

  lemma {:induction false} ForgetMirrors(d: Devices, a: RawAddress)
    requires Shaped(d)
    ensures AsMap(Forget(d, a).paired) == Replay(AsMap(d.paired), ForgetCallbacks(d, a))
  {
    if Lookup(d.paired, a).Some? {
      var call := ForgetCallbacks(d, a);
      assert call[1..] == [] && Applied(AsMap(d.paired), call[0]) == AsMap(d.paired) - {a};
      WithoutMirrors(d.paired, a);
    }
  }

  lemma {:induction false} WithoutMirrors(s: seq<Device>, a: RawAddress)
    requires DistinctKeys(s)
    ensures AsMap(Without(s, a)) == AsMap(s) - {a}
  {
    var r, m := Without(s, a), AsMap(s) - {a};
    NodesWithout(s, a);
    forall n ensures n in r <==> n.key in m && m[n.key] == n.value {
      NodesOfMap(s, n);
      assert n in r <==> n in Nodes(r);
    }
    AsMapIs(r, m);
  }

  lemma {:induction false} ReplayConcat(disk: map<RawAddress, int>, a: seq<Callback>, b: seq<Callback>)
    ensures Replay(disk, a + b) == Replay(Replay(disk, a), b)
    decreases |a|
  {
    if a == [] {
      assert a + b == b;
    } else {
      assert (a + b)[1..] == a[1..] + b;
      ReplayConcat(Applied(disk, a[0]), a[1..], b);
    }
  }

  /** Replaying the callbacks of any run on the map Init was given yields the paired list. */
  lemma {:induction false} RunMirrors(d: Devices, ops: seq<DeviceOp>)
    requires Shaped(d) && Completes(d, ops)
    ensures AsMap(DeviceRun(d, ops).paired) == Replay(AsMap(d.paired), RunCallbacks(d, ops))
    decreases |ops|
  {
    if ops != [] {
      StepKeeps(d, ops[0]);
      StepMirrors(d, ops[0]);
      RunMirrors(DeviceStep(d, ops[0]), ops[1..]);
      ReplayConcat(AsMap(d.paired), Callbacks(d, ops[0]), RunCallbacks(DeviceStep(d, ops[0]), ops[1..]));
    }
  }

  /** Replaying the callbacks, the disk never holds more devices than the paired cache may. */
  ghost predicate StaysSmall(disk: map<RawAddress, int>, calls: seq<Callback>)
    decreases |calls|
  {
    |disk| <= MAX_PAIRED && (calls == [] || StaysSmall(Applied(disk, calls[0]), calls[1..]))
  }

  lemma {:induction false} SmallConcat(disk: map<RawAddress, int>, a: seq<Callback>, b: seq<Callback>)
    requires StaysSmall(disk, a) && StaysSmall(Replay(disk, a), b)
    ensures StaysSmall(disk, a + b)
    decreases |a|
  {
    if a == [] {
      assert a + b == b;
    } else {
      assert (a + b)[1..] == a[1..] + b;
      SmallConcat(Applied(disk, a[0]), a[1..], b);
    }
  }

  lemma {:induction false} SmallThroughout(disk: map<RawAddress, int>, calls: seq<Callback>, i: nat)
    requires StaysSmall(disk, calls) && i <= |calls|
    ensures |Replay(disk, calls[..i])| <= MAX_PAIRED
    decreases |calls|
  {
    if i > 0 {
      assert calls[..i][1..] == calls[1..][..i - 1];
      SmallThroughout(Applied(disk, calls[0]), calls[1..], i - 1);
    }
  }

  lemma {:induction false} StepStaysSmall(d: Devices, op: DeviceOp)
    requires Shaped(d) && Returns(d, op)
    ensures StaysSmall(AsMap(d.paired), Callbacks(d, op))
  {
    MapSize(d.paired);
    EndsSmall(d, op);
    FewCalls(d, op);
    CallsStaySmall(AsMap(d.paired), Callbacks(d, op));
  }

  lemma {:induction false} EndsSmall(d: Devices, op: DeviceOp)
    requires Shaped(d) && Returns(d, op)
    ensures |Replay(AsMap(d.paired), Callbacks(d, op))| <= MAX_PAIRED
  {
    StepMirrors(d, op);
    StepKeeps(d, op);
    MapSize(DeviceStep(d, op).paired);
  }

  /** At most two callbacks, the first of two a forgotten device. */
  lemma {:induction false} FewCalls(d: Devices, op: DeviceOp)
    ensures var calls := Callbacks(d, op); |calls| <= 2 && (|calls| == 2 ==> calls[0].Forgotten?)
  {
  }

  lemma {:induction false} CallsStaySmall(disk: map<RawAddress, int>, calls: seq<Callback>)
    requires |disk| <= MAX_PAIRED && |Replay(disk, calls)| <= MAX_PAIRED
    requires |calls| <= 2 && (|calls| == 2 ==> calls[0].Forgotten?)
    ensures StaysSmall(disk, calls)
  {
    if |calls| == 1 {
      CallStaysSmall(disk, calls);
    } else if |calls| == 2 {
      Subset((disk - {calls[0].address}).Keys, disk.Keys);
      CallStaysSmall(Applied(disk, calls[0]), calls[1..]);
    }
  }

  lemma {:induction false} CallStaysSmall(disk: map<RawAddress, int>, calls: seq<Callback>)
    requires |disk| <= MAX_PAIRED && |calls| == 1 && |Replay(disk, calls)| <= MAX_PAIRED
    ensures StaysSmall(disk, calls)
  {
    assert calls[1..] == [];
    assert Replay(disk, calls) == Applied(disk, calls[0]);
  }

  lemma {:induction false} RunStaysSmall(d: Devices, ops: seq<DeviceOp>)
    requires Shaped(d) && Completes(d, ops)
    ensures StaysSmall(AsMap(d.paired), RunCallbacks(d, ops))
    decreases |ops|
  {
    if ops == [] {
      MapSize(d.paired);
    } else {
      StepStaysSmall(d, ops[0]);
      StepKeeps(d, ops[0]);
      StepMirrors(d, ops[0]);
      RunStaysSmall(DeviceStep(d, ops[0]), ops[1..]);
      SmallConcat(AsMap(d.paired), Callbacks(d, ops[0]), RunCallbacks(DeviceStep(d, ops[0]), ops[1..]));
    }
  }

  /** At no moment of a run does the disk hold more devices than the paired cache may: evictions are reported first. */
  lemma {:induction false} DiskStaysSmall(d: Devices, ops: seq<DeviceOp>, i: nat)
    requires Shaped(d) && Completes(d, ops) && i <= |RunCallbacks(d, ops)|
    ensures |Replay(AsMap(d.paired), RunCallbacks(d, ops)[..i])| <= MAX_PAIRED
  {
    RunStaysSmall(d, ops);
    SmallThroughout(AsMap(d.paired), RunCallbacks(d, ops), i);
  }

  ghost predicate Submap(a: map<RawAddress, int>, b: map<RawAddress, int>) {
    forall k :: k in a ==> k in b && a[k] == b[k]
  }

  lemma {:induction false} AcceptedConcat(disk: map<RawAddress, int>, a: seq<Callback>, b: seq<Callback>)
    ensures ReplayAccepted(disk, a + b) == ReplayAccepted(ReplayAccepted(disk, a), b)
    decreases |a|
  {
    if a == [] {
      assert a + b == b;
    } else {
      assert (a + b)[1..] == a[1..] + b;
      AcceptedConcat(if a[0].Saved? && !a[0].accepted then disk else Applied(disk, a[0]), a[1..], b);
    }
  }

  lemma {:induction false} OneCallLoses(kept: map<RawAddress, int>, m: map<RawAddress, int>, c: Callback)
    requires Submap(kept, m) && (c.Saved? ==> c.address !in m)
    ensures Submap(ReplayAccepted(kept, [c]), Replay(m, [c]))
  {
    assert [c][1..] == [];
  }

  /** On one step's callbacks, dropping a failed save loses that save and nothing else. */
  lemma {:induction false} StepLoses(kept: map<RawAddress, int>, d: Devices, op: DeviceOp)
    requires Shaped(d) && Submap(kept, AsMap(d.paired))
    ensures Submap(ReplayAccepted(kept, Callbacks(d, op)), Replay(AsMap(d.paired), Callbacks(d, op)))
  {
    AsMapHas(d.paired, op.address);
    CallsLose(kept, AsMap(d.paired), op.address, Callbacks(d, op));
  }

  lemma {:induction false} CallsLose(
      kept: map<RawAddress, int>, m: map<RawAddress, int>, a: RawAddress, calls: seq<Callback>)
    requires Submap(kept, m) && |calls| <= 2
    requires |calls| == 2 ==> calls[0].Forgotten?
    requires forall c :: c in calls && c.Saved? ==> c.address == a && a !in m
    ensures Submap(ReplayAccepted(kept, calls), Replay(m, calls))
  {
    if |calls| == 1 {
      assert calls == [calls[0]];
      OneCallLoses(kept, m, calls[0]);
    } else if |calls| == 2 {
      var c, rest := calls[0], [calls[1]];
      assert calls[1..] == rest;
      OneCallLoses(Applied(kept, c), Applied(m, c), calls[1]);
    }
  }

  /** Saves that the callback refuses only make the disk hold less; nothing stale stays on it. */
  lemma {:induction false} FailedSavesOnlyLose(kept: map<RawAddress, int>, d: Devices, ops: seq<DeviceOp>)
    requires Shaped(d) && Completes(d, ops) && Submap(kept, AsMap(d.paired))
    ensures Submap(ReplayAccepted(kept, RunCallbacks(d, ops)), AsMap(DeviceRun(d, ops).paired))
    decreases |ops|
  {
    if ops != [] {
      var calls, d' := Callbacks(d, ops[0]), DeviceStep(d, ops[0]);
      StepKeeps(d, ops[0]);
      StepMirrors(d, ops[0]);
      StepLoses(kept, d, ops[0]);
      FailedSavesOnlyLose(ReplayAccepted(kept, calls), d', ops[1..]);
      AcceptedConcat(kept, calls, RunCallbacks(d', ops[1..]));
    }
  }

  /** When every save is accepted, the disk gets everything. */
  lemma {:induction false} AcceptedIsAll(disk: map<RawAddress, int>, calls: seq<Callback>)
    requires forall c :: c in calls && c.Saved? ==> c.accepted
    ensures ReplayAccepted(disk, calls) == Replay(disk, calls)
    decreases |calls|
  {
    if calls != [] {
      assert calls[0] in calls && forall c :: c in calls[1..] ==> c in calls;
      AcceptedIsAll(Applied(disk, calls[0]), calls[1..]);
    }
  }

  lemma {:induction false} AnswersFromPaired(d: Devices, a: RawAddress)
    requires Shaped(d) && a in AsMap(d.paired)
    ensures Answers(d, a) && AllocatedId(d, a) == AsMap(d.paired)[a]
  {
    AsMapHas(d.paired, a);
  }
}
