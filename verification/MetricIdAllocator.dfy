/** MetricIdAllocator: the fields and methods of the source, proved against the value-level model. */
module MetricIdAllocator {
  import opened Options
  import opened LruModel
  import opened Lru
  import opened MetricIdModel
  import opened MetricIdInit
  import opened MetricIdLife

  /** The two middle outcomes abort the process; the last one aborts in the middle of loading. */
  datatype InitOutcome = InitDone | AlreadyInitialized | TooManyDevices | InvalidSavedId

  /** A device that has to leave while Init loads had been paired before. */
  lemma {:induction false} EvictsOnlyEarlier(d: Devices, saved: seq<Device>, i: nat)
    requires d.paired == [] && DistinctKeys(saved) && i < |saved| <= MAX_PAIRED
    ensures Evicted(MAX_PAIRED, Load(d, saved[..i]).paired, saved[i].key).None?
  {
    LoadSplits(d, saved[..i]);
    BlankRest(d, saved[..i]);
    assert |Rev(saved[..i]) + []| == i;
  }

  lemma Regroup(a: seq<Callback>, b: seq<Callback>, c: seq<Callback>)
    ensures a + b + c == a + (b + c)
  {
  }

  class MetricIdAllocator {
    const pairedDeviceCache: LegacyLruCache<RawAddress, int>
    const temporaryDeviceCache: LegacyLruCache<RawAddress, int>
    var idSet: set<int>
    var nextId: int
    var initialized: bool
    var callbacksSet: bool        // Close does not unset them
    var callbacks: seq<Callback>  // the calls made to the save and forget callbacks, in order

    ghost function State(): Devices
      reads this, pairedDeviceCache, temporaryDeviceCache
    {
      Devices(pairedDeviceCache.Contents(), temporaryDeviceCache.Contents(), idSet, nextId)
    }

    ghost predicate CachesValid()
      reads this, pairedDeviceCache, temporaryDeviceCache
    {
      && pairedDeviceCache != temporaryDeviceCache
      && pairedDeviceCache.Valid() && pairedDeviceCache.capacity == MAX_PAIRED
      && temporaryDeviceCache.Valid() && temporaryDeviceCache.capacity == MAX_UNPAIRED
    }

    ghost function Value(): Allocator
      reads this, pairedDeviceCache, temporaryDeviceCache
    {
      Allocator(State(), initialized, callbacksSet)
    }

    ghost predicate Valid()
      reads this, pairedDeviceCache, temporaryDeviceCache
    {
      CachesValid() && WellFormed(Value())
    }

    constructor ()
      ensures Valid() && Value() == NEW && callbacks == []
    {
      pairedDeviceCache := new LegacyLruCache(MAX_PAIRED);
      temporaryDeviceCache := new LegacyLruCache(MAX_UNPAIRED);
      idSet, nextId, initialized, callbacksSet, callbacks := {}, MIN_ID, false, false, [];
    }

    /** `saved` is the paired device map in the order its iterator yields it. */
    method Init(saved: seq<Device>) returns (outcome: InitOutcome)
      requires Valid() && DistinctKeys(saved)
      modifies this, pairedDeviceCache
      ensures outcome == AlreadyInitialized <==> old(initialized)
      ensures outcome == TooManyDevices <==> !old(initialized) && |saved| > MAX_PAIRED
      ensures outcome == InvalidSavedId <==>
                !old(initialized) && |saved| <= MAX_PAIRED && exists n :: n in saved && !IsValidId(n.value)
      ensures outcome == AlreadyInitialized || outcome == TooManyDevices ==>
                Valid() && Value() == old(Value()) && callbacks == old(callbacks)
      ensures outcome == AlreadyInitialized || outcome == InitDone ==>
                Valid() && Defined(old(Value()), OnInit(saved)) && Value() == After(old(Value()), OnInit(saved))
      ensures outcome == InitDone ==> callbacks == old(callbacks) + LoadCallbacks(old(State()), saved)
    {
      if initialized { return AlreadyInitialized; }
      if |saved| > MAX_PAIRED { return TooManyDevices; }
      var valid := LoadAndWrap(saved);
      if !valid { return InvalidSavedId; }
      callbacksSet := true;
      initialized := true;
      return InitDone;
    }

    /** The body of Init once the size of the map is known to be fine. */
    method LoadAndWrap(saved: seq<Device>) returns (valid: bool)
      requires Valid() && DistinctKeys(saved) && |saved| <= MAX_PAIRED
      modifies this`idSet, this`nextId, this`callbacks, pairedDeviceCache
      ensures valid <==> Loadable(saved)
      ensures valid ==>
                && CachesValid() && Shaped(State())
                && State() == InitOf(old(State()), saved)
                && callbacks == old(callbacks) + LoadCallbacks(old(State()), saved)
    {
      valid := LoadSaved(saved);
      if valid {
        InitShaped(old(State()), saved);
        if nextId > MAX_ID { nextId := MIN_ID; }
      }
    }

    /** The loop of Init over the saved devices, with the cursor it starts from. */
    method LoadSaved(saved: seq<Device>) returns (valid: bool)
      requires CachesValid() && DistinctKeys(saved) && |saved| <= MAX_PAIRED
      requires !callbacksSet ==> pairedDeviceCache.Contents() == []
      modifies this`idSet, this`nextId, this`callbacks, pairedDeviceCache
      ensures valid <==> Loadable(saved)
      ensures valid ==>
                && CachesValid()
                && State() == Load(old(State()), saved)
                && callbacks == old(callbacks) + LoadCallbacks(old(State()), saved)
    {
      ghost var d := State();
      nextId := MIN_ID;
      for i := 0 to |saved|
        invariant CachesValid()
        invariant State() == Load(d, saved[..i])
        invariant callbacks == old(callbacks) + LoadCallbacks(d, saved[..i])
        invariant callbacksSet == old(callbacksSet) && forall j :: 0 <= j < i ==> IsValidId(saved[j].value)
      {
        if !IsValidId(saved[i].value) { return false; }
        LoadNext(saved, i, d, old(callbacks));
      }
      assert saved[..|saved|] == saved;
      return true;
    }

    /** One round of that loop, when `d` and `before` were the devices and callbacks in the beginning. */
    method LoadNext(saved: seq<Device>, i: nat, ghost d: Devices, ghost before: seq<Callback>)
      requires CachesValid() && DistinctKeys(saved) && i < |saved| <= MAX_PAIRED && (callbacksSet || d.paired == [])
      requires State() == Load(d, saved[..i]) && callbacks == before + LoadCallbacks(d, saved[..i])
      modifies this`idSet, this`nextId, this`callbacks, pairedDeviceCache
      ensures CachesValid()
      ensures State() == Load(d, saved[..i + 1]) && callbacks == before + LoadCallbacks(d, saved[..i + 1])
    {
      if !callbacksSet { EvictsOnlyEarlier(d, saved, i); }
      LoadDevice(saved[i]);
      LoadUnfolds(d, saved, i);
      Regroup(before, LoadCallbacks(d, saved[..i]), LoadOneCallbacks(Load(d, saved[..i]), saved[i]));
    }

    /** The body of the loop for one device. */
    method LoadDevice(n: Device)
      requires CachesValid()
      requires callbacksSet || Evicted(MAX_PAIRED, pairedDeviceCache.Contents(), n.key).None?
      modifies this`idSet, this`nextId, this`callbacks, pairedDeviceCache
      ensures CachesValid() && State() == LoadOne(old(State()), n)
      ensures callbacks == old(callbacks) + LoadOneCallbacks(old(State()), n)
    {
      var evicted := pairedDeviceCache.Put(n.key, n.value);
      if evicted.Some? {
        ForgetDevicePostprocess(evicted.value.key, evicted.value.value);
      }
      idSet := idSet + {n.value};
      nextId := if nextId < n.value + 1 then n.value + 1 else nextId;
    }

    method Close() returns (closed: bool)
      requires Valid()
      modifies this, pairedDeviceCache, temporaryDeviceCache
      ensures Valid() && Value() == After(old(Value()), OnClose)
      ensures closed == old(initialized) && callbacks == old(callbacks)
    {
      if !initialized { return false; }
      pairedDeviceCache.Clear();
      temporaryDeviceCache.Clear();
      idSet := {};
      initialized := false;
      return true;
    }

    method IsEmpty() returns (empty: bool)
      requires Valid()
      ensures empty <==> Held(State()) == {}
    {
      var p := pairedDeviceCache.Size();
      var t := temporaryDeviceCache.Size();
      empty := p == 0 && t == 0;
      if p > 0 { assert State().paired[0] in Held(State()); }
      if t > 0 { assert State().temporary[0] in Held(State()); }
    }

    /** The loop that finds the next id: it ends, at the first free id going round. */
    method FindNextId()
      requires IsValidId(nextId) && HasFree(idSet)
      modifies this`nextId
      ensures nextId == NextFree(idSet, old(nextId))
    {
      ghost var start, target := nextId, NextFree(idSet, nextId);
      while nextId in idSet
        invariant IsValidId(nextId)
        invariant Distance(start, nextId) <= Distance(start, target)
        decreases Distance(start, target) - Distance(start, nextId)
      {
        nextId := nextId + 1;
        if nextId > MAX_ID {
          nextId := MIN_ID;
        }
      }
      assert Cyclic(start, Distance(start, nextId)) == nextId;
    }

    /** Without a free id the search for a new address would not end. */
    method AllocateId(macAddress: RawAddress) returns (id: int)
      requires Valid() && Answers(State(), macAddress)
      modifies this, pairedDeviceCache, temporaryDeviceCache
      ensures Valid() && callbacks == old(callbacks)
      ensures Value() == After(old(Value()), Use(DeviceOp.AllocateId(macAddress)))
      ensures id == AllocatedId(old(State()), macAddress)
    {
      CallKeepsForm(Value(), Use(DeviceOp.AllocateId(macAddress)));
      var known := pairedDeviceCache.Get(macAddress);
      if known.None? {
        known := temporaryDeviceCache.Get(macAddress);
      }
      id := AllocateUnlessKnown(macAddress, known);
    }

    /** The rest of AllocateId: an address found in neither cache gets the next free id. */
    method AllocateUnlessKnown(macAddress: RawAddress, known: Option<int>) returns (id: int)
      requires CachesValid() && (known.None? ==> IsValidId(nextId) && HasFree(idSet))
      modifies this, temporaryDeviceCache
      ensures CachesValid() && initialized == old(initialized)
      ensures callbacksSet == old(callbacksSet) && callbacks == old(callbacks)
      ensures known.Some? ==> State() == old(State()) && id == known.value
      ensures known.None? ==>
                var d := old(State()); var out := Evicted(MAX_UNPAIRED, d.temporary, macAddress);
                && id == NextFree(d.idSet, d.nextId)
                && State() == Devices(d.paired, Inserted(MAX_UNPAIRED, d.temporary, macAddress, id),
                                      d.idSet + {id} - (if out.Some? then {out.value.value} else {}), Advanced(id))
    {
      if known.Some? {
        return known.value;
      }
      FindNextId();
      id := TakeNextId(macAddress);
    }

    /** The end of AllocateId: the id under the cursor goes to the address, which joins the temporary cache. */
    method TakeNextId(macAddress: RawAddress) returns (id: int)
      requires CachesValid()
      modifies this`idSet, this`nextId, temporaryDeviceCache
      ensures CachesValid()
      ensures var d := old(State()); var out := Evicted(MAX_UNPAIRED, d.temporary, macAddress);
              && id == d.nextId
              && State() == Devices(d.paired, Inserted(MAX_UNPAIRED, d.temporary, macAddress, id),
                                    d.idSet + {id} - (if out.Some? then {out.value.value} else {}), Advanced(id))
    {
      id := nextId;
      nextId := nextId + 1;
      idSet := idSet + {id};
      var evicted := temporaryDeviceCache.Put(macAddress, id);
      if evicted.Some? {
        idSet := idSet - {evicted.value.value};
      }
      if nextId > MAX_ID {
        nextId := MIN_ID;
      }
    }

    /**
     `accepted` is the answer of the save callback. Before the first Init there is no
     callback to ask, and a call that gets as far as asking it is undefined.
     */
    method SaveDevice(macAddress: RawAddress, accepted: bool) returns (ok: bool)
      requires Valid() && Defined(Value(), Use(DeviceOp.SaveDevice(macAddress, accepted)))
      modifies this, pairedDeviceCache, temporaryDeviceCache
      ensures Valid()
      ensures Value() == After(old(Value()), Use(DeviceOp.SaveDevice(macAddress, accepted)))
      ensures callbacks == old(callbacks) + SaveCallbacks(old(State()), macAddress, accepted)
      ensures ok <==>
                Lookup(old(State()).paired, macAddress).Some? ||
                (Lookup(old(State()).temporary, macAddress).Some? && accepted)
    {
      CallKeepsForm(Value(), Use(DeviceOp.SaveDevice(macAddress, accepted)));
      var id := pairedDeviceCache.Get(macAddress);
      if id.Some? { return true; }
      ok := SaveTemporary(macAddress, accepted);
    }

    /** The rest of SaveDevice for a device that is not paired yet. */
    method SaveTemporary(macAddress: RawAddress, accepted: bool) returns (ok: bool)
      requires CachesValid() && Lookup(State().paired, macAddress).None?
      requires callbacksSet || Lookup(State().temporary, macAddress).None?
      modifies this, pairedDeviceCache, temporaryDeviceCache
      ensures CachesValid() && initialized == old(initialized) && callbacksSet == old(callbacksSet)
      ensures State() == Save(old(State()), macAddress)
      ensures callbacks == old(callbacks) + SaveCallbacks(old(State()), macAddress, accepted)
      ensures ok <==> Lookup(old(State()).temporary, macAddress).Some? && accepted
    {
      var id := temporaryDeviceCache.Get(macAddress);
      if id.None? { return false; }
      TouchedWithout(old(State()).temporary, macAddress);
      ok := MoveToPaired(macAddress, id.value, accepted);
    }

    method MoveToPaired(macAddress: RawAddress, id: int, accepted: bool) returns (ok: bool)
      requires CachesValid() && callbacksSet && Resident(State().temporary, macAddress)
      modifies this, pairedDeviceCache, temporaryDeviceCache
      ensures CachesValid() && initialized == old(initialized) && callbacksSet && ok == accepted
      ensures State() == PairedWith(old(State()), macAddress, id)
      ensures callbacks == old(callbacks) + PairCallbacks(old(State()), macAddress, id, accepted)
    {
      var removed := temporaryDeviceCache.Remove(macAddress);
      assert removed;  // the error branch for a failed removal is dead
      ok := Pair(macAddress, id, accepted);
    }

    /** The rest of SaveDevice: the device, already out of the temporary cache, becomes paired. */
    method Pair(macAddress: RawAddress, id: int, accepted: bool) returns (ok: bool)
      requires CachesValid() && callbacksSet
      modifies this, pairedDeviceCache
      ensures CachesValid() && initialized == old(initialized) && callbacksSet
      ensures nextId == old(nextId) && ok == accepted
      ensures pairedDeviceCache.Contents() == Inserted(MAX_PAIRED, old(pairedDeviceCache.Contents()), macAddress, id)
      ensures var out := Evicted(MAX_PAIRED, old(pairedDeviceCache.Contents()), macAddress);
              idSet == old(idSet) - (if out.Some? then {out.value.value} else {})
      ensures callbacks == old(callbacks) + PairCallbacks(old(State()), macAddress, id, accepted)
    {
      var evicted := pairedDeviceCache.Put(macAddress, id);
      if evicted.Some? {
        ForgetDevicePostprocess(evicted.value.key, evicted.value.value);
      }
      callbacks := callbacks + [Saved(macAddress, id, accepted)];
      return accepted;
    }

    method ForgetDevice(macAddress: RawAddress)
      requires Valid()
      modifies this, pairedDeviceCache
      ensures Valid()
      ensures Value() == After(old(Value()), Use(DeviceOp.ForgetDevice(macAddress)))
      ensures callbacks == old(callbacks) + ForgetCallbacks(old(State()), macAddress)
    {
      CallKeepsForm(Value(), Use(DeviceOp.ForgetDevice(macAddress)));
      var id := pairedDeviceCache.Get(macAddress);
      if id.None? { return; }
      TouchedWithout(old(State()).paired, macAddress);
      RemovePaired(macAddress, id.value);
    }

    /** The rest of ForgetDevice for a device that is paired. */
    method RemovePaired(macAddress: RawAddress, id: int)
      requires CachesValid() && callbacksSet && Resident(State().paired, macAddress)
      modifies this`idSet, this`callbacks, pairedDeviceCache
      ensures CachesValid() && callbacks == old(callbacks) + [Forgotten(macAddress, id)]
      ensures State() == old(State()).(paired := Without(old(State()).paired, macAddress), idSet := old(idSet) - {id})
    {
      var removed := pairedDeviceCache.Remove(macAddress);
      assert removed;  // the error branch for a failed removal is dead
      ForgetDevicePostprocess(macAddress, id);
    }

    method ForgetDevicePostprocess(macAddress: RawAddress, id: int)
      requires callbacksSet
      modifies this`idSet, this`callbacks
      ensures idSet == old(idSet) - {id}
      ensures callbacks == old(callbacks) + [Forgotten(macAddress, id)]
    {
      idSet := idSet - {id};
      callbacks := callbacks + [Forgotten(macAddress, id)];
    }
  }

  /** Looking a key up and then removing it is the same as removing it. */
  lemma {:induction false} TouchedWithout(s: seq<Device>, a: RawAddress)
    requires Lookup(s, a).Some?
    ensures Resident(Touched(s, a), a)
    ensures Without(Touched(s, a), a) == Without(s, a)
  {
    assert Touched(s, a)[0].key == a;
    assert Touched(s, a)[1..] == Without(s, a);
  }
}
