/**
 The device manager: two lookup tables of device objects, the index allocator and the stored
 list. Every operation takes the step its specification in `DeviceTables` allows; the ghost
 field `run` records them, so that what holds of every run holds of every manager.
 */
module DeviceManagers {
  import opened DeviceDefs
  import opened RpcSerdes
  import opened IndexAllocators
  import opened Devices
  import opened DeviceTables
  import IndexSpec

  /** The persistent entry of the device list. */
  class DeviceStorage {
    var stored: Option<seq<RvDeviceInfo>>

    constructor (stored: Option<seq<RvDeviceInfo>>)
      ensures this.stored == stored
    {
      this.stored := stored;
    }

    /** Without an entry, or with one that does not convert, there are no devices. */
    method LoadDevices() returns (xs: seq<DeviceInfo>)
      ensures xs == Loaded(stored)
      ensures stored.Some? && DevicesFromRpc(stored.value).Ok? ==> DevicesFromRpc(stored.value) == Ok(xs)
      ensures stored.None? || DevicesFromRpc(stored.value).Err? ==> xs == []
    {
      if stored.None? {
        return [];
      }
      var r := DeviceListFromRpc(stored.value);
      return if r.Ok? then r.value else [];
    }

    method SaveDevices(xs: seq<DeviceInfo>)
      requires DevicesToRpc(xs).Ok?
      modifies this
      ensures stored == Some(DevicesToRpc(xs).value)
    {
      var r := DeviceListToRpc(xs);
      stored := Some(r.value);
    }
  }

  /** `xs` lists the part of the table outside `rest`, all of it before `rest`. */
  ghost predicate ListsUpTo(xs: seq<DeviceInfo>, t: Table, rest: set<nat>) {
    && Lists(xs, t - rest)
    && forall k, i :: 0 <= k < |xs| && i in rest ==> xs[k].index < i
  }

  lemma ListedNext(xs: seq<DeviceInfo>, t: Table, rest: set<nat>, i: nat)
    requires Keyed(t) && rest <= t.Keys && ListsUpTo(xs, t, rest)
    requires i in rest && forall j | j in rest :: i <= j
    ensures ListsUpTo(xs + [t[i]], t, rest - {i})
  {
    ListingAppend(xs, t - rest, t[i]);
    assert t - (rest - {i}) == (t - rest)[i := t[i]];
  }

  lemma {:induction false} SmallestExists(s: set<nat>)
    requires s != {}
    ensures exists i :: i in s && forall j | j in s :: i <= j
  {
    var x :| x in s;
    var rest := s - {x};
    if rest == {} {
      assert s == {x};
    } else {
      SmallestExists(rest);
      var y :| y in rest && forall j | j in rest :: y <= j;
      SmallerOfTwo(s, x, y);
    }
  }

  lemma SmallerOfTwo(s: set<nat>, x: nat, y: nat)
    requires x in s && y in s && forall j | j in s - {x} :: y <= j
    ensures exists i :: i in s && forall j | j in s :: i <= j
  {
    var z := if x < y then x else y;
    forall j | j in s
      ensures z <= j
    {
      assert j == x || j in s - {x};
    }
  }

  class DeviceManager {
    var deviceByIndex: map<nat, Device>
    var deviceByUid: map<string, Device>
    const indexAllocator: IndexAllocator
    const storage: DeviceStorage
    /** Everything that has been done, and the state it led to. */
    ghost var run: Trace

    /** The device objects carry the infos of the table, and both tables refer to the same objects. */
    ghost predicate Linked(t: Table, uids: Uids)
      reads `deviceByIndex, `deviceByUid, deviceByIndex.Values
    {
      && deviceByIndex.Keys == t.Keys && deviceByUid.Keys == uids.Keys
      && (forall i | i in deviceByIndex :: Carries(deviceByIndex[i], t[i]))
      && (forall u | u in deviceByUid :: uids[u] in deviceByIndex && deviceByUid[u] == deviceByIndex[uids[u]])
    }

    /** Every entry but `i` carries its info, and both tables refer to the same objects. */
    ghost predicate LinkedBut(t: Table, uids: Uids, i: nat)
      reads `deviceByIndex, `deviceByUid, deviceByIndex.Values
    {
      && deviceByIndex.Keys == t.Keys && deviceByUid.Keys == uids.Keys
      && (forall j | j in deviceByIndex && j != i :: Carries(deviceByIndex[j], t[j]))
      && (forall u | u in deviceByUid :: uids[u] in deviceByIndex && deviceByUid[u] == deviceByIndex[uids[u]])
    }

    lemma Relinked(t: Table, uids: Uids, i: nat, x: DeviceInfo)
      requires LinkedBut(t, uids, i) && i in t && Carries(deviceByIndex[i], x)
      ensures Linked(t[i := x], uids)
    {
    }

    ghost predicate Valid()
      reads this, indexAllocator, storage, deviceByIndex.Values
    {
      && Legal(run) && Linked(run.s.table, run.s.uids)
      && indexAllocator.Valid() && run.s.alloc == indexAllocator.Model()
      && run.s.stored == storage.stored
    }

    method GetAllDevices(ghost t: Table, ghost uids: Uids) returns (xs: seq<DeviceInfo>)
      requires Linked(t, uids) && Keyed(t)
      ensures xs == Listing(t) && Lists(xs, t)
    {
      xs := [];
      var rest := deviceByIndex.Keys;
      assert t - rest == map[];
      while rest != {}
        invariant rest <= t.Keys
        invariant ListsUpTo(xs, t, rest)
        decreases rest
      {
        SmallestExists(rest);
        var i :| i in rest && forall j | j in rest :: i <= j;
        ListedNext(xs, t, rest, i);
        xs := xs + [deviceByIndex[i].info];
        rest := rest - {i};
      }
      assert t - {} == t;
      ListingLists(t);
      ListingUnique(xs, Listing(t), t);
    }

    /** Writes the listing of the table to storage. */
    method SaveDevices(ghost t: Table, ghost uids: Uids)
      requires Linked(t, uids) && Savable(t)
      modifies storage
      ensures Linked(t, uids)
      ensures storage.stored == Saved(t)
    {
      var xs := GetAllDevices(t, uids);
      SavedIsLoaded(t);
      storage.SaveDevices(xs);
    }

    method FindDevice(sel: Selector) returns (r: Result<Device>)
      requires Linked(run.s.table, run.s.uids)
      ensures r.Ok? == Resolved(run.s, sel).Some?
      ensures r.Ok? ==>
                && Resolved(run.s, sel).value in deviceByIndex
                && r.value == deviceByIndex[Resolved(run.s, sel).value]
    {
      match sel
      case ByIndex(i) =>
        if i !in deviceByIndex {
          return Err(InvalidArgument);
        }
        return Ok(deviceByIndex[i]);
      case ByUid(u) =>
        if u !in deviceByUid {
          return Err(InvalidArgument);
        }
        return Ok(deviceByUid[u]);
    }

    /** The info of the device with that index, or with that uid, if there is one. */
    method GetDevice(sel: Selector) returns (r: Result<DeviceInfo>)
      requires Valid()
      ensures match sel
              case ByIndex(i) =>
                (r.Ok? <==> i in run.s.table) && (r.Ok? ==> r.value.index == i && r.value == run.s.table[i])
              case ByUid(u) =>
                && (r.Ok? <==> exists i | i in run.s.table :: run.s.table[i].uid == u)
                && (r.Ok? ==> r.value.uid == u && r.value.index in run.s.table && r.value == run.s.table[r.value.index])
    {
      hide Legal, Saved, AllOk, Accounted, IndexAllocator.Valid;
      RunIndexed(run);
      var found := FindDevice(sel);
      if found.Err? {
        return Err(found.error);
      }
      assert Carries(found.value, run.s.table[Resolved(run.s, sel).value]);
      return Ok(found.value.info);
    }

    /** The objects show what the table says. */
    lemma ShownAs(t: Table, uids: Uids)
      requires Linked(t, uids)
      ensures deviceByIndex.Keys == t.Keys
      ensures forall i | i in deviceByIndex ::
                deviceByIndex[i].info == t[i] && deviceByIndex[i].published == t[i].enabled
    {
      forall i | i in deviceByIndex
        ensures deviceByIndex[i].info == t[i] && deviceByIndex[i].published == t[i].enabled
      {
        assert Carries(deviceByIndex[i], t[i]);
      }
    }

    lemma SameKeys(t: Table, uids: Uids)
      requires Linked(t, uids)
      ensures deviceByIndex.Keys == t.Keys && deviceByUid.Keys == uids.Keys
    {
    }

    /** No other entry refers to the object of device `i`. */
    lemma Alone(t: Table, uids: Uids, i: nat)
      requires Linked(t, uids) && Keyed(t) && i in t
      ensures forall j | j in deviceByIndex && j != i :: deviceByIndex[j] != deviceByIndex[i]
    {
      forall j | j in deviceByIndex && j != i
        ensures deviceByIndex[j] != deviceByIndex[i]
      {
        assert Carries(deviceByIndex[i], t[i]) && Carries(deviceByIndex[j], t[j]);
      }
    }

    /** Nothing happens, and that is recorded. */
    ghost method Decline(op: Op)
      requires Valid() && Feasible(run.s, op) && TurnsDown(run.s, op)
      modifies this`run
      ensures Valid() && run == Then(old(run), op, old(run).s, false)
    {
      TurnedDown(run, op);
      run := Then(run, op, run.s, false);
    }

    /** The step to `s` has been taken: that is recorded. */
    ghost method Record(op: Op, s: State, ok: bool)
      requires Legal(Then(run, op, s, ok))
      requires Linked(s.table, s.uids) && storage.stored == s.stored
      requires indexAllocator.Valid() && indexAllocator.Model() == s.alloc
      modifies this`run
      ensures Valid() && run == Then(old(run), op, s, ok)
    {
      hide Legal, Sound, Saved, Linked, Loaded, Roomy, IndexAllocator.Valid;
      run := Then(run, op, s, ok);
    }

    // -------------------------------------------------------------- changing one device

    method SwitchObject(device: Device, ghost t: Table, ghost uids: Uids, ghost i: nat, enabled: bool)
      requires Linked(t, uids) && Keyed(t) && i in t && device == deviceByIndex[i]
      modifies device
      ensures Linked(t[i := t[i].(enabled := enabled)], uids)
    {
      Alone(t, uids, i);
      assert Carries(device, t[i]);
      device.Toggle(enabled);
      Relinked(t, uids, i, t[i].(enabled := enabled));
    }

    method BindObject(device: Device, ghost t: Table, ghost uids: Uids, ghost i: nat, endpoint: Endpoint, netOk: bool)
      returns (ok: bool)
      requires Linked(t, uids) && Keyed(t) && i in t && device == deviceByIndex[i]
      modifies device
      ensures ok == (t[i].kind == Receiver && netOk)
      ensures if ok then Ordered(device.info, Bound(t[i], endpoint)) && Linked(t[i := device.info], uids)
              else Linked(t, uids)
    {
      Alone(t, uids, i);
      assert Carries(device, t[i]);
      ok := device.Bind(endpoint, netOk);
      if ok {
        Relinked(t, uids, i, device.info);
      }
    }

    method ConnectObject(
        device: Device, ghost t: Table, ghost uids: Uids, ghost i: nat, endpoint: Endpoint, netOk: bool)
      returns (ok: bool)
      requires Linked(t, uids) && Keyed(t) && i in t && device == deviceByIndex[i]
      modifies device
      ensures ok == (t[i].kind == Sender && netOk)
      ensures if ok then Ordered(device.info, Connected(t[i], endpoint)) && Linked(t[i := device.info], uids)
              else Linked(t, uids)
    {
      Alone(t, uids, i);
      assert Carries(device, t[i]);
      ok := device.Connect(endpoint, netOk);
      if ok {
        Relinked(t, uids, i, device.info);
      }
    }

    // -------------------------------------------------------------- operations

    /** Enables or disables one device. */
    method ToggleDevice(sel: Selector, enabled: bool) returns (r: Result<()>)
      requires Valid()
      modifies this`run, storage, deviceByIndex.Values
      ensures Valid()
      ensures run == Then(old(run), Op.Toggle(sel, enabled), run.s, r.Ok?)
      ensures forall i: nat | Names(old(run).s, sel, i) ::
                r.Ok? && i in deviceByIndex && deviceByIndex[i].info.enabled == deviceByIndex[i].published == enabled
    {
      hide Sound, Linked, IndexAllocator.Valid;
      ghost var op, s := Op.Toggle(sel, enabled), run.s;
      var found := FindDevice(sel);
      if found.Err? {
        Decline(op);
        ToggleRan(run);
        return Err(found.error);
      }
      ghost var i := Resolved(s, sel).value;
      Toggles(run, sel, enabled);
      SwitchObject(found.value, s.table, s.uids, i, enabled);
      ghost var s' := Put(s, i, s.table[i].(enabled := enabled));
      SaveDevices(s'.table, s'.uids);
      Record(op, s', true);
      ToggleRan(run);
      ShownAs(run.s.table, run.s.uids);
      return Ok(());
    }

    /** Binds a receiver to one more local endpoint. */
    method BindDevice(sel: Selector, endpoint: Endpoint, netOk: bool) returns (r: Result<Endpoint>)
      requires Valid() && EndpointOk(endpoint)
      modifies this`run, storage, deviceByIndex.Values
      ensures Valid()
      ensures run == Then(old(run), Op.Bind(sel, endpoint, netOk), run.s, r.Ok?)
      ensures r.Ok? ==> r.value == endpoint
    {
      hide Sound, Linked, IndexAllocator.Valid;
      ghost var op, s := Op.Bind(sel, endpoint, netOk), run.s;
      var found := FindDevice(sel);
      if found.Err? {
        Decline(op);
        return Err(found.error);
      }
      ghost var i := Resolved(s, sel).value;
      KeyedRun(run, sel);
      var ok := BindObject(found.value, s.table, s.uids, i, endpoint, netOk);
      if !ok {
        Decline(op);
        return Err(InvalidArgument);
      }
      Binds(run, sel, endpoint, found.value.info);
      ghost var s' := Put(s, i, found.value.info);
      SaveDevices(s'.table, s'.uids);
      Record(op, s', true);
      return Ok(endpoint);
    }

    /** Connects a sender to one more remote endpoint. */
    method ConnectDevice(sel: Selector, endpoint: Endpoint, netOk: bool) returns (r: Result<Endpoint>)
      requires Valid() && EndpointOk(endpoint)
      modifies this`run, storage, deviceByIndex.Values
      ensures Valid()
      ensures run == Then(old(run), Op.Connect(sel, endpoint, netOk), run.s, r.Ok?)
      ensures r.Ok? ==> r.value == endpoint
    {
      hide Sound, Linked, IndexAllocator.Valid;
      ghost var op, s := Op.Connect(sel, endpoint, netOk), run.s;
      var found := FindDevice(sel);
      if found.Err? {
        Decline(op);
        return Err(found.error);
      }
      ghost var i := Resolved(s, sel).value;
      KeyedRun(run, sel);
      var ok := ConnectObject(found.value, s.table, s.uids, i, endpoint, netOk);
      if !ok {
        Decline(op);
        return Err(InvalidArgument);
      }
      Connects(run, sel, endpoint, found.value.info);
      ghost var s' := Put(s, i, found.value.info);
      SaveDevices(s'.table, s'.uids);
      Record(op, s', true);
      return Ok(endpoint);
    }

    method InsertObject(device: Device, ghost t: Table, ghost uids: Uids)
      requires Linked(t, uids) && Keyed(t) && device.published == device.info.enabled
      requires device.info.index !in t && device.info.uid !in uids
      modifies this`deviceByIndex, this`deviceByUid
      ensures deviceByIndex == old(deviceByIndex)[device.info.index := device]
      ensures Linked(t[device.info.index := device.info], uids[device.info.uid := device.info.index])
    {
      deviceByIndex := deviceByIndex[device.info.index := device];
      deviceByUid := deviceByUid[device.info.uid := device];
    }

    /** A created device joins both tables, and the table is saved. */
    method Enlist(device: Device, ghost op: Op)
      requires Legal(run) && op.Add? && Feasible(run.s, op) && !Refuses(run.s, op.info)
      requires Creatable(op.info, IndexFor(run.s.alloc, op.info), op.freshUid, op.accepts)
      requires Ordered(device.info, Completed(op.info, IndexFor(run.s.alloc, op.info), op.freshUid).value)
      requires Linked(run.s.table, run.s.uids) && device.published == device.info.enabled
      requires indexAllocator.Valid() && indexAllocator.Model() == AllocFor(run.s.alloc, op.info)
      modifies this, storage
      ensures Valid() && run == Then(old(run), op, run.s, true)
      ensures deviceByIndex == old(deviceByIndex)[device.info.index := device]
      ensures device.info.index in run.s.table && run.s.table[device.info.index] == device.info
      ensures old(run).s.alloc.Valid() && device.info.index == NewIndex(old(run).s, op.info)
      ensures device.info.index !in old(run).s.alloc.live
      ensures device.info.uid == if op.info.uid == "" then op.freshUid else op.info.uid
    {
      hide Legal, Sound, Saved, Savable, Linked, Ordered;
      hide Creatable, IndexFor, AllocFor, Completed, IndexAllocator.Valid;
      Adds(run, op, device.info);
      ghost var s' := With(run.s, AllocFor(run.s.alloc, op.info), device.info);
      InsertObject(device, run.s.table, run.s.uids);
      SaveDevices(s'.table, s'.uids);
      Record(op, s', true);
    }

    /** No device was created: nothing has happened, unless an index was taken first. */
    ghost method Miss(op: Op)
      requires Legal(run) && op.Add? && Feasible(run.s, op)
      requires Linked(run.s.table, run.s.uids) && storage.stored == run.s.stored && indexAllocator.Valid()
      requires if Refuses(run.s, op.info) then indexAllocator.Model() == run.s.alloc
               else
                 && !Creatable(op.info, IndexFor(run.s.alloc, op.info), op.freshUid, op.accepts)
                 && indexAllocator.Model() == AllocFor(run.s.alloc, op.info)
      modifies this`run
      ensures Valid() && run == Then(old(run), op, run.s, false)
    {
      if Refuses(run.s, op.info) {
        Decline(op);
      } else {
        Loses(run, op);
        Record(op, Lost(run.s, op.info), false);
      }
    }

    /** Adds a device; it is refused if its index or uid is taken, and may fail later, at the cost of an index. */
    method AddDevice(info: DeviceInfo, freshUid: string, accepts: DeviceInfo -> bool) returns (r: Result<DeviceInfo>)
      requires Valid() && Feasible(run.s, Add(info, freshUid, accepts))
      modifies this, storage, indexAllocator
      ensures Valid()
      ensures run == Then(old(run), Add(info, freshUid, accepts), run.s, r.Ok?)
      ensures old(run).s.alloc.Valid() && (r.Ok? <==> Admissible(old(run).s, info, freshUid, accepts))
      ensures r.Ok? ==> r.value.index in run.s.table && run.s.table[r.value.index] == r.value
      ensures r.Ok? ==> r.value.index == NewIndex(old(run).s, info) && r.value.index !in old(run).s.alloc.live
      ensures r.Ok? ==> r.value.uid == if info.uid == "" then freshUid else info.uid
      ensures r.Err? ==> deviceByIndex == old(deviceByIndex)
      ensures r.Ok? ==>
                && r.value.index in deviceByIndex && fresh(deviceByIndex[r.value.index])
                && deviceByIndex == old(deviceByIndex)[r.value.index := deviceByIndex[r.value.index]]
    {
      hide Legal, Sound, Saved, Linked, Ordered;
      hide Creatable, IndexFor, AllocFor, Completed, Accepted, Admissible, NewIndex, IndexAllocator.Valid;
      ghost var op := Add(info, freshUid, accepts);
      SameKeys(run.s.table, run.s.uids);
      if info.index != 0 && info.index in deviceByIndex {
        Miss(op);
        AddRan(run);
        return Err(InvalidArgument);
      }
      if info.uid != "" && info.uid in deviceByUid {
        Miss(op);
        AddRan(run);
        return Err(InvalidArgument);
      }
      var device := Device.Create(indexAllocator, freshUid, info, accepts);
      if device.Err? {
        Miss(op);
        AddRan(run);
        return Err(device.error);
      }
      Enlist(device.value, op);
      AddRan(run);
      return Ok(device.value.info);
    }

    method EraseObject(device: Device, ghost t: Table, ghost uids: Uids, ghost i: nat)
      requires Linked(t, uids) && Indexed(t, uids) && i in t && device == deviceByIndex[i]
      modifies this`deviceByIndex, this`deviceByUid
      ensures deviceByIndex == old(deviceByIndex) - {i}
      ensures Linked(t - {i}, uids - {t[i].uid}) && device.info == t[i]
      ensures forall j | j in deviceByIndex :: deviceByIndex[j] != device
    {
      Alone(t, uids, i);
      assert Carries(device, t[i]);
      var info := device.info;
      deviceByIndex := deviceByIndex - {info.index};
      deviceByUid := deviceByUid - {info.uid};
    }

    /** Deletes one device; its index is free again once it is gone from both tables and from storage. */
    method DeleteDevice(sel: Selector) returns (r: Result<()>)
      requires Valid()
      modifies this, storage, indexAllocator, deviceByIndex.Values
      ensures Valid()
      ensures run == Then(old(run), Op.Delete(sel), run.s, r.Ok?)
      ensures forall i: nat | Names(old(run).s, sel, i) ::
                && r.Ok? && i !in deviceByIndex && old(run).s.table[i].uid !in deviceByUid
                && i !in indexAllocator.Model().live
                && i in old(deviceByIndex) && !old(deviceByIndex)[i].published
    {
      hide Legal, Sound, Saved, Savable, Linked, Indexed, IndexAllocator.Valid;
      ghost var op, s := Op.Delete(sel), run.s;
      var found := FindDevice(sel);
      if found.Err? {
        Decline(op);
        DeleteRan(run);
        return Err(found.error);
      }
      ghost var i := Resolved(s, sel).value;
      Deletes(run, sel);
      NamesOnly(run, sel);
      SameKeys(s.table, s.uids);
      ghost var s' := Without(s, i);
      EraseObject(found.value, s.table, s.uids, i);
      SaveDevices(s'.table, s'.uids);
      found.value.Destroy(indexAllocator);
      Record(op, s', true);
      DeleteRan(run);
      SameKeys(run.s.table, run.s.uids);
      return Ok(());
    }

    /** Device `k` of the stored list is added; if that fails it is skipped. */
    method LoadDevice(
        infos: seq<DeviceInfo>, k: nat, uidAt: nat -> string, accepts: DeviceInfo -> bool, ghost first: Trace)
      requires Valid() && k < |infos| < INDEX_LIMIT - 1 && Accepted(infos[k])
      requires Generates(uidAt, infos) && Roomy(run.s, infos, uidAt, k) && Loads(first, infos[..k], accepts, run)
      modifies this, storage, indexAllocator
      ensures Valid() && Roomy(run.s, infos, uidAt, k + 1) && Loads(first, infos[..k + 1], accepts, run)
      ensures forall i | i in deviceByIndex ::
                fresh(deviceByIndex[i]) || (i in old(deviceByIndex) && deviceByIndex[i] == old(deviceByIndex)[i])
    {
      hide Sound, Linked, IndexAllocator.Valid;
      CanAdd(run, infos, uidAt, accepts, k);
      var added := AddDevice(infos[k], uidAt(k), accepts);
      StillRoomy(old(run), infos, uidAt, accepts, k, run);
      LoadedMore(first, infos, accepts, k, old(run), run);
    }

    /** Adds the stored devices one by one. */
    method LoadDevices(uidAt: nat -> string, accepts: DeviceInfo -> bool)
      requires Valid() && run == Start(Fresh(storage.stored)) && deviceByIndex == map[]
      requires Generates(uidAt, Loaded(storage.stored)) && |Loaded(storage.stored)| < INDEX_LIMIT - 1
      modifies this, storage, indexAllocator
      ensures Valid()
      ensures Loads(old(run), Loaded(old(storage.stored)), accepts, run)
      ensures forall i | i in deviceByIndex :: fresh(deviceByIndex[i])
    {
      var infos := storage.LoadDevices();
      LoadedAccepted(storage.stored);
      for k := 0 to |infos|
        invariant Valid()
        invariant forall i | i in deviceByIndex :: fresh(deviceByIndex[i])
        invariant Loads(old(run), infos[..k], accepts, run) && Roomy(run.s, infos, uidAt, k)
      {
        LoadDevice(infos, k, uidAt, accepts, old(run));
      }
      assert infos[..|infos|] == infos;
    }

    /** A manager comes up with what is in storage; stored devices that cannot be added are skipped. */
    constructor (storage: DeviceStorage, uidAt: nat -> string, accepts: DeviceInfo -> bool)
      requires Generates(uidAt, Loaded(storage.stored)) && |Loaded(storage.stored)| < INDEX_LIMIT - 1
      modifies storage
      ensures Valid() && this.storage == storage && fresh(indexAllocator)
      ensures Loads(Start(Fresh(old(storage.stored))), Loaded(old(storage.stored)), accepts, run)
      ensures forall i | i in deviceByIndex :: fresh(deviceByIndex[i])
    {
      this.storage := storage;
      indexAllocator := new IndexAllocator();
      deviceByIndex, deviceByUid := map[], map[];
      run := Start(Fresh(storage.stored));
      new;
      LoadDevices(uidAt, accepts);
    }
  }

  /**
   The driver is started again on the storage a manager has left: the new manager has exactly
   the devices the network still accepts, each as it was but for the order of its endpoints, and
   the very same ones if endpoint keys identify.
   */
  method Restart(manager: DeviceManager, uidAt: nat -> string, accepts: DeviceInfo -> bool)
    returns (again: DeviceManager)
    requires manager.Valid() && AnySuccess(manager.run)
    requires Generates(uidAt, Loaded(manager.storage.stored)) && |Loaded(manager.storage.stored)| < INDEX_LIMIT - 1
    modifies manager.storage
    ensures again.Valid() && again.storage == manager.storage
    ensures LoadedFrom(again.run.s, old(manager.run.s.table), accepts, old(manager.storage.stored))
    ensures AllKeysIdentify(old(manager.run.s.table)) ==>
              again.run.s.table == Accepts(old(manager.run.s.table), accepts)
  {
    hide Legal, Sound, Saved, Loaded, AnySuccess, LoadedFrom;
    again := new DeviceManager(manager.storage, uidAt, accepts);
    RestartKeepsAccepted(manager.run, accepts, again.run);
    if AllKeysIdentify(manager.run.s.table) {
      RunIsOk(manager.run);
      LoadedIdentified(again.run.s, manager.run.s.table, accepts, old(manager.storage.stored));
    }
  }

  lemma RunIsOk(tr: Trace)
    requires Legal(tr)
    ensures AllOk(tr.s.table)
  {
  }

  // ---------------------------------------------------------------- steps

  ghost predicate Carries(device: Device, x: DeviceInfo)
    reads device
  {
    device.info == x && device.published == x.enabled
  }

  /** What `SaveDevices` needs of the table. */
  ghost predicate Savable(t: Table) {
    Keyed(t) && AllOk(t)
  }

  lemma Continued(tr: Trace, op: Op, s: State, ok: bool)
    requires Legal(tr) && Feasible(tr.s, op) && Step(tr.s, op, s, ok)
    ensures Legal(Then(tr, op, s, ok)) && Savable(s.table)
  {
    StepKeeps(tr.s, op, s, ok);
  }

  lemma TurnedDown(tr: Trace, op: Op)
    requires Legal(tr) && Feasible(tr.s, op) && TurnsDown(tr.s, op)
    ensures Legal(Then(tr, op, tr.s, false))
  {
    Continued(tr, op, tr.s, false);
  }

  lemma KeyedRun(tr: Trace, sel: Selector)
    requires Legal(tr) && Resolved(tr.s, sel).Some?
    ensures Keyed(tr.s.table) && Resolved(tr.s, sel).value in tr.s.table
  {
  }

  lemma Toggles(tr: Trace, sel: Selector, enabled: bool)
    requires Legal(tr) && Resolved(tr.s, sel).Some?
    ensures var i := Resolved(tr.s, sel).value;
            && i in tr.s.table && Keyed(tr.s.table)
            && var s' := Put(tr.s, i, tr.s.table[i].(enabled := enabled));
               Legal(Then(tr, Op.Toggle(sel, enabled), s', true)) && Savable(s'.table)
  {
    var i := Resolved(tr.s, sel).value;
    Continued(tr, Op.Toggle(sel, enabled), Put(tr.s, i, tr.s.table[i].(enabled := enabled)), true);
  }

  lemma Binds(tr: Trace, sel: Selector, endpoint: Endpoint, y: DeviceInfo)
    requires Legal(tr) && Resolved(tr.s, sel).Some? && Resolved(tr.s, sel).value in tr.s.table && EndpointOk(endpoint)
    requires var x := tr.s.table[Resolved(tr.s, sel).value]; x.kind == Receiver && Ordered(y, Bound(x, endpoint))
    ensures var s' := Put(tr.s, Resolved(tr.s, sel).value, y);
            Legal(Then(tr, Op.Bind(sel, endpoint, true), s', true)) && Savable(s'.table)
  {
    Continued(tr, Op.Bind(sel, endpoint, true), Put(tr.s, Resolved(tr.s, sel).value, y), true);
  }

  lemma Connects(tr: Trace, sel: Selector, endpoint: Endpoint, y: DeviceInfo)
    requires Legal(tr) && Resolved(tr.s, sel).Some? && Resolved(tr.s, sel).value in tr.s.table && EndpointOk(endpoint)
    requires var x := tr.s.table[Resolved(tr.s, sel).value]; x.kind == Sender && Ordered(y, Connected(x, endpoint))
    ensures var s' := Put(tr.s, Resolved(tr.s, sel).value, y);
            Legal(Then(tr, Op.Connect(sel, endpoint, true), s', true)) && Savable(s'.table)
  {
    Continued(tr, Op.Connect(sel, endpoint, true), Put(tr.s, Resolved(tr.s, sel).value, y), true);
  }

  lemma Adds(tr: Trace, op: Op, y: DeviceInfo)
    requires Legal(tr) && op.Add? && Feasible(tr.s, op) && !Refuses(tr.s, op.info)
    requires Creatable(op.info, IndexFor(tr.s.alloc, op.info), op.freshUid, op.accepts)
    requires Ordered(y, Completed(op.info, IndexFor(tr.s.alloc, op.info), op.freshUid).value)
    ensures Legal(Then(tr, op, With(tr.s, AllocFor(tr.s.alloc, op.info), y), true))
    ensures Savable(With(tr.s, AllocFor(tr.s.alloc, op.info), y).table)
    ensures tr.s.alloc.Valid() && Keyed(tr.s.table) && y.index !in tr.s.table && y.uid !in tr.s.uids
    ensures y.index == NewIndex(tr.s, op.info) && y.index !in tr.s.alloc.live
    ensures y.uid == if op.info.uid == "" then op.freshUid else op.info.uid
  {
    IndexTaken(tr.s, op.info);
    CreatedOk(op.info, IndexFor(tr.s.alloc, op.info), op.freshUid, op.accepts, y);
    Continued(tr, op, With(tr.s, AllocFor(tr.s.alloc, op.info), y), true);
  }

  lemma Loses(tr: Trace, op: Op)
    requires Legal(tr) && op.Add? && Feasible(tr.s, op) && !Refuses(tr.s, op.info)
    requires !Creatable(op.info, IndexFor(tr.s.alloc, op.info), op.freshUid, op.accepts)
    ensures tr.s.alloc.Valid()
    ensures Legal(Then(tr, op, Lost(tr.s, op.info), false))
  {
    Continued(tr, op, Lost(tr.s, op.info), false);
  }

  lemma RunIndexed(tr: Trace)
    requires Legal(tr)
    ensures Indexed(tr.s.table, tr.s.uids)
  {
  }

  lemma ToggleRan(tr: Trace)
    requires Legal(tr) && tr.Then? && tr.op.Toggle?
    ensures forall i: nat | Names(tr.before.s, tr.op.sel, i) ::
              tr.ok && i in tr.s.table && tr.s.table[i].enabled == tr.op.enabled
  {
    forall i: nat | Names(tr.before.s, tr.op.sel, i)
      ensures tr.ok && i in tr.s.table && tr.s.table[i].enabled == tr.op.enabled
    {
      ToggleSets(tr.before.s, tr.op, tr.s, tr.ok, i);
    }
  }

  lemma DeleteRan(tr: Trace)
    requires Legal(tr) && tr.Then? && tr.op.Delete?
    ensures forall i: nat | Names(tr.before.s, tr.op.sel, i) ::
              tr.ok && i !in tr.s.table && tr.before.s.table[i].uid !in tr.s.uids && i !in tr.s.alloc.live
  {
    forall i: nat | Names(tr.before.s, tr.op.sel, i)
      ensures tr.ok && i !in tr.s.table && tr.before.s.table[i].uid !in tr.s.uids && i !in tr.s.alloc.live
    {
      DeleteRemoves(tr.before.s, tr.op, tr.s, tr.ok, i);
    }
  }

  lemma NamesOnly(tr: Trace, sel: Selector)
    requires Legal(tr) && Resolved(tr.s, sel).Some?
    ensures forall i: nat | Names(tr.s, sel, i) :: i == Resolved(tr.s, sel).value
  {
    forall i: nat | Names(tr.s, sel, i)
      ensures i == Resolved(tr.s, sel).value
    {
      ResolvedExactly(tr.s, sel, i);
    }
  }

  lemma AddRan(tr: Trace)
    requires Legal(tr) && tr.Then? && tr.op.Add?
    ensures tr.before.s.alloc.Valid()
    ensures tr.ok <==> Admissible(tr.before.s, tr.op.info, tr.op.freshUid, tr.op.accepts)
  {
    AddSucceedsExactly(tr.before.s, tr.op, tr.s, tr.ok);
  }

  lemma Deletes(tr: Trace, sel: Selector)
    requires Legal(tr) && Resolved(tr.s, sel).Some?
    ensures var i := Resolved(tr.s, sel).value;
            && i in tr.s.table && Indexed(tr.s.table, tr.s.uids) && tr.s.table[i].index == i && i in tr.s.alloc.live
            && Legal(Then(tr, Op.Delete(sel), Without(tr.s, i), true))
            && Savable(Without(tr.s, i).table)
  {
    Continued(tr, Op.Delete(sel), Without(tr.s, Resolved(tr.s, sel).value), true);
  }

  // ---------------------------------------------------------------- loading

  /** The generated uids are not empty, differ from each other, and from those of the infos. */
  ghost predicate Generates(uidAt: nat -> string, infos: seq<DeviceInfo>) {
    && (forall k :: uidAt(k) != "")
    && (forall j, k :: j != k ==> uidAt(j) != uidAt(k))
    && (forall j, k :: 0 <= j < |infos| ==> infos[j].uid != uidAt(k))
  }

  /** After `k` infos there is room for the others, and the generated uids from there on are unused. */
  ghost predicate Roomy(s: State, infos: seq<DeviceInfo>, uidAt: nat -> string, k: nat) {
    |s.alloc.live| <= 1 + k && forall j :: k <= j ==> uidAt(j) !in s.uids
  }

  lemma CanAdd(tr: Trace, infos: seq<DeviceInfo>, uidAt: nat -> string, accepts: DeviceInfo -> bool, k: nat)
    requires k < |infos| < INDEX_LIMIT - 1 && Accepted(infos[k])
    requires Generates(uidAt, infos) && Roomy(tr.s, infos, uidAt, k)
    ensures Feasible(tr.s, Add(infos[k], uidAt(k), accepts))
  {
  }

  /** What is loaded from storage has been converted from messages. */
  lemma LoadedAccepted(stored: Option<seq<RvDeviceInfo>>)
    ensures forall k :: 0 <= k < |Loaded(stored)| ==> Accepted(Loaded(stored)[k])
  {
    forall k | 0 <= k < |Loaded(stored)|
      ensures Accepted(Loaded(stored)[k])
    {
      DeviceAccepted(stored.value[k]);
    }
  }

  lemma StillRoomy(
      tr: Trace, infos: seq<DeviceInfo>, uidAt: nat -> string, accepts: DeviceInfo -> bool, k: nat, next: Trace)
    requires k < |infos| && Generates(uidAt, infos) && Roomy(tr.s, infos, uidAt, k)
    requires Legal(next) && next.Then? && next.before == tr && next.op == Add(infos[k], uidAt(k), accepts)
    ensures Roomy(next.s, infos, uidAt, k + 1)
  {
    var s, info := tr.s, infos[k];
    if !Refuses(s, info) {
      IndexTaken(s, info);
      if next.ok {
        CreatedOk(info, IndexFor(s.alloc, info), uidAt(k), accepts, next.s.table[IndexFor(s.alloc, info)]);
      }
    }
  }

  lemma LoadedMore(first: Trace, infos: seq<DeviceInfo>, accepts: DeviceInfo -> bool, k: nat, tr: Trace, next: Trace)
    requires k < |infos| && Loads(first, infos[..k], accepts, tr)
    requires next.Then? && next.before == tr && next.op.Add? && next.op.info == infos[k] && next.op.accepts == accepts
    ensures Loads(first, infos[..k + 1], accepts, next)
  {
    assert infos[..k + 1][..k] == infos[..k];
  }
}
