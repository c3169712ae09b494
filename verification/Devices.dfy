/** One virtual device: its life from creation to destruction, and its endpoint lists. */
module Devices {
  import opened DeviceDefs
  import opened IndexAllocators
  import IndexSpec

  // ---------------------------------------------------------------- endpoint order

  /** The number of an interface, in the order its values are declared. */
  function InterfaceNumber(i: Interface): nat {
    match i
    case Aggregate => 0
    case AudioSource => 1
    case AudioRepair => 2
    case AudioControl => 3
  }

  /** The sorting key: slot first, then interface. */
  function Key(e: Endpoint): int {
    e.slot * 4 + InterfaceNumber(e.iface)
  }

  /** The key orders by slot, and within a slot by interface. */
  lemma KeyOrder(a: Endpoint, b: Endpoint)
    ensures Key(a) <= Key(b)
            <==> a.slot < b.slot || (a.slot == b.slot && InterfaceNumber(a.iface) <= InterfaceNumber(b.iface))
    ensures Before(a, b)
            <==> a.slot < b.slot || (a.slot == b.slot && InterfaceNumber(a.iface) < InterfaceNumber(b.iface))
  {
  }

  /** The comparison handed to the sort. */
  predicate Before(a: Endpoint, b: Endpoint) {
    if a.slot != b.slot then a.slot < b.slot else InterfaceNumber(a.iface) < InterfaceNumber(b.iface)
  }

  predicate Sorted(es: seq<Endpoint>) {
    forall i, j :: 0 <= i < j < |es| ==> Key(es[i]) <= Key(es[j])
  }

  /** Endpoints with the same slot and interface are the same endpoint. */
  predicate KeysIdentify(es: seq<Endpoint>) {
    forall i, j :: 0 <= i < |es| && 0 <= j < |es| && Key(es[i]) == Key(es[j]) ==> es[i] == es[j]
  }

  predicate IsSortOf(r: seq<Endpoint>, es: seq<Endpoint>) {
    Sorted(r) && multiset(r) == multiset(es)
  }

  function Inserted(e: Endpoint, es: seq<Endpoint>): (r: seq<Endpoint>)
    requires Sorted(es)
    ensures IsSortOf(r, es + [e])
  {
    if es == [] then [e]
    else
      var n := |es| - 1;
      if Before(e, es[n]) then
        var r := Inserted(e, es[..n]);
        InsertedBelow(r, es, e);
        r + [es[n]]
      else es + [e]
  }

  lemma InsertedBelow(r: seq<Endpoint>, es: seq<Endpoint>, e: Endpoint)
    requires es != [] && Sorted(es) && Key(e) < Key(es[|es| - 1])
    requires IsSortOf(r, es[..|es| - 1] + [e])
    ensures IsSortOf(r + [es[|es| - 1]], es + [e])
  {
    var n := |es| - 1;
    assert es == es[..n] + [es[n]];
    forall i | 0 <= i < |r|
      ensures Key(r[i]) <= Key(es[n])
    {
      assert r[i] in multiset(es[..n] + [e]);
    }
  }

  lemma InsertedNext(r: seq<Endpoint>, es: seq<Endpoint>, i: nat)
    requires i < |es| && IsSortOf(r, es[..i])
    ensures IsSortOf(Inserted(es[i], r), es[..i + 1])
  {
    hide Inserted, Sorted;
    assert es[..i + 1] == es[..i] + [es[i]];
  }

  lemma EmptyIsSorted()
    ensures IsSortOf([], [])
  {
  }

  /** Any order the sort may give: sorted, with the same endpoints. Which of two equal keys comes first is open. */
  method SortEndpoints(es: seq<Endpoint>) returns (r: seq<Endpoint>)
    ensures IsSortOf(r, es)
    ensures forall i, j :: 0 <= i < j < |r| ==>
              r[i].slot < r[j].slot
              || (r[i].slot == r[j].slot && InterfaceNumber(r[i].iface) <= InterfaceNumber(r[j].iface))
  {
    hide Key, InterfaceNumber, Inserted, Sorted;
    r := [];
    EmptyIsSorted();
    for i := 0 to |es|
      invariant IsSortOf(r, es[..i])
    {
      InsertedNext(r, es, i);
      r := Inserted(es[i], r);
    }
    assert es[..|es|] == es;
    SortedInOrder(r);
  }

  /** Sorted lists are in the order of slots, and of interfaces within a slot. */
  lemma SortedInOrder(r: seq<Endpoint>)
    ensures Sorted(r) <==> forall i, j :: 0 <= i < j < |r| ==>
              r[i].slot < r[j].slot
              || (r[i].slot == r[j].slot && InterfaceNumber(r[i].iface) <= InterfaceNumber(r[j].iface))
  {
    forall i, j | 0 <= i < j < |r|
      ensures Key(r[i]) <= Key(r[j])
              <==> r[i].slot < r[j].slot
                   || (r[i].slot == r[j].slot && InterfaceNumber(r[i].iface) <= InterfaceNumber(r[j].iface))
    {
      KeyOrder(r[i], r[j]);
    }
  }

  /** Every sort leaves a list alone exactly when it is sorted and no two different endpoints share a key. */
  lemma SortKeepsExactly(es: seq<Endpoint>)
    ensures (forall r: seq<Endpoint> :: IsSortOf(r, es) ==> r == es) <==> Sorted(es) && KeysIdentify(es)
  {
    if Sorted(es) && KeysIdentify(es) {
      forall r: seq<Endpoint> | IsSortOf(r, es)
        ensures r == es
      {
        SortedOnce(r, es);
      }
    } else if forall r: seq<Endpoint> :: IsSortOf(r, es) ==> r == es {
      var s := SomeSort(es);
      assert s == es;
      var i, j :| 0 <= i < j < |es| && Key(es[i]) == Key(es[j]) && es[i] != es[j];
      SwappedIsSorted(es, i, j);
    }
  }

  lemma SwappedIsSorted(es: seq<Endpoint>, i: nat, j: nat)
    requires Sorted(es) && i < j < |es| && Key(es[i]) == Key(es[j]) && es[i] != es[j]
    ensures IsSortOf(es[i := es[j]][j := es[i]], es) && es[i := es[j]][j := es[i]] != es
  {
    assert es[i := es[j]][j := es[i]][i] != es[i];
  }

  lemma {:induction false} SomeSort(es: seq<Endpoint>) returns (s: seq<Endpoint>)
    ensures IsSortOf(s, es)
  {
    if es == [] {
      s := [];
    } else {
      var n := |es| - 1;
      var r := SomeSort(es[..n]);
      s := Inserted(es[n], r);
      assert es == es[..n] + [es[n]];
    }
  }

  /** With identifying keys there is only one sorted order. */
  lemma {:induction false} SortedOnce(r: seq<Endpoint>, es: seq<Endpoint>)
    requires IsSortOf(r, es) && Sorted(es) && KeysIdentify(es)
    ensures r == es
  {
    if es == [] {
      assert |multiset(r)| == 0;
    } else {
      assert |multiset(r)| == |multiset(es)|;
      SameFirst(r, es);
      TailSort(r, es);
      TailSorted(es);
      TailKeys(es);
      SortedOnce(r[1..], es[1..]);
      assert r == [r[0]] + r[1..] && es == [es[0]] + es[1..];
    }
  }

  lemma TailMultiset(es: seq<Endpoint>)
    requires es != []
    ensures multiset(es[1..]) == multiset(es) - multiset{es[0]}
  {
    assert es == [es[0]] + es[1..];
  }

  lemma TailSorted(es: seq<Endpoint>)
    requires es != [] && Sorted(es)
    ensures Sorted(es[1..])
  {
  }

  lemma TailKeys(es: seq<Endpoint>)
    requires es != [] && KeysIdentify(es)
    ensures KeysIdentify(es[1..])
  {
  }

  lemma TailSort(r: seq<Endpoint>, es: seq<Endpoint>)
    requires IsSortOf(r, es) && Sorted(es) && r != [] && es != [] && r[0] == es[0]
    ensures IsSortOf(r[1..], es[1..])
  {
    TailMultiset(r);
    TailMultiset(es);
    TailSorted(r);
  }

  lemma SameFirst(r: seq<Endpoint>, es: seq<Endpoint>)
    requires IsSortOf(r, es) && Sorted(es) && KeysIdentify(es) && r != [] && es != []
    ensures r[0] == es[0]
  {
    assert r[0] in multiset(r) && es[0] in multiset(es);
    var i :| 0 <= i < |es| && es[i] == r[0];
    var j :| 0 <= j < |r| && r[j] == es[0];
    assert Key(es[0]) <= Key(es[i]) by {
      assert i == 0 || 0 < i;
    }
    assert Key(r[0]) <= Key(r[j]) by {
      assert j == 0 || 0 < j;
    }
    assert Key(es[0]) == Key(es[i]);
  }

  // ---------------------------------------------------------------- devices

  /** Senders only connect to remote endpoints, receivers only bind to local ones. */
  predicate Directed(x: DeviceInfo) {
    (x.kind == Sender ==> x.localEndpoints == []) && (x.kind == Receiver ==> x.remoteEndpoints == [])
  }

  predicate EndpointsSorted(x: DeviceInfo) {
    Sorted(x.localEndpoints) && Sorted(x.remoteEndpoints)
  }

  predicate EndpointKeysIdentify(x: DeviceInfo) {
    KeysIdentify(x.localEndpoints) && KeysIdentify(x.remoteEndpoints)
  }

  /** The same device, with its endpoint lists put in some sorted order. */
  predicate Ordered(y: DeviceInfo, x: DeviceInfo) {
    && y == x.(localEndpoints := y.localEndpoints, remoteEndpoints := y.remoteEndpoints)
    && IsSortOf(y.localEndpoints, x.localEndpoints)
    && IsSortOf(y.remoteEndpoints, x.remoteEndpoints)
  }

  /** What holds of the info of every device that exists. */
  predicate DeviceOk(x: DeviceInfo) {
    Complete(x) && Directed(x) && EndpointsSorted(x)
  }

  lemma SortedEndpointsOk(r: seq<Endpoint>, es: seq<Endpoint>)
    requires multiset(r) == multiset(es) && EndpointsOk(es)
    ensures EndpointsOk(r) && |r| == |es|
  {
    forall i | 0 <= i < |r|
      ensures EndpointOk(r[i])
    {
      assert r[i] in multiset(es);
    }
    assert |multiset(r)| == |multiset(es)|;
  }

  /** Replacing the endpoint lists of a complete info by acceptable ones leaves it complete. */
  lemma CompleteWithEndpoints(x: DeviceInfo, locals: seq<Endpoint>, remotes: seq<Endpoint>)
    requires Complete(x) && EndpointsOk(locals) && EndpointsOk(remotes)
    ensures Complete(x.(localEndpoints := locals, remoteEndpoints := remotes))
  {
  }

  lemma OrderedIsOk(y: DeviceInfo, x: DeviceInfo)
    requires Complete(x) && Directed(x) && Ordered(y, x)
    ensures DeviceOk(y)
  {
    SortedEndpointsOk(y.localEndpoints, x.localEndpoints);
    SortedEndpointsOk(y.remoteEndpoints, x.remoteEndpoints);
    CompleteWithEndpoints(x, y.localEndpoints, y.remoteEndpoints);
  }

  /** The info with one more local, or one more remote endpoint. */
  function Bound(x: DeviceInfo, endpoint: Endpoint): DeviceInfo {
    x.(localEndpoints := x.localEndpoints + [endpoint])
  }

  function Connected(x: DeviceInfo, endpoint: Endpoint): DeviceInfo {
    x.(remoteEndpoints := x.remoteEndpoints + [endpoint])
  }

  /** A device whose lists are sorted and identified by their keys is recreated as it is. */
  lemma OrderedIsSame(y: DeviceInfo, x: DeviceInfo)
    requires Ordered(y, x) && EndpointsSorted(x) && EndpointKeysIdentify(x)
    ensures y == x
  {
    SortKeepsExactly(x.localEndpoints);
    SortKeepsExactly(x.remoteEndpoints);
  }

  /** The index a new device gets, and the allocator after it has been taken. */
  function IndexFor(a: IndexSpec.Alloc, x: DeviceInfo): nat
    requires a.Valid()
  {
    if x.index == 0 then IndexSpec.Choose(a) else x.index
  }

  function AllocFor(a: IndexSpec.Alloc, x: DeviceInfo): IndexSpec.Alloc
    requires a.Valid()
  {
    if x.index == 0 then IndexSpec.Allocate(a) else IndexSpec.Acquire(a, x.index)
  }

  /** The info a device is created with can be completed, goes the right way and is accepted by the network. */
  predicate Creatable(x: DeviceInfo, index: Uint32, freshUid: string, accepts: DeviceInfo -> bool) {
    && Completed(x, index, freshUid).Ok?
    && Directed(Completed(x, index, freshUid).value)
    && accepts(Completed(x, index, freshUid).value)
  }

  /** What a device can become is again sound. */
  lemma ToggledOk(x: DeviceInfo, enabled: bool)
    requires DeviceOk(x)
    ensures DeviceOk(x.(enabled := enabled))
  {
  }

  lemma BoundOk(x: DeviceInfo, endpoint: Endpoint, y: DeviceInfo)
    requires DeviceOk(x) && x.kind == Receiver && EndpointOk(endpoint)
    requires Ordered(y, Bound(x, endpoint))
    ensures DeviceOk(y)
  {
    CompleteWithEndpoints(x, x.localEndpoints + [endpoint], x.remoteEndpoints);
    OrderedIsOk(y, Bound(x, endpoint));
  }

  lemma ConnectedOk(x: DeviceInfo, endpoint: Endpoint, y: DeviceInfo)
    requires DeviceOk(x) && x.kind == Sender && EndpointOk(endpoint)
    requires Ordered(y, Connected(x, endpoint))
    ensures DeviceOk(y)
  {
    CompleteWithEndpoints(x, x.localEndpoints, x.remoteEndpoints + [endpoint]);
    OrderedIsOk(y, Connected(x, endpoint));
  }

  lemma CreatedOk(info: DeviceInfo, i: Uint32, freshUid: string, accepts: DeviceInfo -> bool, y: DeviceInfo)
    requires Accepted(info) && i != 0 && freshUid != "" && Creatable(info, i, freshUid, accepts)
    requires Ordered(y, Completed(info, i, freshUid).value)
    ensures DeviceOk(y) && y.index == i && y.uid == (if info.uid == "" then freshUid else info.uid)
  {
    CompletedIsComplete(info, i, freshUid);
    OrderedIsOk(y, Completed(info, i, freshUid).value);
  }

  /** A device comes about exactly with a buffer of some length, endpoints that go its way, and network consent. */
  lemma CreatableExactly(x: DeviceInfo, index: Uint32, freshUid: string, accepts: DeviceInfo -> bool)
    ensures Completed(x, index, freshUid).Ok? <==> x.deviceEncoding.bufferLengthNs > 0
    ensures Creatable(x, index, freshUid, accepts)
            <==> && Completed(x, index, freshUid).Ok? && Directed(x)
                 && accepts(Completed(x, index, freshUid).value)
  {
  }

  class Device {
    var info: DeviceInfo
    /** Whether the system shows the device. */
    var published: bool

    constructor (info: DeviceInfo)
      ensures this.info == info && !published
    {
      this.info := info;
      published := false;
    }

    /**
     Creates a device. If the index is taken nothing happens; if anything fails after that,
     no device exists but the index stays taken.
     */
    static method Create(allocator: IndexAllocator, freshUid: string, x: DeviceInfo, accepts: DeviceInfo -> bool)
      returns (r: Result<Device>)
      requires allocator.Valid()
      requires x.index == 0 ==> |allocator.Model().live| < INDEX_LIMIT
      modifies allocator
      ensures allocator.Valid()
      ensures var a := old(allocator.Model());
              if x.index != 0 && x.index in a.live then r.Err? && allocator.Model() == a
              else
                && allocator.Model() == AllocFor(a, x)
                && (r.Ok? <==> Creatable(x, IndexFor(a, x), freshUid, accepts))
                && (r.Ok? ==> Ordered(r.value.info, Completed(x, IndexFor(a, x), freshUid).value))
      ensures r.Ok? ==> fresh(r.value) && r.value.published == r.value.info.enabled
    {
      var index := x.index;
      if index == 0 {
        IndexSpec.AllocateKeepsValid(allocator.Model());
        index := allocator.AllocateAndAcquire();
      } else {
        var free := allocator.Acquire(index);
        if !free {
          return Err(InvalidArgument);
        }
      }
      var completed := Completed(x, index, freshUid);
      if completed.Err? {
        return Err(completed.error);
      }
      if !Directed(completed.value) || !accepts(completed.value) {
        return Err(InvalidArgument);
      }
      var device := new Device(completed.value);
      device.SortLists();
      device.Toggle(device.info.enabled);
      return Ok(device);
    }

    method SortLists()
      modifies this`info
      ensures Ordered(info, old(info))
    {
      var locals := SortEndpoints(info.localEndpoints);
      var remotes := SortEndpoints(info.remoteEndpoints);
      info := info.(localEndpoints := locals, remoteEndpoints := remotes);
    }

    /** Whatever was published before, the device is now shown exactly if it is enabled. */
    method Toggle(enabled: bool)
      modifies this
      ensures published == enabled
      ensures info == old(info).(enabled := enabled)
    {
      info := info.(enabled := enabled);
      if enabled {
        if !published {
          published := true;
        }
      } else {
        if published {
          published := false;
        }
      }
    }

    /** Only a receiver can be bound; the new endpoint joins the sorted local list. */
    method Bind(endpoint: Endpoint, netOk: bool) returns (ok: bool)
      modifies this`info
      ensures ok == (old(info).kind == Receiver && netOk)
      ensures !ok ==> info == old(info)
      ensures ok ==> Ordered(info, Bound(old(info), endpoint))
    {
      if info.kind == Sender || !netOk {
        return false;
      }
      info := info.(localEndpoints := info.localEndpoints + [endpoint]);
      SortLists();
      return true;
    }

    /** Only a sender can be connected; the new endpoint joins the sorted remote list. */
    method Connect(endpoint: Endpoint, netOk: bool) returns (ok: bool)
      modifies this`info
      ensures ok == (old(info).kind == Sender && netOk)
      ensures !ok ==> info == old(info)
      ensures ok ==> Ordered(info, Connected(old(info), endpoint))
    {
      if info.kind == Receiver || !netOk {
        return false;
      }
      info := info.(remoteEndpoints := info.remoteEndpoints + [endpoint]);
      SortLists();
      return true;
    }

    /** The end of a device: it is no longer shown and its index is free again. */
    method Destroy(allocator: IndexAllocator)
      requires allocator.Valid() && (info.index != 0 ==> info.index in allocator.Model().live)
      modifies this, allocator
      ensures !published
      ensures allocator.Valid()
      ensures allocator.Model() == if old(info).index == 0 then old(allocator.Model())
                                   else IndexSpec.Release(old(allocator.Model()), old(info).index)
    {
      Toggle(false);
      if info.index != 0 {
        allocator.Release(info.index);
      }
    }
  }
}
