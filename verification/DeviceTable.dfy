/**
 The table of devices as a state machine: what every operation of the device manager does
 to the table, the index allocator and the stored list, what every run keeps, and what a
 restart from storage rebuilds.
 */
module DeviceTables {
  import opened DeviceDefs
  import opened RpcSerdes
  import opened Devices
  import IndexSpec

  type Table = map<nat, DeviceInfo>

  // ---------------------------------------------------------------- listings

  /** `xs` are the infos of the table in strictly ascending index order. */
  ghost predicate Lists(xs: seq<DeviceInfo>, t: Table) {
    && (forall k :: 0 <= k < |xs| ==> xs[k].index in t && t[xs[k].index] == xs[k])
    && (forall j, k :: 0 <= j < k < |xs| ==> xs[j].index < xs[k].index)
    && (forall i | i in t :: t[i] in xs)
  }

  /** Every device stands under its own index. */
  ghost predicate Keyed(t: Table) {
    forall i | i in t :: t[i].index == i
  }

  /** A table has only one listing. */
  lemma {:induction false} ListingUnique(xs: seq<DeviceInfo>, ys: seq<DeviceInfo>, t: Table)
    requires Lists(xs, t) && Lists(ys, t) && Keyed(t)
    ensures xs == ys
  {
    if xs == [] || ys == [] {
      ListingEmpty(xs, t);
      ListingEmpty(ys, t);
    } else {
      var n, m := |xs| - 1, |ys| - 1;
      SameLast(xs, ys, t);
      ListingPrefix(xs, t);
      ListingPrefix(ys, t);
      ListingUnique(xs[..n], ys[..m], t - {xs[n].index});
      SameFromParts(xs, ys);
    }
  }

  lemma SameFromParts(xs: seq<DeviceInfo>, ys: seq<DeviceInfo>)
    requires xs != [] && ys != [] && xs[..|xs| - 1] == ys[..|ys| - 1] && xs[|xs| - 1] == ys[|ys| - 1]
    ensures xs == ys
  {
    assert xs == xs[..|xs| - 1] + [xs[|xs| - 1]] && ys == ys[..|ys| - 1] + [ys[|ys| - 1]];
  }

  lemma ListingEmpty(xs: seq<DeviceInfo>, t: Table)
    requires Lists(xs, t)
    ensures xs == [] <==> t == map[]
  {
    if xs != [] {
      assert xs[0].index in t;
    }
  }

  lemma LastIsLargest(xs: seq<DeviceInfo>, t: Table, i: nat)
    requires Lists(xs, t) && Keyed(t) && i in t && xs != []
    ensures i <= xs[|xs| - 1].index
  {
    var k :| 0 <= k < |xs| && xs[k] == t[i];
  }

  lemma SameLast(xs: seq<DeviceInfo>, ys: seq<DeviceInfo>, t: Table)
    requires Lists(xs, t) && Lists(ys, t) && Keyed(t) && xs != [] && ys != []
    ensures xs[|xs| - 1] == ys[|ys| - 1]
  {
    LastIsLargest(xs, t, ys[|ys| - 1].index);
    LastIsLargest(ys, t, xs[|xs| - 1].index);
  }

  lemma ListingPrefix(xs: seq<DeviceInfo>, t: Table)
    requires Lists(xs, t) && xs != [] && Keyed(t)
    ensures Lists(xs[..|xs| - 1], t - {xs[|xs| - 1].index}) && Keyed(t - {xs[|xs| - 1].index})
  {
    var n := |xs| - 1;
    forall i | i in t && i != xs[n].index
      ensures t[i] in xs[..n]
    {
      var k :| 0 <= k < |xs| && xs[k] == t[i];
      assert xs[..n][k] == xs[k];
    }
  }

  /** A device with a larger index than all others is listed last. */
  lemma ListingAppend(xs: seq<DeviceInfo>, t: Table, x: DeviceInfo)
    requires Lists(xs, t) && forall k :: 0 <= k < |xs| ==> xs[k].index < x.index
    ensures Lists(xs + [x], t[x.index := x])
  {
    var t', xs' := t[x.index := x], xs + [x];
    forall i | i in t'
      ensures t'[i] in xs'
    {
      if i == x.index {
        assert xs'[|xs|] == x;
      } else {
        var k :| 0 <= k < |xs| && xs[k] == t[i];
        assert xs'[k] == t[i];
      }
    }
  }

  lemma {:induction false} LargestExists(s: set<nat>)
    requires s != {}
    ensures exists i :: i in s && forall j | j in s :: j <= i
  {
    var x :| x in s;
    var rest := s - {x};
    if rest == {} {
      assert s == {x};
    } else {
      LargestExists(rest);
      var y :| y in rest && forall j | j in rest :: j <= y;
      LargerOfTwo(s, x, y);
    }
  }

  lemma LargerOfTwo(s: set<nat>, x: nat, y: nat)
    requires x in s && y in s && forall j | j in s - {x} :: j <= y
    ensures exists i :: i in s && forall j | j in s :: j <= i
  {
    var z := if x < y then y else x;
    forall j | j in s
      ensures j <= z
    {
      assert j == x || j in s - {x};
    }
  }

  ghost function Largest(s: set<nat>): (i: nat)
    requires s != {}
    ensures i in s && forall j | j in s :: j <= i
  {
    LargestExists(s);
    var i :| i in s && forall j | j in s :: j <= i;
    i
  }

  /** The infos of the table by ascending index. */
  ghost function Listing(t: Table): seq<DeviceInfo>
    decreases t.Keys
  {
    if t.Keys == {} then []
    else
      var i := Largest(t.Keys);
      Listing(t - {i}) + [t[i]]
  }

  lemma {:induction false} ListingLists(t: Table)
    requires Keyed(t)
    ensures Lists(Listing(t), t)
    decreases t.Keys
  {
    if t.Keys == {} {
    } else {
      var i := Largest(t.Keys);
      ListingLists(t - {i});
      ListingWithLargest(Listing(t - {i}), t, i);
    }
  }

  lemma ListingWithLargest(xs: seq<DeviceInfo>, t: Table, i: nat)
    requires Keyed(t) && i in t && (forall j | j in t.Keys :: j <= i) && Lists(xs, t - {i})
    ensures Lists(xs + [t[i]], t)
  {
    ListingAppend(xs, t - {i}, t[i]);
    assert t == (t - {i})[i := t[i]];
  }

  // ---------------------------------------------------------------- storage

  /** What is read back from storage: nothing if there is no entry or it does not convert. */
  function Loaded(stored: Option<seq<RvDeviceInfo>>): seq<DeviceInfo> {
    if stored.None? then []
    else
      var xs := DevicesFromRpc(stored.value);
      if xs.Ok? then xs.value else []
  }

  /** What is in storage once the table has been saved. */
  ghost function Saved(t: Table): Option<seq<RvDeviceInfo>> {
    var ms := DevicesToRpc(Listing(t));
    if ms.Ok? then Some(ms.value) else None
  }

  // ---------------------------------------------------------------- states

  /** A device is named by its index or by its uid. */
  datatype Selector = ByIndex(index: nat) | ByUid(uid: string)

  /** Which device each uid belongs to. */
  type Uids = map<string, nat>

  /**
   The devices by index, the index of every uid, the allocator, the indices taken by devices
   whose creation failed later on, and the stored list.
   */
  datatype State = State(
    table: Table, uids: Uids, alloc: IndexSpec.Alloc, leaked: set<nat>, stored: Option<seq<RvDeviceInfo>>)

  /** A manager that has loaded nothing yet. */
  function Fresh(stored: Option<seq<RvDeviceInfo>>): State {
    State(map[], map[], IndexSpec.INITIAL, {}, stored)
  }

  /** Every device stands under its own non-zero index and, in the second table, under its own uid. */
  ghost predicate Indexed(t: Table, uids: Uids) {
    && (forall i | i in t :: t[i].index == i != 0 && t[i].uid in uids && uids[t[i].uid] == i)
    && (forall u | u in uids :: uids[u] in t && t[uids[u]].uid == u)
  }

  ghost predicate AllOk(t: Table) {
    forall i {:trigger DeviceOk(t[i])} | i in t :: DeviceOk(t[i])
  }

  /** The allocator holds exactly zero, the indices of the table, and the leaked ones. */
  ghost predicate Accounted(live: set<nat>, t: Table, leaked: set<nat>) {
    && (forall i: nat :: i in live <==> i == 0 || i in t || i in leaked)
    && (forall i | i in leaked :: i !in t && i != 0)
  }

  ghost predicate Sound(s: State) {
    Indexed(s.table, s.uids) && AllOk(s.table) && s.alloc.Valid() && Accounted(s.alloc.live, s.table, s.leaked)
  }

  /** Storage holds the listing of the table. */
  ghost predicate Mirrors(s: State) {
    s.stored == Saved(s.table)
  }

  // ---------------------------------------------------------------- operations

  datatype Op =
    | Add(info: DeviceInfo, freshUid: string, accepts: DeviceInfo -> bool)
    | Delete(sel: Selector)
    | Toggle(sel: Selector, enabled: bool)
    | Bind(sel: Selector, endpoint: Endpoint, netOk: bool)
    | Connect(sel: Selector, endpoint: Endpoint, netOk: bool)

  function Resolved(s: State, sel: Selector): Option<nat> {
    match sel
    case ByIndex(i) => if i in s.table then Some(i) else None
    case ByUid(u) => if u in s.uids then Some(s.uids[u]) else None
  }

  /**
   Requests carry what a message converts to, generated uids are not in use, and the index
   space is not exhausted.
   */
  predicate Feasible(s: State, op: Op) {
    match op
    case Add(info, freshUid, _) =>
      Accepted(info) && freshUid != "" && freshUid !in s.uids
      && (info.index == 0 ==> |s.alloc.live| < IndexSpec.INDEX_LIMIT)
    case Bind(_, endpoint, _) => EndpointOk(endpoint)
    case Connect(_, endpoint, _) => EndpointOk(endpoint)
    case _ => true
  }

  /** Device `i` has become `x`, and the table has been saved. */
  ghost function Put(s: State, i: nat, x: DeviceInfo): State {
    s.(table := s.table[i := x], stored := Saved(s.table[i := x]))
  }

  /** Whether a new device is refused before any index is taken. */
  predicate Refuses(s: State, info: DeviceInfo) {
    (info.index != 0 && (info.index in s.table || info.index in s.alloc.live)) || (info.uid != "" && info.uid in s.uids)
  }

  /** What is turned down at once: an unknown device, a sender to bind, a receiver to connect, a network refusal. */
  ghost predicate TurnsDown(s: State, op: Op)
    requires Sound(s)
  {
    match op
    case Add(info, _, _) => Refuses(s, info)
    case Delete(sel) => Resolved(s, sel).None?
    case Toggle(sel, _) => Resolved(s, sel).None?
    case Bind(sel, _, netOk) => Resolved(s, sel).None? || s.table[Resolved(s, sel).value].kind == Sender || !netOk
    case Connect(sel, _, netOk) => Resolved(s, sel).None? || s.table[Resolved(s, sel).value].kind == Receiver || !netOk
  }

  /** One operation from `s` to `s'`; `ok` tells whether it succeeded. */
  ghost predicate Step(s: State, op: Op, s': State, ok: bool)
    requires Sound(s)
  {
    if TurnsDown(s, op) then !ok && s' == s
    else
      match op
      case Add(info, freshUid, accepts) => AddStep(s, info, freshUid, accepts, s', ok)
      case Delete(sel) => ok && s' == Without(s, Resolved(s, sel).value)
      case Toggle(sel, enabled) =>
        var i := Resolved(s, sel).value;
        ok && s' == Put(s, i, s.table[i].(enabled := enabled))
      case Bind(sel, endpoint, _) =>
        var i := Resolved(s, sel).value;
        ok && ChangeStep(s, i, Bound(s.table[i], endpoint), s')
      case Connect(sel, endpoint, _) =>
        var i := Resolved(s, sel).value;
        ok && ChangeStep(s, i, Connected(s.table[i], endpoint), s')
  }

  /** Device `i` has become `x` with its endpoints put in order. */
  ghost predicate ChangeStep(s: State, i: nat, x: DeviceInfo, s': State) {
    i in s'.table && Ordered(s'.table[i], x) && s' == Put(s, i, s'.table[i])
  }

  /** An index is taken; if the device cannot be created with it, that index is lost. */
  ghost predicate AddStep(
      s: State, info: DeviceInfo, freshUid: string, accepts: DeviceInfo -> bool, s': State, ok: bool)
    requires s.alloc.Valid()
  {
    var i := IndexFor(s.alloc, info);
    if Creatable(info, i, freshUid, accepts) then
      && ok && i in s'.table && Ordered(s'.table[i], Completed(info, i, freshUid).value)
      && s' == With(s, AllocFor(s.alloc, info), s'.table[i])
    else !ok && s' == Lost(s, info)
  }

  /** An index has been taken for a device that did not come about. */
  function Lost(s: State, info: DeviceInfo): State
    requires s.alloc.Valid()
  {
    s.(alloc := AllocFor(s.alloc, info), leaked := s.leaked + {IndexFor(s.alloc, info)})
  }

  /** Device `x` has joined the table, and the table has been saved. */
  ghost function With(s: State, alloc: IndexSpec.Alloc, x: DeviceInfo): State {
    var table := s.table[x.index := x];
    State(table, s.uids[x.uid := x.index], alloc, s.leaked, Saved(table))
  }

  /** Device `i` has left the table, the table has been saved, and the index has been released. */
  ghost function Without(s: State, i: nat): State
    requires i in s.table
  {
    State(s.table - {i}, s.uids - {s.table[i].uid}, IndexSpec.Release(s.alloc, i), s.leaked, Saved(s.table - {i}))
  }

  // ---------------------------------------------------------------- what one step keeps

  lemma AllOkPut(t: Table, i: nat, x: DeviceInfo)
    requires AllOk(t) && DeviceOk(x)
    ensures AllOk(t[i := x])
  {
    var t' := t[i := x];
    forall j | j in t'
      ensures DeviceOk(t'[j])
    {
      if j != i {
        assert t'[j] == t[j] && DeviceOk(t[j]);
      }
    }
  }

  lemma IndexedPut(t: Table, uids: Uids, i: nat, x: DeviceInfo)
    requires Indexed(t, uids) && i in t && x.index == t[i].index && x.uid == t[i].uid
    ensures Indexed(t[i := x], uids)
  {
  }

  lemma IndexedWith(t: Table, uids: Uids, x: DeviceInfo)
    requires Indexed(t, uids) && x.index !in t && x.index != 0 && x.uid !in uids
    ensures Indexed(t[x.index := x], uids[x.uid := x.index])
  {
  }

  lemma AccountedWith(live: set<nat>, t: Table, leaked: set<nat>, x: DeviceInfo)
    requires Accounted(live, t, leaked) && x.index !in live
    ensures Accounted(live + {x.index}, t[x.index := x], leaked)
  {
  }

  lemma PutKeeps(s: State, i: nat, x: DeviceInfo)
    requires Sound(s) && i in s.table && x.index == s.table[i].index && x.uid == s.table[i].uid && DeviceOk(x)
    ensures Sound(Put(s, i, x)) && Mirrors(Put(s, i, x))
  {
    AllOkPut(s.table, i, x);
    IndexedPut(s.table, s.uids, i, x);
    assert s.table[i := x].Keys == s.table.Keys;
  }

  lemma WithKeeps(s: State, alloc: IndexSpec.Alloc, x: DeviceInfo)
    requires Sound(s) && alloc.Valid() && DeviceOk(x) && alloc.live == s.alloc.live + {x.index}
    requires x.index !in s.alloc.live && x.index != 0 && x.uid !in s.uids
    ensures Sound(With(s, alloc, x)) && Mirrors(With(s, alloc, x))
  {
    AllOkPut(s.table, x.index, x);
    IndexedWith(s.table, s.uids, x);
    AccountedWith(s.alloc.live, s.table, s.leaked, x);
  }

  lemma AllOkRemove(t: Table, i: nat)
    requires AllOk(t)
    ensures AllOk(t - {i})
  {
    var t' := t - {i};
    forall j | j in t'
      ensures DeviceOk(t'[j])
    {
      assert t'[j] == t[j] && DeviceOk(t[j]);
    }
  }

  lemma IndexedRemove(t: Table, uids: Uids, i: nat)
    requires Indexed(t, uids) && i in t
    ensures Indexed(t - {i}, uids - {t[i].uid})
  {
  }

  lemma AccountedRemove(live: set<nat>, t: Table, leaked: set<nat>, i: nat)
    requires Accounted(live, t, leaked) && i in t && i != 0
    ensures Accounted(live - {i}, t - {i}, leaked)
  {
  }

  lemma WithoutKeeps(s: State, i: nat)
    requires Sound(s) && i in s.table
    ensures Sound(Without(s, i)) && Mirrors(Without(s, i))
  {
    AllOkRemove(s.table, i);
    IndexedRemove(s.table, s.uids, i);
    AccountedRemove(s.alloc.live, s.table, s.leaked, i);
    IndexSpec.ReleaseKeepsValid(s.alloc, i);
  }

  /** Whatever a new device's fate, its index was not live before and is live now. */
  lemma IndexTaken(s: State, info: DeviceInfo)
    requires s.alloc.Valid() && (info.index == 0 ==> |s.alloc.live| < IndexSpec.INDEX_LIMIT)
    requires info.index != 0 ==> info.index !in s.alloc.live
    ensures var i := IndexFor(s.alloc, info);
            && i != 0 && i < IndexSpec.INDEX_LIMIT && i !in s.alloc.live
            && AllocFor(s.alloc, info).Valid() && AllocFor(s.alloc, info).live == s.alloc.live + {i}
  {
    if info.index == 0 {
      IndexSpec.AllocateKeepsValid(s.alloc);
    } else {
      IndexSpec.AcquireKeepsValid(s.alloc, info.index);
    }
  }

  lemma CreationKeeps(s: State, op: Op, y: DeviceInfo)
    requires Sound(s) && op.Add? && Feasible(s, op) && !Refuses(s, op.info)
    requires Creatable(op.info, IndexFor(s.alloc, op.info), op.freshUid, op.accepts)
    requires Ordered(y, Completed(op.info, IndexFor(s.alloc, op.info), op.freshUid).value)
    ensures var s' := With(s, AllocFor(s.alloc, op.info), y); Sound(s') && Mirrors(s')
  {
    IndexTaken(s, op.info);
    CreatedOk(op.info, IndexFor(s.alloc, op.info), op.freshUid, op.accepts, y);
    WithKeeps(s, AllocFor(s.alloc, op.info), y);
  }

  lemma LossKeeps(s: State, info: DeviceInfo)
    requires Sound(s) && !Refuses(s, info) && (info.index == 0 ==> |s.alloc.live| < IndexSpec.INDEX_LIMIT)
    ensures Sound(Lost(s, info))
  {
    IndexTaken(s, info);
  }

  /**
   A success leaves the listing of the table in storage and loses no index; a failure changes
   neither the tables nor storage.
   */
  ghost predicate Kept(s: State, s': State, ok: bool) {
    && Sound(s')
    && (if ok then Mirrors(s') && s'.leaked == s.leaked
        else s' == s.(alloc := s'.alloc, leaked := s'.leaked) && s.leaked <= s'.leaked)
  }

  lemma ToggleKeeps(s: State, i: nat, enabled: bool)
    requires Sound(s) && i in s.table
    ensures Kept(s, Put(s, i, s.table[i].(enabled := enabled)), true)
  {
    assert DeviceOk(s.table[i]);
    ToggledOk(s.table[i], enabled);
    PutKeeps(s, i, s.table[i].(enabled := enabled));
  }

  lemma BindKeeps(s: State, i: nat, endpoint: Endpoint, s': State)
    requires Sound(s) && i in s.table && s.table[i].kind == Receiver && EndpointOk(endpoint)
    requires ChangeStep(s, i, Bound(s.table[i], endpoint), s')
    ensures Kept(s, s', true)
  {
    assert DeviceOk(s.table[i]);
    BoundOk(s.table[i], endpoint, s'.table[i]);
    PutKeeps(s, i, s'.table[i]);
  }

  lemma ConnectKeeps(s: State, i: nat, endpoint: Endpoint, s': State)
    requires Sound(s) && i in s.table && s.table[i].kind == Sender && EndpointOk(endpoint)
    requires ChangeStep(s, i, Connected(s.table[i], endpoint), s')
    ensures Kept(s, s', true)
  {
    assert DeviceOk(s.table[i]);
    ConnectedOk(s.table[i], endpoint, s'.table[i]);
    PutKeeps(s, i, s'.table[i]);
  }

  lemma AddStepKeeps(s: State, op: Op, s': State, ok: bool)
    requires Sound(s) && op.Add? && Feasible(s, op) && Step(s, op, s', ok)
    ensures Kept(s, s', ok)
  {
    if ok {
      CreationKeeps(s, op, s'.table[IndexFor(s.alloc, op.info)]);
    } else if !Refuses(s, op.info) {
      LossKeeps(s, op.info);
    }
  }

  lemma DeleteStepKeeps(s: State, op: Op, s': State, ok: bool)
    requires Sound(s) && op.Delete? && Step(s, op, s', ok)
    ensures Kept(s, s', ok)
  {
    if ok {
      WithoutKeeps(s, Resolved(s, op.sel).value);
    }
  }

  lemma ToggleStepKeeps(s: State, op: Op, s': State, ok: bool)
    requires Sound(s) && op.Toggle? && Step(s, op, s', ok)
    ensures Kept(s, s', ok)
  {
    if ok {
      ToggleKeeps(s, Resolved(s, op.sel).value, op.enabled);
    }
  }

  lemma BindStepKeeps(s: State, op: Op, s': State, ok: bool)
    requires Sound(s) && op.Bind? && Feasible(s, op) && Step(s, op, s', ok)
    ensures Kept(s, s', ok)
  {
    if ok {
      BindKeeps(s, Resolved(s, op.sel).value, op.endpoint, s');
    }
  }

  lemma ConnectStepKeeps(s: State, op: Op, s': State, ok: bool)
    requires Sound(s) && op.Connect? && Feasible(s, op) && Step(s, op, s', ok)
    ensures Kept(s, s', ok)
  {
    if ok {
      ConnectKeeps(s, Resolved(s, op.sel).value, op.endpoint, s');
    }
  }

  /** Every operation keeps the two tables, the allocator and the leaked indices in agreement. */
  lemma StepKeeps(s: State, op: Op, s': State, ok: bool)
    requires Sound(s) && Feasible(s, op) && Step(s, op, s', ok)
    ensures Kept(s, s', ok)
  {
    match op
    case Add(_, _, _) => AddStepKeeps(s, op, s', ok);
    case Delete(_) => DeleteStepKeeps(s, op, s', ok);
    case Toggle(_, _) => ToggleStepKeeps(s, op, s', ok);
    case Bind(_, _, _) => BindStepKeeps(s, op, s', ok);
    case Connect(_, _, _) => ConnectStepKeeps(s, op, s', ok);
  }

  /** A request that passes the first checks, but whose device cannot be created with the index it takes. */
  ghost predicate WastesIndex(s: State, op: Op)
    requires s.alloc.Valid()
  {
    && op.Add? && !Refuses(s, op.info)
    && !Creatable(op.info, IndexFor(s.alloc, op.info), op.freshUid, op.accepts)
  }

  /** An index is lost exactly by such a request: by it one more, by any other operation none. */
  lemma LosesExactly(s: State, op: Op, s': State, ok: bool)
    requires Sound(s) && Feasible(s, op) && Step(s, op, s', ok)
    ensures s'.leaked != s.leaked <==> WastesIndex(s, op)
    ensures WastesIndex(s, op) ==> !ok && s' == Lost(s, op.info) && |s'.leaked| == |s.leaked| + 1
  {
    if op.Add? && !Refuses(s, op.info) {
      IndexTaken(s, op.info);
    }
  }

  /** For one, a buffer of no length wastes an index in every state that does not refuse the request. */
  lemma NoLengthWastesIndex(s: State, op: Op)
    requires s.alloc.Valid() && op.Add? && !Refuses(s, op.info) && op.info.deviceEncoding.bufferLengthNs <= 0
    ensures WastesIndex(s, op)
  {
    CreatableExactly(op.info, IndexFor(s.alloc, op.info), op.freshUid, op.accepts);
  }

  /** The device an operation on an existing device names. */
  function Named(s: State, op: Op): Option<nat> {
    if op.Add? then None else Resolved(s, op.sel)
  }

  /** No operation touches a device it does not name. */
  lemma OthersUntouched(s: State, op: Op, s': State, ok: bool, j: nat)
    requires Sound(s) && Feasible(s, op) && Step(s, op, s', ok)
    requires j in s.table && Named(s, op) != Some(j)
    ensures j in s'.table && s'.table[j] == s.table[j]
  {
    if op.Add? && !Refuses(s, op.info) {
      IndexTaken(s, op.info);
      if ok {
        CreatedOk(op.info, IndexFor(s.alloc, op.info), op.freshUid, op.accepts, s'.table[IndexFor(s.alloc, op.info)]);
      }
    }
  }

  // ---------------------------------------------------------------- what each operation is for

  /** The selector gives the index of device `i`, or its uid. */
  predicate Names(s: State, sel: Selector, i: nat) {
    i in s.table && (sel == ByIndex(i) || sel == ByUid(s.table[i].uid))
  }

  /** A selector leads to the one device it names. */
  lemma ResolvedExactly(s: State, sel: Selector, i: nat)
    requires Sound(s)
    ensures Resolved(s, sel) == Some(i) <==> Names(s, sel, i)
  {
  }

  /** Deleting, toggling, binding and connecting succeed exactly if a device is named that allows it. */
  lemma SucceedsExactly(s: State, op: Op, s': State, ok: bool)
    requires Sound(s) && !op.Add? && Step(s, op, s', ok)
    ensures ok <==> exists i: nat ::
              && Names(s, op.sel, i)
              && (op.Bind? ==> s.table[i].kind == Receiver && op.netOk)
              && (op.Connect? ==> s.table[i].kind == Sender && op.netOk)
  {
    if Resolved(s, op.sel).Some? {
      ResolvedExactly(s, op.sel, Resolved(s, op.sel).value);
    }
    forall i: nat | Names(s, op.sel, i)
      ensures Resolved(s, op.sel) == Some(i)
    {
      ResolvedExactly(s, op.sel, i);
    }
  }

  /** A deleted device is gone from both tables and its index is free; nothing else changes there. */
  lemma DeleteRemoves(s: State, op: Op, s': State, ok: bool, i: nat)
    requires Sound(s) && op.Delete? && Step(s, op, s', ok) && Names(s, op.sel, i)
    ensures ok && i !in s'.table && s.table[i].uid !in s'.uids && i !in s'.alloc.live
    ensures s'.table == s.table - {i} && s'.uids == s.uids - {s.table[i].uid}
    ensures s'.alloc.live == s.alloc.live - {i} && s'.leaked == s.leaked
  {
    ResolvedExactly(s, op.sel, i);
  }

  /** A toggled device is enabled as asked; nothing else changes. */
  lemma ToggleSets(s: State, op: Op, s': State, ok: bool, i: nat)
    requires Sound(s) && op.Toggle? && Step(s, op, s', ok) && Names(s, op.sel, i)
    ensures ok && i in s'.table && s'.table[i].enabled == op.enabled
    ensures s'.table == s.table[i := s.table[i].(enabled := op.enabled)]
    ensures s'.uids == s.uids && s'.alloc == s.alloc && s'.leaked == s.leaked
  {
    ResolvedExactly(s, op.sel, i);
  }

  /** A receiver is bound: the new endpoint joins its sorted local list, and nothing else changes. */
  lemma BindAddsOne(s: State, op: Op, s': State, i: nat)
    requires Sound(s) && op.Bind? && Step(s, op, s', true) && Names(s, op.sel, i)
    ensures i in s'.table && s'.table == s.table[i := s'.table[i]]
    ensures s'.uids == s.uids && s'.alloc == s.alloc && s'.leaked == s.leaked
    ensures var x, y := s.table[i], s'.table[i];
            && x.kind == Receiver && y == x.(localEndpoints := y.localEndpoints)
            && Sorted(y.localEndpoints)
            && multiset(y.localEndpoints) == multiset(x.localEndpoints) + multiset{op.endpoint}
  {
    ResolvedExactly(s, op.sel, i);
    assert DeviceOk(s.table[i]);
    OnlyEmptySort(s'.table[i].remoteEndpoints);
  }

  /** A sender is connected: the new endpoint joins its sorted remote list, and nothing else changes. */
  lemma ConnectAddsOne(s: State, op: Op, s': State, i: nat)
    requires Sound(s) && op.Connect? && Step(s, op, s', true) && Names(s, op.sel, i)
    ensures i in s'.table && s'.table == s.table[i := s'.table[i]]
    ensures s'.uids == s.uids && s'.alloc == s.alloc && s'.leaked == s.leaked
    ensures var x, y := s.table[i], s'.table[i];
            && x.kind == Sender && y == x.(remoteEndpoints := y.remoteEndpoints)
            && Sorted(y.remoteEndpoints)
            && multiset(y.remoteEndpoints) == multiset(x.remoteEndpoints) + multiset{op.endpoint}
  {
    ResolvedExactly(s, op.sel, i);
    assert DeviceOk(s.table[i]);
    OnlyEmptySort(s'.table[i].localEndpoints);
  }

  /** The index a new device gets: its own, or one the allocator chooses. */
  function NewIndex(s: State, info: DeviceInfo): nat
    requires s.alloc.Valid()
  {
    if info.index != 0 then info.index else IndexSpec.Choose(s.alloc)
  }

  /**
   The new device's index and uid, if it comes with any, are free; its buffer has some length; a
   sender comes without local and a receiver without remote endpoints; and the network consents.
   */
  ghost predicate Admissible(s: State, info: DeviceInfo, freshUid: string, accepts: DeviceInfo -> bool)
    requires s.alloc.Valid()
  {
    && (info.index == 0 || info.index !in s.alloc.live)
    && (info.uid == "" || info.uid !in s.uids)
    && info.deviceEncoding.bufferLengthNs > 0
    && (info.kind == Sender ==> info.localEndpoints == [])
    && (info.kind == Receiver ==> info.remoteEndpoints == [])
    && Completed(info, NewIndex(s, info), freshUid).Ok?
    && accepts(Completed(info, NewIndex(s, info), freshUid).value)
  }

  /** A device is added exactly if it is admissible. */
  lemma AddSucceedsExactly(s: State, op: Op, s': State, ok: bool)
    requires Sound(s) && op.Add? && Feasible(s, op) && Step(s, op, s', ok)
    ensures ok <==> Admissible(s, op.info, op.freshUid, op.accepts)
  {
    hide Completed, IndexSpec.Choose, IndexSpec.Allocate, IndexSpec.Acquire, Ordered;
    CreatableExactly(op.info, IndexFor(s.alloc, op.info), op.freshUid, op.accepts);
  }

  /** An added device is in both tables under an index that was free, with the completed info; nothing else changes. */
  lemma AddAddsOne(s: State, op: Op, s': State)
    requires Sound(s) && op.Add? && Feasible(s, op) && Step(s, op, s', true)
    ensures var i := NewIndex(s, op.info);
            && i != 0 && i !in s.alloc.live && i !in s.table
            && s'.table.Keys == s.table.Keys + {i} && s'.table == s.table[i := s'.table[i]]
            && Completed(op.info, i, op.freshUid).Ok?
            && Ordered(s'.table[i], Completed(op.info, i, op.freshUid).value)
            && s'.table[i].uid == (if op.info.uid == "" then op.freshUid else op.info.uid)
            && s'.table[i].uid !in s.uids && s'.uids == s.uids[s'.table[i].uid := i]
            && s'.alloc.live == s.alloc.live + {i} && s'.leaked == s.leaked
  {
    hide Ordered, DeviceOk;
    IndexTaken(s, op.info);
    var i := IndexFor(s.alloc, op.info);
    CreatedOk(op.info, i, op.freshUid, op.accepts, s'.table[i]);
  }

  lemma OnlyEmptySort(r: seq<Endpoint>)
    ensures IsSortOf(r, []) ==> r == []
  {
    assert |multiset(r)| == |r|;
  }

  // ---------------------------------------------------------------- runs

  /** A run of operations, with every state it goes through. */
  datatype Trace = Start(s: State) | Then(before: Trace, op: Op, s: State, ok: bool)

  /** The run starts with nothing loaded and takes only steps the manager can take. */
  ghost predicate Legal(tr: Trace): (legal: bool)
    ensures legal ==> Sound(tr.s)
  {
    match tr
    case Start(s) => s == Fresh(s.stored)
    case Then(before, op, s, ok) =>
      Legal(before) && Feasible(before.s, op) && Step(before.s, op, s, ok) && (StepKeeps(before.s, op, s, ok); true)
  }

  predicate AnySuccess(tr: Trace) {
    tr.Then? && (tr.ok || AnySuccess(tr.before))
  }

  /** How many requests of the run wasted an index. */
  ghost function LostIndices(tr: Trace): nat
    requires Legal(tr)
  {
    match tr
    case Start(_) => 0
    case Then(before, op, s, ok) => LostIndices(before) + (if WastesIndex(before.s, op) then 1 else 0)
  }

  lemma {:induction false} RunMirrors(tr: Trace)
    requires Legal(tr)
    ensures AnySuccess(tr) ==> Mirrors(tr.s)
  {
    if tr.Start? {
    } else {
      RunMirrors(tr.before);
      StepKeeps(tr.before.s, tr.op, tr.s, tr.ok);
    }
  }

  lemma {:induction false} RunLosses(tr: Trace)
    requires Legal(tr)
    ensures |tr.s.leaked| == LostIndices(tr)
  {
    if tr.Start? {
    } else {
      RunLosses(tr.before);
      LosesExactly(tr.before.s, tr.op, tr.s, tr.ok);
    }
  }

  /**
   In every reachable state the two tables hold the same devices, the live indices are zero,
   one per device and one per request that wasted an index, and from the first success on storage
   holds the listing of the table.
   */
  lemma RunAgrees(tr: Trace)
    requires Legal(tr)
    ensures Sound(tr.s)
    ensures AnySuccess(tr) ==> Mirrors(tr.s)
    ensures |tr.s.alloc.live| == 1 + |tr.s.table| + LostIndices(tr)
  {
    RunMirrors(tr);
    RunLosses(tr);
    LiveCount(tr.s);
  }

  lemma LiveCount(s: State)
    requires Accounted(s.alloc.live, s.table, s.leaked) && 0 !in s.table
    ensures |s.alloc.live| == 1 + |s.table| + |s.leaked|
  {
    assert s.alloc.live == {0} + s.table.Keys + s.leaked;
    assert |{0} + s.table.Keys| == 1 + |s.table.Keys| && |s.table.Keys| == |s.table|;
    assert ({0} + s.table.Keys) !! s.leaked;
  }

  /** `a` is a run that `b` continues. */
  ghost predicate Continues(b: Trace, a: Trace) {
    b == a || (b.Then? && Continues(b.before, a))
  }

  /** An index that was lost is never a device's again: no device has it, and asking for it is refused. */
  lemma {:induction false} LostForGood(a: Trace, b: Trace, i: nat, info: DeviceInfo)
    requires Legal(b) && Continues(b, a) && i in a.s.leaked && info.index == i
    ensures i in b.s.leaked && i !in b.s.table && Refuses(b.s, info)
  {
    if b == a {
    } else {
      LostForGood(a, b.before, i, info);
      StepKeeps(b.before.s, b.op, b.s, b.ok);
    }
  }

  // ---------------------------------------------------------------- restart

  /** A saved device is created again as it was, whatever the sort does, exactly when its endpoint keys identify. */
  lemma RecreatedExactly(x: DeviceInfo)
    requires DeviceOk(x)
    ensures (forall y: DeviceInfo :: Ordered(y, x) ==> y == x) <==> EndpointKeysIdentify(x)
  {
    SortKeepsExactly(x.localEndpoints);
    SortKeepsExactly(x.remoteEndpoints);
    if forall y: DeviceInfo :: Ordered(y, x) ==> y == x {
      forall r: seq<Endpoint> | IsSortOf(r, x.localEndpoints)
        ensures r == x.localEndpoints
      {
        assert Ordered(x.(localEndpoints := r), x);
      }
      forall r: seq<Endpoint> | IsSortOf(r, x.remoteEndpoints)
        ensures r == x.remoteEndpoints
      {
        assert Ordered(x.(remoteEndpoints := r), x);
      }
    }
  }

  /** Adding the given infos one after the other, each from where the last one ended. */
  ghost predicate Loads(before: Trace, infos: seq<DeviceInfo>, accepts: DeviceInfo -> bool, after: Trace)
    decreases infos
  {
    if infos == [] then after == before
    else
      && after.Then? && after.op.Add? && after.op.info == infos[|infos| - 1] && after.op.accepts == accepts
      && Loads(before, infos[..|infos| - 1], accepts, after.before)
  }

  /** The devices the network accepts. */
  ghost function Accepts(t: Table, accepts: DeviceInfo -> bool): Table {
    map i | i in t && accepts(t[i]) :: t[i]
  }

  /** The devices it does not. */
  ghost function Rejects(t: Table, accepts: DeviceInfo -> bool): set<nat> {
    set i | i in t && !accepts(t[i])
  }

  /**
   After loading the listing of `t` where `stored` was stored: the accepted devices are back under
   their indices, each as it was but for the order of its endpoints, and the others have lost theirs.
   */
  ghost predicate LoadedFrom(s: State, t: Table, accepts: DeviceInfo -> bool, stored: Option<seq<RvDeviceInfo>>) {
    && s.table.Keys == Accepts(t, accepts).Keys
    && (forall i | i in s.table :: Ordered(s.table[i], t[i]))
    && s.leaked == Rejects(t, accepts)
    && s.stored == (if s.table == map[] then stored else Saved(s.table))
  }

  /** One saved device is added again: it comes back, with its endpoints in some order, or its index is lost. */
  lemma ReaddStep(s: State, x: DeviceInfo, freshUid: string, accepts: DeviceInfo -> bool, s': State, ok: bool)
    requires Sound(s) && DeviceOk(x)
    requires x.index !in s.alloc.live && x.uid !in s.uids && x.index !in s.table
    requires Step(s, Add(Underived(x), freshUid, accepts), s', ok)
    ensures ok == accepts(x)
    ensures ok ==> x.index in s'.table && Ordered(s'.table[x.index], x)
    ensures ok ==> s' == With(s, AllocFor(s.alloc, x), s'.table[x.index])
    ensures !ok ==> s' == Lost(s, x)
  {
    DeviceRoundTrip(x, freshUid);
  }

  lemma ListedComplete(xs: seq<DeviceInfo>, t: Table)
    requires Lists(xs, t) && AllOk(t)
    ensures forall k :: 0 <= k < |xs| ==> Complete(xs[k])
  {
    forall k | 0 <= k < |xs|
      ensures Complete(xs[k])
    {
      assert DeviceOk(t[xs[k].index]);
    }
  }

  /** A sound table can be saved, and what is loaded again are the infos of its listing without their derived fields. */
  lemma SavedIsLoaded(t: Table)
    requires Keyed(t) && AllOk(t)
    ensures Saved(t).Some? && Saved(t) == Some(DevicesToRpc(Listing(t)).value)
    ensures Loaded(Saved(t)) == Underiveds(Listing(t))
  {
    ListingLists(t);
    ListedComplete(Listing(t), t);
    DevicesRoundTrip(Listing(t));
  }

  /**
   From the first success on, storage converts back to the infos of all devices, in strictly
   ascending index order, up to the fields that are derived again on creation.
   */
  lemma StoredIsListing(tr: Trace) returns (xs: seq<DeviceInfo>)
    requires Legal(tr) && AnySuccess(tr)
    ensures Lists(xs, tr.s.table)
    ensures Loaded(tr.s.stored) == Underiveds(xs)
  {
    RunMirrors(tr);
    SavedIsLoaded(tr.s.table);
    ListingLists(tr.s.table);
    xs := Listing(tr.s.table);
  }

  lemma AcceptsNext(t: Table, i: nat, accepts: DeviceInfo -> bool)
    requires i in t
    ensures var rest := Accepts(t - {i}, accepts);
            Accepts(t, accepts) == if accepts(t[i]) then rest[i := t[i]] else rest
    ensures Rejects(t, accepts) == Rejects(t - {i}, accepts) + (if accepts(t[i]) then {} else {i})
  {
  }

  /** While the rest of the table is loaded, device `x` is new. */
  lemma StillNew(
      s: State, t: Table, uids: Uids, x: DeviceInfo, accepts: DeviceInfo -> bool, stored: Option<seq<RvDeviceInfo>>)
    requires Sound(s) && Indexed(t, uids) && x.index in t && t[x.index] == x
    requires LoadedFrom(s, t - {x.index}, accepts, stored)
    ensures x.index !in s.alloc.live && x.uid !in s.uids && x.index !in s.table
  {
    forall u | u in s.uids
      ensures u != x.uid
    {
      var j := s.uids[u];
      assert j in s.table && Ordered(s.table[j], (t - {x.index})[j]);
      assert j in t && j != x.index && t[j].uid == u && uids[t[j].uid] == j;
    }
  }

  ghost predicate AllKeysIdentify(t: Table) {
    forall i {:trigger EndpointKeysIdentify(t[i])} | i in t :: EndpointKeysIdentify(t[i])
  }

  lemma LoadedNext(
      s: State, alloc: IndexSpec.Alloc, s': State, t: Table, x: DeviceInfo, y: DeviceInfo, accepts: DeviceInfo -> bool,
      stored: Option<seq<RvDeviceInfo>>)
    requires x.index in t && t[x.index] == x && LoadedFrom(s, t - {x.index}, accepts, stored)
    requires Ordered(y, x) && y.index == x.index
    requires s' == if accepts(x) then With(s, alloc, y) else s.(alloc := alloc, leaked := s.leaked + {x.index})
    ensures LoadedFrom(s', t, accepts, stored)
  {
    hide Ordered;
    AcceptsNext(t, x.index, accepts);
    forall i | i in s'.table
      ensures Ordered(s'.table[i], t[i])
    {
      if i != x.index {
        assert Ordered(s.table[i], (t - {x.index})[i]);
      }
    }
    if accepts(x) {
      assert x.index in s'.table;
    }
  }

  /** Loading the listing of a sound table gives the devices the network accepts; the others lose their index. */
  lemma {:induction false} LoadingRebuilds(
      before: Trace, xs: seq<DeviceInfo>, t: Table, uids: Uids, accepts: DeviceInfo -> bool, after: Trace)
    requires before.Start? && before.s == Fresh(before.s.stored)
    requires Legal(after) && Loads(before, Underiveds(xs), accepts, after)
    requires Lists(xs, t) && Indexed(t, uids) && AllOk(t)
    ensures LoadedFrom(after.s, t, accepts, before.s.stored)
    decreases xs
  {
    if xs == [] {
      ListingEmpty(xs, t);
    } else {
      var n := |xs| - 1;
      var x := xs[n];
      assert Underiveds(xs)[..n] == Underiveds(xs[..n]);
      ListingPrefix(xs, t);
      AllOkRemove(t, x.index);
      IndexedRemove(t, uids, x.index);
      LoadingRebuilds(before, xs[..n], t - {x.index}, uids - {x.uid}, accepts, after.before);
      LoadingStep(after.before.s, t, uids, x, after.op, accepts, after.s, after.ok, before.s.stored);
    }
  }

  lemma LoadingStep(
      s: State, t: Table, uids: Uids, x: DeviceInfo, op: Op, accepts: DeviceInfo -> bool, s': State, ok: bool,
      stored: Option<seq<RvDeviceInfo>>)
    requires Sound(s) && Step(s, op, s', ok) && op.Add? && op.info == Underived(x) && op.accepts == accepts
    requires x.index in t && t[x.index] == x && Indexed(t, uids) && AllOk(t)
    requires LoadedFrom(s, t - {x.index}, accepts, stored)
    ensures LoadedFrom(s', t, accepts, stored)
  {
    assert DeviceOk(t[x.index]);
    StillNew(s, t, uids, x, accepts, stored);
    ReaddStep(s, x, op.freshUid, accepts, s', ok);
    SelfOrdered(x);
    LoadedNext(s, AllocFor(s.alloc, x), s', t, x, if ok then s'.table[x.index] else x, accepts, stored);
  }

  lemma SelfOrdered(x: DeviceInfo)
    requires DeviceOk(x)
    ensures Ordered(x, x)
  {
  }

  lemma UidsUnique(t: Table, a: Uids, b: Uids)
    requires Indexed(t, a) && Indexed(t, b)
    ensures a == b
  {
  }

  /**
   Restart: a manager whose storage was left by a run with at least one success comes up with
   exactly the devices of that run the network still accepts, each as it was but for the order of
   its endpoints; storage is left alone if there is none.
   */
  lemma RestartKeepsAccepted(run: Trace, accepts: DeviceInfo -> bool, after: Trace)
    requires Legal(run) && AnySuccess(run)
    requires Legal(after) && Loads(Start(Fresh(run.s.stored)), Loaded(run.s.stored), accepts, after)
    ensures LoadedFrom(after.s, run.s.table, accepts, run.s.stored)
  {
    RunMirrors(run);
    var t := run.s.table;
    SavedIsLoaded(t);
    ListingLists(t);
    LoadingRebuilds(Start(Fresh(run.s.stored)), Listing(t), t, run.s.uids, accepts, after);
  }

  lemma LoadedIdentified(s: State, t: Table, accepts: DeviceInfo -> bool, stored: Option<seq<RvDeviceInfo>>)
    requires LoadedFrom(s, t, accepts, stored) && AllOk(t) && AllKeysIdentify(t)
    ensures s.table == Accepts(t, accepts)
  {
    forall i | i in s.table
      ensures s.table[i] == Accepts(t, accepts)[i]
    {
      assert DeviceOk(t[i]) && EndpointKeysIdentify(t[i]);
      OrderedIsSame(s.table[i], t[i]);
    }
  }

  lemma AllAccepted(t: Table, accepts: DeviceInfo -> bool)
    requires forall i | i in t :: accepts(t[i])
    ensures Accepts(t, accepts) == t && Rejects(t, accepts) == {}
  {
  }

  lemma SameTableSameState(a: State, b: State)
    requires Sound(a) && Sound(b) && a.table == b.table && a.leaked == {} && a.stored == b.stored
    ensures a == State(b.table, b.uids, a.alloc, {}, b.stored)
    ensures a.alloc.live == b.alloc.live - b.leaked
  {
    UidsUnique(a.table, a.uids, b.uids);
  }

  /** If the network accepts them all, nothing is different after the restart but that lost indices are free again. */
  lemma RestartIsIdentity(run: Trace, accepts: DeviceInfo -> bool, after: Trace)
    requires Legal(run) && AnySuccess(run) && AllKeysIdentify(run.s.table)
    requires Legal(after) && Loads(Start(Fresh(run.s.stored)), Loaded(run.s.stored), accepts, after)
    requires forall i | i in run.s.table :: accepts(run.s.table[i])
    ensures after.s == State(run.s.table, run.s.uids, after.s.alloc, {}, run.s.stored)
    ensures after.s.alloc.live == run.s.alloc.live - run.s.leaked
  {
    RestartKeepsAccepted(run, accepts, after);
    LoadedIdentified(after.s, run.s.table, accepts, run.s.stored);
    AllAccepted(run.s.table, accepts);
    RunMirrors(run);
    SameTableSameState(after.s, run.s);
  }

  // ---------------------------------------------------------------- every restart there can be

  lemma {:induction false} LongestUid(uids: set<string>) returns (n: nat)
    ensures forall u | u in uids :: |u| <= n
  {
    if uids == {} {
      n := 0;
    } else {
      var u :| u in uids;
      var m := LongestUid(uids - {u});
      n := if |u| < m then m else |u|;
      forall v | v in uids
        ensures |v| <= n
      {
        assert v == u || v in uids - {u};
      }
    }
  }

  lemma UnusedUid(uids: set<string>) returns (u: string)
    ensures u != "" && u !in uids
  {
    var n := LongestUid(uids);
    u := seq(n + 1, _ => 'u');
  }

  lemma UnderivedsPrefix(xs: seq<DeviceInfo>)
    requires xs != []
    ensures Underiveds(xs)[..|xs| - 1] == Underiveds(xs[..|xs| - 1])
    ensures Underiveds(xs)[|xs| - 1] == Underived(xs[|xs| - 1])
  {
  }

  /** Adding `x` again can give any order of its endpoints, or, if the network refuses it, loses its index. */
  lemma ReaddTo(tr: Trace, x: DeviceInfo, y: DeviceInfo, accepts: DeviceInfo -> bool) returns (next: Trace)
    requires Legal(tr) && DeviceOk(x) && Ordered(y, x)
    requires x.index !in tr.s.alloc.live && x.uid !in tr.s.uids && x.index !in tr.s.table
    ensures Legal(next) && next.Then? && next.before == tr
    ensures next.op.Add? && next.op.info == Underived(x) && next.op.accepts == accepts
    ensures next.s.table == if accepts(x) then tr.s.table[x.index := y] else tr.s.table
  {
    var freshUid := UnusedUid(tr.s.uids.Keys);
    DeviceRoundTrip(x, freshUid);
    var op := Add(Underived(x), freshUid, accepts);
    var s' := if accepts(x) then With(tr.s, AllocFor(tr.s.alloc, x), y) else Lost(tr.s, x);
    next := Then(tr, op, s', accepts(x));
    StepKeeps(tr.s, op, s', accepts(x));
  }

  /** The listing of a sound table can be loaded, with the endpoints of the accepted devices in any order. */
  lemma {:induction false} LoadableAs(
      before: Trace, xs: seq<DeviceInfo>, t: Table, uids: Uids, c: Table, accepts: DeviceInfo -> bool)
      returns (after: Trace)
    requires before.Start? && before.s == Fresh(before.s.stored)
    requires Lists(xs, t) && Indexed(t, uids) && AllOk(t)
    requires forall i | i in t :: i in c && Ordered(c[i], t[i])
    ensures Legal(after) && Loads(before, Underiveds(xs), accepts, after)
    ensures forall i | i in t && accepts(t[i]) :: i in after.s.table && after.s.table[i] == c[i]
    decreases xs
  {
    hide Sound, Saved, Loaded, Ordered, DeviceOk, LoadedFrom, Legal, Loads, AllOk;
    if xs == [] {
      after := before;
      ListingEmpty(xs, t);
      LoadsNothing(before, accepts);
    } else {
      var n := |xs| - 1;
      var x := xs[n];
      ListingPrefix(xs, t);
      AllOkRemove(t, x.index);
      IndexedRemove(t, uids, x.index);
      assert x.index in t && t[x.index] == x;
      var t0 := t - {x.index};
      var mid := LoadableAs(before, xs[..n], t0, uids - {x.uid}, c, accepts);
      LoadingRebuilds(before, xs[..n], t0, uids - {x.uid}, accepts, mid);
      after := LoadableStep(mid, t, uids, x, c[x.index], accepts, before.s.stored);
      LoadsOne(before, xs, accepts, mid, after);
    }
  }

  lemma LoadsNothing(before: Trace, accepts: DeviceInfo -> bool)
    requires before.Start? && before.s == Fresh(before.s.stored)
    ensures Legal(before) && Loads(before, Underiveds([]), accepts, before)
  {
  }

  lemma LoadableStep(
      mid: Trace, t: Table, uids: Uids, x: DeviceInfo, y: DeviceInfo, accepts: DeviceInfo -> bool,
      stored: Option<seq<RvDeviceInfo>>)
      returns (after: Trace)
    requires Legal(mid) && Indexed(t, uids) && AllOk(t) && x.index in t && t[x.index] == x && Ordered(y, x)
    requires LoadedFrom(mid.s, t - {x.index}, accepts, stored)
    ensures Legal(after) && after.Then? && after.before == mid
    ensures after.op.Add? && after.op.info == Underived(x) && after.op.accepts == accepts
    ensures after.s.table == if accepts(x) then mid.s.table[x.index := y] else mid.s.table
  {
    hide LoadedFrom;
    StillNew(mid.s, t, uids, x, accepts, stored);
    assert DeviceOk(t[x.index]);
    after := ReaddTo(mid, x, y, accepts);
  }

  lemma LoadsOne(before: Trace, xs: seq<DeviceInfo>, accepts: DeviceInfo -> bool, mid: Trace, after: Trace)
    requires xs != [] && Loads(before, Underiveds(xs[..|xs| - 1]), accepts, mid)
    requires after.Then? && after.before == mid && after.op.Add? && after.op.accepts == accepts
    requires after.op.info == Underived(xs[|xs| - 1])
    ensures Loads(before, Underiveds(xs), accepts, after)
  {
    UnderivedsPrefix(xs);
  }

  lemma OneMoved(t: Table, i: nat) returns (c: Table)
    requires AllOk(t) && i in t && !EndpointKeysIdentify(t[i])
    ensures i in c && c[i] != t[i]
    ensures forall j | j in t :: j in c && Ordered(c[j], t[j])
  {
    assert DeviceOk(t[i]);
    RecreatedExactly(t[i]);
    var y :| Ordered(y, t[i]) && y != t[i];
    c := t[i := y];
    forall j | j in t
      ensures Ordered(c[j], t[j])
    {
      assert DeviceOk(t[j]);
      SelfOrdered(t[j]);
    }
  }

  lemma SomethingMoves(run: Trace, accepts: DeviceInfo -> bool, i: nat) returns (after: Trace)
    requires Legal(run) && AnySuccess(run) && forall j | j in run.s.table :: accepts(run.s.table[j])
    requires i in run.s.table && !EndpointKeysIdentify(run.s.table[i])
    ensures Legal(after) && Loads(Start(Fresh(run.s.stored)), Loaded(run.s.stored), accepts, after)
    ensures after.s.table != run.s.table
  {
    hide Loaded, Ordered, DeviceOk, Underiveds, Saved, EndpointKeysIdentify, Loads, Step;
    RunMirrors(run);
    var t := run.s.table;
    SavedIsLoaded(t);
    ListingLists(t);
    var c := OneMoved(t, i);
    after := LoadableAs(Start(Fresh(run.s.stored)), Listing(t), t, run.s.uids, c, accepts);
    assert after.s.table[i] == c[i];
  }

  /**
   With all devices accepted, every restart there can be brings back the very same table exactly
   when in every device the endpoint keys identify the endpoints.
   */
  lemma RestartExactly(run: Trace, accepts: DeviceInfo -> bool)
    requires Legal(run) && AnySuccess(run) && forall i | i in run.s.table :: accepts(run.s.table[i])
    ensures (forall after: Trace ::
               Legal(after) && Loads(Start(Fresh(run.s.stored)), Loaded(run.s.stored), accepts, after)
               ==> after.s.table == run.s.table)
            <==> AllKeysIdentify(run.s.table)
  {
    if AllKeysIdentify(run.s.table) {
      forall after: Trace |
        Legal(after) && Loads(Start(Fresh(run.s.stored)), Loaded(run.s.stored), accepts, after)
        ensures after.s.table == run.s.table
      {
        RestartIsIdentity(run, accepts, after);
      }
    } else {
      var i :| i in run.s.table && !EndpointKeysIdentify(run.s.table[i]);
      var after := SomethingMoves(run, accepts, i);
    }
  }

  // ---------------------------------------------------------------- what a restart leaves in storage

  /** Whatever was saved and whatever the network accepts now, a restart is possible. */
  lemma RestartExists(run: Trace, accepts: DeviceInfo -> bool) returns (after: Trace)
    requires Legal(run) && AnySuccess(run)
    ensures Legal(after) && Loads(Start(Fresh(run.s.stored)), Loaded(run.s.stored), accepts, after)
  {
    hide Loaded, Ordered, DeviceOk, Underiveds, Saved, Loads, Step;
    RunMirrors(run);
    var t := run.s.table;
    SavedIsLoaded(t);
    ListingLists(t);
    forall i | i in t
      ensures Ordered(t[i], t[i])
    {
      assert DeviceOk(t[i]);
      SelfOrdered(t[i]);
    }
    after := LoadableAs(Start(Fresh(run.s.stored)), Listing(t), t, run.s.uids, t, accepts);
  }

  /** The indices of the devices in storage. */
  ghost function StoredIndices(stored: Option<seq<RvDeviceInfo>>): set<nat> {
    set k | 0 <= k < |Loaded(stored)| :: Loaded(stored)[k].index
  }

  lemma SavedIndices(t: Table)
    requires Keyed(t) && AllOk(t)
    ensures StoredIndices(Saved(t)) == t.Keys
  {
    hide Loaded, Saved;
    SavedIsLoaded(t);
    ListingLists(t);
    var xs := Listing(t);
    forall i | i in t
      ensures i in StoredIndices(Saved(t))
    {
      var k :| 0 <= k < |xs| && xs[k] == t[i];
      assert Loaded(Saved(t))[k].index == i;
    }
  }

  lemma SoundKeyed(s: State)
    requires Sound(s)
    ensures Keyed(s.table) && AllOk(s.table)
  {
  }

  /** After a restart storage lists the accepted devices; or, if none was accepted, still all of them. */
  lemma RestartStores(run: Trace, accepts: DeviceInfo -> bool, after: Trace)
    requires Legal(run) && AnySuccess(run)
    requires Legal(after) && Loads(Start(Fresh(run.s.stored)), Loaded(run.s.stored), accepts, after)
    ensures StoredIndices(after.s.stored)
         == if Accepts(run.s.table, accepts) == map[] then run.s.table.Keys else Accepts(run.s.table, accepts).Keys
  {
    hide Loaded, Loads, Legal, Saved, StoredIndices, AnySuccess, Sound;
    RestartKeepsAccepted(run, accepts, after);
    RunAgrees(run);
    RunAgrees(after);
    SoundKeyed(run.s);
    SoundKeyed(after.s);
    SavedIndices(run.s.table);
    SavedIndices(after.s.table);
    assert Accepts(run.s.table, accepts).Keys == {} <==> Accepts(run.s.table, accepts) == map[];
    assert after.s.table.Keys == {} <==> after.s.table == map[];
  }

  /**
   Storage still lists every device after a restart exactly if the network accepted them all or
   none: one accepted device is enough to have the refused ones forgotten for good.
   */
  lemma RestartForgetsExactly(run: Trace, accepts: DeviceInfo -> bool, after: Trace)
    requires Legal(run) && AnySuccess(run)
    requires Legal(after) && Loads(Start(Fresh(run.s.stored)), Loaded(run.s.stored), accepts, after)
    ensures StoredIndices(after.s.stored) == run.s.table.Keys
            <==> (forall i | i in run.s.table :: accepts(run.s.table[i]))
                 || (forall i | i in run.s.table :: !accepts(run.s.table[i]))
  {
    hide Loaded, Loads, Legal, Saved, StoredIndices, AnySuccess, Sound;
    RestartStores(run, accepts, after);
    SomeAccepted(run.s.table, accepts);
  }

  lemma SomeAccepted(t: Table, accepts: DeviceInfo -> bool)
    ensures Accepts(t, accepts) == map[] <==> forall i | i in t :: !accepts(t[i])
    ensures Accepts(t, accepts).Keys == t.Keys <==> forall i | i in t :: accepts(t[i])
  {
    if Accepts(t, accepts).Keys == t.Keys {
      forall i | i in t
        ensures accepts(t[i])
      {
        assert i in Accepts(t, accepts).Keys;
      }
    }
    forall i | i in t && accepts(t[i])
      ensures Accepts(t, accepts) != map[]
    {
      assert i in Accepts(t, accepts);
    }
  }

  /** For one, whenever one device is refused and another accepted there is a restart that forgets the first. */
  lemma RefusedIsForgotten(run: Trace, accepts: DeviceInfo -> bool, i: nat, j: nat) returns (after: Trace)
    requires Legal(run) && AnySuccess(run) && i in run.s.table && j in run.s.table
    requires !accepts(run.s.table[i]) && accepts(run.s.table[j])
    ensures Legal(after) && Loads(Start(Fresh(run.s.stored)), Loaded(run.s.stored), accepts, after)
    ensures i !in StoredIndices(after.s.stored) && j in StoredIndices(after.s.stored)
  {
    hide Loaded, Loads, Legal, Saved, StoredIndices, AnySuccess, Sound;
    after := RestartExists(run, accepts);
    RestartStores(run, accepts, after);
    assert j in Accepts(run.s.table, accepts);
  }
}
