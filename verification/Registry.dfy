/** gusb-context.c: the list of devices, the signals it explains and the four ways it changes. */
module Registry {
  import opened Basics
  import opened Json
  import D = Device

  /** A device object: serial tells objects apart; emulated ones report bus and address 0. */
  datatype Entry = Entry(serial: nat, bus: Byte, address: Byte, tree: D.Tree)

  /** A libusb_device; usable says whether a GUsbDevice can be made of it and opened. */
  datatype Hardware = Hardware(bus: Byte, address: Byte, tree: D.Tree, usable: bool)

  datatype Signal =
    | Added(serial: nat, platformId: Option<string>)
    | Removed(serial: nat, platformId: Option<string>)
    | Changed(serial: nat, platformId: Option<string>)

  /** GUsbContextReplugHelper: the device to return, and whether its main loop was told to quit. */
  datatype Waiter = Waiter(device: Entry, quit: bool)

  datatype Registry = Registry(
    devices: seq<Entry>, removed: seq<Entry>, done: bool,
    waiting: map<Option<string>, Waiter>, log: seq<Signal>, next: nat, saving: bool)

  function Init(saving: bool): Registry {
    Registry([], [], false, map[], [], 0, saving)
  }

  // ---- looking up ----

  function FindByAddress(s: seq<Entry>, bus: Byte, address: Byte): (at: Option<nat>)
    ensures at.Some? ==> at.value < |s| && s[at.value].bus == bus && s[at.value].address == address &&
                         forall i :: 0 <= i < at.value ==> !(s[i].bus == bus && s[i].address == address)
    ensures at.None? ==> forall i :: 0 <= i < |s| ==> !(s[i].bus == bus && s[i].address == address)
  {
    if s == [] then None
    else if s[0].bus == bus && s[0].address == address then Some(0)
    else match FindByAddress(s[1..], bus, address) case Some(i) => Some(i + 1) case None => None
  }

  function FindByPlatformId(s: seq<Entry>, id: Option<string>): (at: Option<nat>)
    ensures at.Some? ==> at.value < |s| && s[at.value].tree.platformId == id &&
                         forall i :: 0 <= i < at.value ==> s[i].tree.platformId != id
    ensures at.None? ==> forall i :: 0 <= i < |s| ==> s[i].tree.platformId != id
  {
    if s == [] then None
    else if s[0].tree.platformId == id then Some(0)
    else match FindByPlatformId(s[1..], id) case Some(i) => Some(i + 1) case None => None
  }

  // ---- the list and the signals ----

  function Serials(s: seq<Entry>): (r: seq<nat>)
    ensures |r| == |s| && forall i :: 0 <= i < |s| ==> r[i] == s[i].serial
  {
    seq(|s|, i requires 0 <= i < |s| => s[i].serial)
  }

  /** g_ptr_array_remove: the first occurrence goes, the others keep their order. */
  function Without(s: seq<nat>, x: nat): seq<nat> {
    if s == [] then [] else if s[0] == x then s[1..] else [s[0]] + Without(s[1..], x)
  }

  function WithoutEntry(s: seq<Entry>, serial: nat): seq<Entry> {
    if s == [] then [] else if s[0].serial == serial then s[1..] else [s[0]] + WithoutEntry(s[1..], serial)
  }

  /** Signals are only emitted once the context is enumerated. */
  function Emit(r: Registry, signal: Signal): Registry {
    if r.done then r.(log := r.log + [signal]) else r
  }

  function Append(r: Registry, e: Entry): Registry {
    r.(devices := r.devices + [e], next := r.next + 1)
  }

  // ---- hotplug ----

  function AddDevice(r: Registry, hw: Hardware): Registry {
    if (r.done && FindByAddress(r.devices, hw.bus, hw.address).Some?) || !hw.usable then r
    else
      var e := Entry(r.next, hw.bus, hw.address, hw.tree);
      var id := hw.tree.platformId;
      if id in r.waiting then Append(r, e).(waiting := r.waiting[id := Waiter(e, true)])
      else Emit(Append(r, e), Added(e.serial, id))
  }

  function RemoveDevice(r: Registry, hw: Hardware): Registry {
    match FindByAddress(r.devices, hw.bus, hw.address)
    case None => r
    case Some(i) =>
      var e := r.devices[i];
      var r' := r.(devices := WithoutEntry(r.devices, e.serial),
                   removed := if r.saving then r.removed + [e] else r.removed);
      if e.tree.platformId in r.waiting then r' else Emit(r', Removed(e.serial, e.tree.platformId))
  }

  // ---- polling ----

  predicate OnBus(list: seq<Hardware>, e: Entry) {
    exists i :: 0 <= i < |list| && list[i].bus == e.bus && list[i].address == e.address
  }

  /** The removals, with no regard to a wait for replug and without keeping the device aside. */
  function DropMissing(r: Registry, existing: seq<Entry>, list: seq<Hardware>): Registry
    decreases existing
  {
    if existing == [] then r
    else
      var e := existing[0];
      var r' := if OnBus(list, e) then r
                else Emit(r, Removed(e.serial, e.tree.platformId)).(devices := WithoutEntry(r.devices, e.serial));
      DropMissing(r', existing[1..], list)
  }

  function AddAll(r: Registry, list: seq<Hardware>): Registry
    decreases list
  {
    if list == [] then r else AddAll(AddDevice(r, list[0]), list[1..])
  }

  function Reversed(s: seq<Entry>): seq<Entry> {
    if s == [] then [] else Reversed(s[1..]) + [s[0]]
  }

  /** g_list_prepend reverses the list it copies. */
  function Rescan(r: Registry, list: seq<Hardware>): Registry {
    AddAll(DropMissing(r, Reversed(r.devices), list), list)
  }

  function Announced(s: seq<Entry>): (r: seq<Signal>)
    ensures |r| == |s|
  {
    seq(|s|, i requires 0 <= i < |s| => Added(s[i].serial, s[i].tree.platformId))
  }

  function Enumerate(r: Registry, list: seq<Hardware>): Registry {
    if r.done then r
    else
      var r' := Rescan(r, list);
      r'.(done := true, log := r'.log + Announced(r'.devices))
  }

  // ---- loading from JSON ----

  predicate Selected(tree: D.Tree, tag: Option<string>) {
    tag.None? || tag.value in tree.tags
  }

  /** The selected devices, by serial, in order. */
  function SelectedSerials(s: seq<Entry>, tag: Option<string>): seq<nat> {
    if s == [] then []
    else (if Selected(s[0].tree, tag) then [s[0].serial] else []) + SelectedSerials(s[1..], tag)
  }

  /** What the loop over the JSON array carries: the list, the devices not matched yet, the new ones. */
  datatype Loading = Loading(devices: seq<Entry>, stale: seq<nat>, log: seq<Signal>, added: seq<D.Tree>)

  predicate MatchesOld(devices: seq<Entry>, tree: D.Tree) {
    var at := FindByPlatformId(devices, tree.platformId);
    at.Some? && devices[at.value].tree.created == tree.created
  }

  /** A known device takes over the events; any other is new. */
  function LoadOne(l: Loading, tree: D.Tree, tag: Option<string>): Loading {
    if !Selected(tree, tag) then l
    else if MatchesOld(l.devices, tree) then
      var i := FindByPlatformId(l.devices, tree.platformId).value;
      var e := l.devices[i];
      l.(devices := l.devices[i := e.(tree := e.tree.(events := tree.events))],
         log := l.log + [Changed(e.serial, e.tree.platformId)],
         stale := Without(l.stale, e.serial))
    else l.(added := l.added + [tree])
  }

  /** Stops at the first element that does not load. */
  function LoadAll(l: Loading, items: seq<Json>, tag: Option<string>, now: int): (bool, Loading)
    decreases items
  {
    if items == [] then (true, l)
    else match D.LoadDevice(items[0], now)
      case None => (false, l)
      case Some(tree) => LoadAll(LoadOne(l, tree, tag), items[1..], tag, now)
  }

  function RemoveStale(r: Registry, stale: seq<nat>): Registry
    decreases stale
  {
    if stale == [] then r
    else
      var id := IdOf(r.devices, stale[0]);
      RemoveStale(Emit(r, Removed(stale[0], id)).(devices := WithoutEntry(r.devices, stale[0])), stale[1..])
  }

  function IdOf(s: seq<Entry>, serial: nat): Option<string> {
    if s == [] then None else if s[0].serial == serial then s[0].tree.platformId else IdOf(s[1..], serial)
  }

  function AddNew(r: Registry, added: seq<D.Tree>): Registry
    decreases added
  {
    if added == [] then r
    else AddNew(Emit(Append(r, Entry(r.next, 0, 0, added[0])), Added(r.next, added[0].platformId)), added[1..])
  }

  /** done_enumerate is set even if the document turns out to be unusable. */
  function LoadContext(r: Registry, doc: Members, tag: Option<string>, now: int): (bool, Registry) {
    var r' := r.(done := true);
    if UsbDevices !in doc then (false, r')
    else
      var start := Loading(r.devices, SelectedSerials(r.devices, tag), r.log, []);
      var (ok, l) := LoadAll(start, GetItems(doc, UsbDevices), tag, now);
      var r'' := r'.(devices := l.devices, log := l.log);
      if ok then (true, AddNew(RemoveStale(r'', l.stale), l.added)) else (false, r'')
  }
}
