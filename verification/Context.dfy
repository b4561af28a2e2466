/** gusb-context.c: the context object, every method tied to the registry it works on. */
module Context {
  import opened Basics
  import opened Json
  import opened Registry
  import R = Registry
  import D = Device
  import Polling
  import Replug
  import Synchronise
  import LoadAgain
  import U = UsbDevice
  import V = DeviceEvent

  class UsbContext {
    /** G_USB_CONTEXT_FLAGS_SAVE_EVENTS */
    const saveEvents: bool
    /** G_USB_CONTEXT_FLAGS_SAVE_REMOVED_DEVICES */
    const saveRemovedDevices: bool

    var devices: seq<Entry>
    var devicesRemoved: seq<Entry>
    var doneEnumerate: bool
    var dictReplug: map<Option<string>, Waiter>
    /** Hotplug events not drained yet, and whether an idle source was added to drain them. */
    var idleEvents: seq<Polling.Event>
    var idleEventsId: bool
    /** How many device objects were ever listed. */
    var made: nat
    /** The signals emitted so far. */
    ghost var signals: seq<Signal>

    ghost function State(): Registry
      reads this
    {
      Registry(devices, devicesRemoved, doneEnumerate, dictReplug, signals, made, saveEvents)
    }

    constructor (saveEvents: bool, saveRemovedDevices: bool)
      ensures State() == Init(saveEvents)
      ensures this.saveEvents == saveEvents && this.saveRemovedDevices == saveRemovedDevices
    {
      this.saveEvents, this.saveRemovedDevices := saveEvents, saveRemovedDevices;
      devices, devicesRemoved, doneEnumerate, dictReplug, made, signals := [], [], false, map[], 0, [];
      idleEvents, idleEventsId := [], false;
    }

    // ---- looking up ----

    /** The loop of g_usb_context_find_by_bus_address. */
    method IndexByBusAddress(bus: Byte, address: Byte) returns (at: Option<nat>)
      ensures at == FindByAddress(devices, bus, address)
    {
      for i := 0 to |devices|
        invariant forall k :: 0 <= k < i ==> !(devices[k].bus == bus && devices[k].address == address)
      {
        if devices[i].bus == bus && devices[i].address == address {
          return Some(i);
        }
      }
      return None;
    }

    /** The loop of g_usb_context_find_by_platform_id. */
    method IndexByPlatformId(platformId: Option<string>) returns (at: Option<nat>)
      ensures at == FindByPlatformId(devices, platformId)
    {
      for i := 0 to |devices|
        invariant forall k :: 0 <= k < i ==> devices[k].tree.platformId != platformId
      {
        if devices[i].tree.platformId == platformId {
          return Some(i);
        }
      }
      return None;
    }

    /** Enumerates first; list is what is on the bus. The first device with the ids is returned. */
    method FindByVidPid(vid: Word, pid: Word, list: seq<Hardware>) returns (device: Option<Entry>)
      modifies this`devices, this`made, this`dictReplug, this`signals, this`doneEnumerate
      ensures State() == R.Enumerate(old(State()), list)
      ensures device.Some? ==>
                exists i :: 0 <= i < |devices| && devices[i] == device.value &&
                  devices[i].tree.desc.idVendor == vid && devices[i].tree.desc.idProduct == pid &&
                  forall k :: 0 <= k < i ==>
                    !(devices[k].tree.desc.idVendor == vid && devices[k].tree.desc.idProduct == pid)
      ensures device.None? ==>
                forall k :: 0 <= k < |devices| ==>
                  !(devices[k].tree.desc.idVendor == vid && devices[k].tree.desc.idProduct == pid)
    {
      Enumerate(list);
      for i := 0 to |devices|
        invariant forall k :: 0 <= k < i ==>
                    !(devices[k].tree.desc.idVendor == vid && devices[k].tree.desc.idProduct == pid)
      {
        var desc := devices[i].tree.desc;
        if desc.idVendor == vid && desc.idProduct == pid {
          return Some(devices[i]);
        }
      }
      return None;
    }

    // ---- signals ----

    method EmitSignal(signal: Signal)
      modifies this`signals
      ensures State() == Emit(old(State()), signal)
    {
      if !doneEnumerate {
        return;
      }
      signals := signals + [signal];
    }

    // ---- hotplug ----

    method AddDevice(hw: Hardware)
      modifies this`devices, this`made, this`dictReplug, this`signals
      ensures State() == R.AddDevice(old(State()), hw)
    {
      if doneEnumerate {
        var at := IndexByBusAddress(hw.bus, hw.address);
        if at.Some? {
          return;
        }
      }
      if !hw.usable {
        return;
      }
      var device := Entry(made, hw.bus, hw.address, hw.tree);
      made := made + 1;
      devices := devices + [device];
      var platformId := hw.tree.platformId;
      if platformId in dictReplug {
        dictReplug := dictReplug[platformId := Waiter(device, true)];
        return;
      }
      EmitSignal(Added(device.serial, platformId));
    }

    method RemoveDevice(hw: Hardware)
      modifies this`devices, this`devicesRemoved, this`signals
      ensures State() == R.RemoveDevice(old(State()), hw)
    {
      var at := IndexByBusAddress(hw.bus, hw.address);
      if at.None? {
        return;
      }
      var device := devices[at.value];
      if saveEvents {
        devicesRemoved := devicesRemoved + [device];
      }
      devices := WithoutEntry(devices, device.serial);
      var platformId := device.tree.platformId;
      if platformId in dictReplug {
        return;
      }
      EmitSignal(Removed(device.serial, platformId));
    }

    /** In the libusb thread, with the mutex held; says whether an idle source is added. */
    method HotplugCb(event: Polling.Event) returns (added: bool)
      modifies this`idleEvents, this`idleEventsId
      ensures idleEvents == old(idleEvents) + if doneEnumerate then [event] else []
      ensures added == (doneEnumerate && !old(idleEventsId))
      ensures idleEventsId == (old(idleEventsId) || added)
    {
      if !doneEnumerate {
        return false;
      }
      idleEvents := idleEvents + [event];
      if !idleEventsId {
        idleEventsId := true;
        return true;
      }
      return false;
    }

    /** In the main thread; the mutex is held while the queue is copied, emptied and disarmed. */
    method IdleHotplugCb()
      modifies this`devices, this`made, this`dictReplug, this`signals, this`devicesRemoved,
               this`idleEvents, this`idleEventsId
      ensures State() == Polling.Drain(old(State()), old(idleEvents))
      ensures idleEvents == [] && !idleEventsId
    {
      var batch := idleEvents;
      idleEvents := [];
      idleEventsId := false;
      RunIdleEvents(batch);
    }

    /** The main loop runs the drained events with the lock released. */
    method RunIdleEvents(idleEvents: seq<Polling.Event>)
      modifies this`devices, this`made, this`dictReplug, this`signals, this`devicesRemoved
      ensures State() == Polling.Drain(old(State()), idleEvents)
    {
      hide R.AddDevice, R.RemoveDevice;
      for i := 0 to |idleEvents|
        invariant Polling.Drain(State(), idleEvents[i..]) == Polling.Drain(old(State()), idleEvents)
      {
        assert idleEvents[i..][1..] == idleEvents[i + 1..];
        match idleEvents[i]
        case Arrives(hw) => AddDevice(hw);
        case Leaves(hw) => RemoveDevice(hw);
      }
    }

    // ---- polling ----

    method Rescan(list: seq<Hardware>)
      modifies this`devices, this`made, this`dictReplug, this`signals
      ensures State() == R.Rescan(old(State()), list)
    {
      hide R.AddDevice;
      ghost var start := State();
      var existing: seq<Entry> := [];
      for i := 0 to |devices|
        invariant State() == start && existing == Reversed(devices[..i])
      {
        existing := [devices[i]] + existing;
        ReversedPrepend(devices, i);
      }
      assert devices[..|devices|] == devices;
      for l := 0 to |existing|
        invariant DropMissing(State(), existing[l..], list) == DropMissing(start, existing, list)
      {
        assert existing[l..][1..] == existing[l + 1..];
        var found := false;
        for i := 0 to |list|
          invariant !found
          invariant forall k :: 0 <= k < i ==>
                      !(list[k].bus == existing[l].bus && list[k].address == existing[l].address)
        {
          if list[i].bus == existing[l].bus && list[i].address == existing[l].address {
            found := true;
            break;
          }
        }
        assert found == OnBus(list, existing[l]);
        if !found {
          EmitSignal(Removed(existing[l].serial, existing[l].tree.platformId));
          devices := WithoutEntry(devices, existing[l].serial);
        }
      }
      ghost var dropped := State();
      for i := 0 to |list|
        invariant AddAll(State(), list[i..]) == AddAll(dropped, list)
      {
        assert list[i..][1..] == list[i + 1..];
        AddDevice(list[i]);
      }
    }

    method Enumerate(list: seq<Hardware>)
      modifies this`devices, this`made, this`dictReplug, this`signals, this`doneEnumerate
      ensures State() == R.Enumerate(old(State()), list)
    {
      if doneEnumerate {
        return;
      }
      hide R.Rescan;
      Rescan(list);
      doneEnumerate := true;
      ghost var before := signals;
      for i := 0 to |devices|
        invariant State() == R.Rescan(old(State()), list).(done := true, log := before + Announced(devices[..i]))
      {
        signals := signals + [Added(devices[i].serial, devices[i].tree.platformId)];
        assert Announced(devices[..i + 1]) ==
               Announced(devices[..i]) + [Added(devices[i].serial, devices[i].tree.platformId)];
      }
      assert devices[..|devices|] == devices;
    }

    // ---- waiting for replug ----

    method BeginWait(device: Entry)
      modifies this`dictReplug
      ensures State() == Replug.BeginWait(old(State()), device)
    {
      dictReplug := dictReplug[device.tree.platformId := Waiter(device, false)];
    }

    /** Once the inner main loop has quit. */
    method EndWait(platformId: Option<string>, timedOut: bool) returns (device: Option<Entry>)
      requires platformId in dictReplug
      modifies this`dictReplug, this`signals
      ensures State() == Replug.EndWait(old(State()), platformId, timedOut)
      ensures device == if timedOut then None else Some(old(dictReplug[platformId].device))
    {
      var waiter := dictReplug[platformId];
      dictReplug := dictReplug - {platformId};
      if timedOut {
        EmitSignal(Removed(waiter.device.serial, waiter.device.tree.platformId));
        return None;
      }
      return Some(waiter.device);
    }

    // ---- loading ----

    /** On failure the list keeps its members, some of them with the events they were given so far. */
    method LoadWithTag(doc: Members, tag: Option<string>, now: int) returns (ok: bool)
      modifies this`devices, this`made, this`signals, this`doneEnumerate
      ensures (ok, State()) == LoadContext(old(State()), doc, tag, now)
    {
      hide D.LoadDevice, LoadOne, RemoveStale, AddNew;
      doneEnumerate := true;
      if UsbDevices !in doc {
        return false;
      }
      var remove := SelectDevices(tag);
      var added: seq<D.Tree> := [];
      var items := GetItems(doc, UsbDevices);
      ghost var entry := State();
      ghost var start := Loading(devices, remove, signals, []);
      for i := 0 to |items|
        invariant State() == entry.(devices := devices, log := signals)
        invariant LoadAll(Loading(devices, remove, signals, added), items[i..], tag, now) ==
                  LoadAll(start, items, tag, now)
      {
        assert items[i..][1..] == items[i + 1..];
        var device := D.LoadDevice(items[i], now);
        if device.None? {
          return false;
        }
        remove, added := TakeIn(device.value, tag, remove, added);
      }
      RemoveDevices(remove);
      AddDevices(added);
      return true;
    }

    /** The devices a load may have to remove. */
    method SelectDevices(tag: Option<string>) returns (remove: seq<nat>)
      ensures remove == SelectedSerials(devices, tag)
    {
      remove := [];
      for i := 0 to |devices|
        invariant remove + SelectedSerials(devices[i..], tag) == SelectedSerials(devices, tag)
      {
        assert devices[i..][1..] == devices[i + 1..];
        if Selected(devices[i].tree, tag) {
          remove := remove + [devices[i].serial];
        }
      }
    }

    /** One element of the document: a known device takes over its events, any other is new. */
    method TakeIn(device: D.Tree, tag: Option<string>, remove: seq<nat>, added: seq<D.Tree>)
      returns (remove': seq<nat>, added': seq<D.Tree>)
      requires doneEnumerate
      modifies this`devices, this`signals
      ensures Loading(devices, remove', signals, added') ==
              LoadOne(old(Loading(devices, remove, signals, added)), device, tag)
    {
      remove', added' := remove, added;
      if !Selected(device, tag) {
        return;
      }
      var at := IndexByPlatformId(device.platformId);
      if at.Some? && devices[at.value].tree.created == device.created {
        var known := devices[at.value];
        devices := devices[at.value := known.(tree := known.tree.(events := device.events))];
        EmitSignal(Changed(known.serial, known.tree.platformId));
        remove' := Without(remove, known.serial);
        return;
      }
      added' := added + [device];
    }

    method RemoveDevices(remove: seq<nat>)
      requires doneEnumerate
      modifies this`devices, this`signals
      ensures State() == RemoveStale(old(State()), remove)
    {
      for i := 0 to |remove|
        invariant doneEnumerate && RemoveStale(State(), remove[i..]) == RemoveStale(old(State()), remove)
      {
        assert remove[i..][1..] == remove[i + 1..];
        EmitSignal(Removed(remove[i], IdOf(devices, remove[i])));
        devices := WithoutEntry(devices, remove[i]);
      }
    }

    /** Loaded devices report bus 0 and address 0. */
    method AddDevices(added: seq<D.Tree>)
      requires doneEnumerate
      modifies this`devices, this`signals, this`made
      ensures State() == AddNew(old(State()), added)
    {
      for i := 0 to |added|
        invariant doneEnumerate && AddNew(State(), added[i..]) == AddNew(old(State()), added)
      {
        assert added[i..][1..] == added[i + 1..];
        var device := Entry(made, 0, 0, added[i]);
        made := made + 1;
        devices := devices + [device];
        EmitSignal(Added(device.serial, added[i].platformId));
      }
    }

    // ---- saving ----

    /** Enumerates first; list is what is on the bus. Each device is written by the nested saves. */
    method SaveWithTag(builder: JsonBuilder, tag: Option<string>, list: seq<Hardware>)
      requires builder.state.WellNested() && builder.state.AwaitsValue()
      modifies this`devices, this`made, this`dictReplug, this`signals, this`doneEnumerate, builder
      ensures State() == R.Enumerate(old(State()), list)
      ensures builder.state == old(builder.state).Put(
                Obj(LoadAgain.Document(LoadAgain.SavedTrees(State(), tag, saveRemovedDevices))))
      ensures builder.state.WellNested()
    {
      hide D.DeviceNode, R.Enumerate;
      Enumerate(list);
      builder.BeginObject();
      builder.SetMemberName(UsbDevices);
      builder.BeginArray();
      ghost var outer := builder.state.below;
      ghost var trees := LoadAgain.TreesOf(devicesRemoved);
      if saveRemovedDevices {
        for i := 0 to |devicesRemoved|
          invariant State() == R.Enumerate(old(State()), list)
          invariant builder.state.WellNested() && builder.state == InArray(outer, Map(trees[..i], D.DeviceNode))
        {
          SaveTree(devicesRemoved[i].tree, builder);
          assert Map(trees[..i + 1], D.DeviceNode) == Map(trees[..i], D.DeviceNode) + [D.DeviceNode(trees[i])];
        }
        assert trees[..|trees|] == trees;
      }
      ghost var saved := if saveRemovedDevices then trees else [];
      SaveSelected(builder, tag, saved);
      builder.EndArray();
      builder.EndObject();
    }

    method SaveSelected(builder: JsonBuilder, tag: Option<string>, ghost saved: seq<D.Tree>)
      requires builder.state.WellNested() && builder.state.InArray? && builder.state.items == Map(saved, D.DeviceNode)
      modifies builder
      ensures builder.state.WellNested()
      ensures builder.state == InArray(old(builder.state.below),
                Map(saved + Synchronise.Chosen(LoadAgain.TreesOf(devices), tag), D.DeviceNode))
    {
      hide D.DeviceNode, Map;
      ghost var outer := builder.state.below;
      ghost var trees := LoadAgain.TreesOf(devices);
      ghost var all := saved + Synchronise.Chosen(trees, tag);
      ghost var done := saved;
      for i := 0 to |devices|
        invariant builder.state.WellNested() && builder.state == InArray(outer, Map(done, D.DeviceNode))
        invariant done + Synchronise.Chosen(trees[i..], tag) == all
      {
        assert trees[i..][1..] == trees[i + 1..];
        if !Selected(devices[i].tree, tag) {
          continue;
        }
        SaveTree(devices[i].tree, builder);
        MapPush(done, trees[i], D.DeviceNode);
        Synchronise.Associate(done, trees[i], Synchronise.Chosen(trees[i + 1..], tag));
        done := done + [trees[i]];
      }
    }
  }

  /** A listed device is a value here, with its descriptors asked for; the nested saves write it. */
  method SaveTree(tree: D.Tree, builder: JsonBuilder)
    requires builder.state.WellNested() && builder.state.AwaitsValue()
    modifies builder
    ensures builder.state == old(builder.state).Put(D.DeviceNode(tree))
    ensures builder.state.WellNested()
  {
    hide D.DeviceNode;
    var events: seq<V.UsbDeviceEvent> := [];
    for i := 0 to |tree.events|
      invariant |events| == i && fresh(events) && builder.state == old(builder.state)
      invariant forall k :: 0 <= k < i ==> events[k].View() == tree.events[k]
    {
      var event := new V.UsbDeviceEvent.Holding(tree.events[i]);
      events := events + [event];
    }
    assert U.EventViews(events) == tree.events;
    U.SaveDevice(tree, events, builder);
  }

  lemma {:induction false} ReversedPrepend(s: seq<Entry>, n: nat)
    requires n < |s|
    ensures Reversed(s[..n + 1]) == [s[n]] + Reversed(s[..n])
  {
    if n > 0 {
      assert s[..n + 1][1..] == s[1..][..n];
      assert s[..n][1..] == s[1..][..n - 1];
      ReversedPrepend(s[1..], n - 1);
    }
  }
}
