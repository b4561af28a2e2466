/**
 * What hotplug events and polls do to the devices of one platform id, told from what is plugged in before
 * and the steps alone, without the registry.
 */
module Plugging {
  import opened Basics
  import opened Registry
  import opened SignalLog
  import opened IdAccount
  import opened Polling
  import opened Synchronise

  /** A place on the bus and the platform id of the device there. */
  datatype Slot = Slot(at: Pair, id: PlatformIdText)

  /** A main loop handles a hotplug event, or polls the list of devices on the bus. */
  datatype WaitStep = Told(event: Event) | Seen(list: seq<Hardware>)

  function SlotOf(e: Entry): Slot { Slot(At(e), e.tree.platformId) }

  function SlotsOf(s: seq<Entry>): (bus: seq<Slot>)
    ensures |bus| == |s| && forall i :: 0 <= i < |s| ==> bus[i] == SlotOf(s[i])
  {
    seq(|s|, i requires 0 <= i < |s| => SlotOf(s[i]))
  }

  /** The first slot at a place. */
  function Find(bus: seq<Slot>, p: Pair): (at: Option<nat>)
    ensures at.Some? ==> at.value < |bus| && bus[at.value].at == p && forall i :: 0 <= i < at.value ==> bus[i].at != p
    ensures at.None? ==> forall i :: 0 <= i < |bus| ==> bus[i].at != p
  {
    if bus == [] then None
    else if bus[0].at == p then Some(0)
    else match Find(bus[1..], p) case Some(i) => Some(i + 1) case None => None
  }

  /** A device counts as plugged in when it can be used and its place is free. */
  predicate Enters(bus: seq<Slot>, hw: Hardware) { hw.usable && Find(bus, Port(hw)).None? }

  function Plug(bus: seq<Slot>, hw: Hardware): seq<Slot> {
    if Enters(bus, hw) then bus + [Slot(Port(hw), hw.tree.platformId)] else bus
  }

  function PlugAll(bus: seq<Slot>, list: seq<Hardware>): seq<Slot>
    decreases list
  {
    if list == [] then bus else PlugAll(Plug(bus, list[0]), list[1..])
  }

  function Unplug(bus: seq<Slot>, p: Pair): seq<Slot> {
    match Find(bus, p) case Some(k) => bus[..k] + bus[k + 1..] case None => bus
  }

  /** What is still listed. */
  function Sweep(bus: seq<Slot>, list: seq<Hardware>): seq<Slot> {
    if bus == [] then []
    else (if IsListed(list, bus[0].at) then [bus[0]] else []) + Sweep(bus[1..], list)
  }

  predicate IsListed(list: seq<Hardware>, p: Pair) {
    exists i :: 0 <= i < |list| && Port(list[i]) == p
  }

  function Next(bus: seq<Slot>, step: WaitStep): seq<Slot> {
    match step
    case Told(Arrives(hw)) => Plug(bus, hw)
    case Told(Leaves(hw)) => Unplug(bus, Port(hw))
    case Seen(list) => PlugAll(Sweep(bus, list), list)
  }

  // ---- how many came and went ----

  function CameIn(bus: seq<Slot>, list: seq<Hardware>, id: PlatformIdText): nat
    decreases list
  {
    if list == [] then 0
    else
      (if Enters(bus, list[0]) && list[0].tree.platformId == id then 1 else 0) +
      CameIn(Plug(bus, list[0]), list[1..], id)
  }

  /** Devices of the id that are plugged in. */
  function CameNow(bus: seq<Slot>, step: WaitStep, id: PlatformIdText): nat {
    match step
    case Told(Arrives(hw)) => if Enters(bus, hw) && hw.tree.platformId == id then 1 else 0
    case Told(Leaves(_)) => 0
    case Seen(list) => CameIn(Sweep(bus, list), list, id)
  }

  /** Devices of the id that a hotplug event takes away; what a poll misses is not among them. */
  function WentNow(bus: seq<Slot>, step: WaitStep, id: PlatformIdText): nat {
    match step
    case Told(Leaves(hw)) =>
      (match Find(bus, Port(hw)) case Some(k) => if bus[k].id == id then 1 else 0 case None => 0)
    case _ => 0
  }

  function Came(bus: seq<Slot>, steps: seq<WaitStep>, id: PlatformIdText): nat
    decreases steps
  {
    if steps == [] then 0 else CameNow(bus, steps[0], id) + Came(Next(bus, steps[0]), steps[1..], id)
  }

  function Went(bus: seq<Slot>, steps: seq<WaitStep>, id: PlatformIdText): nat
    decreases steps
  {
    if steps == [] then 0 else WentNow(bus, steps[0], id) + Went(Next(bus, steps[0]), steps[1..], id)
  }

  // ---- events that agree with the bus ----

  /** An arrival is of a usable device at a free place; a departure names the device that is there. */
  predicate Agrees(bus: seq<Slot>, event: Event) {
    match event
    case Arrives(hw) => Enters(bus, hw)
    case Leaves(hw) => var at := Find(bus, Port(hw)); at.Some? && bus[at.value].id == hw.tree.platformId
  }

  predicate Coherent(bus: seq<Slot>, events: seq<Event>)
    decreases events
  {
    events == [] || (Agrees(bus, events[0]) && Coherent(Next(bus, Told(events[0])), events[1..]))
  }

  function AsTold(events: seq<Event>): (steps: seq<WaitStep>)
    ensures |steps| == |events| && forall i :: 0 <= i < |events| ==> steps[i] == Told(events[i])
  {
    seq(|events|, i requires 0 <= i < |events| => Told(events[i]))
  }

  function Arrivals(events: seq<Event>, id: PlatformIdText): nat {
    if events == [] then 0
    else (if events[0].Arrives? && events[0].hw.tree.platformId == id then 1 else 0) + Arrivals(events[1..], id)
  }

  function Departures(events: seq<Event>, id: PlatformIdText): nat {
    if events == [] then 0
    else (if events[0].Leaves? && events[0].hw.tree.platformId == id then 1 else 0) + Departures(events[1..], id)
  }

  /** Coherent events are counted by their names alone. */
  lemma {:induction false} CoherentCounts(bus: seq<Slot>, events: seq<Event>, id: PlatformIdText)
    requires Coherent(bus, events)
    ensures Came(bus, AsTold(events), id) == Arrivals(events, id)
    ensures Went(bus, AsTold(events), id) == Departures(events, id)
    decreases events
  {
    if events != [] {
      assert AsTold(events)[1..] == AsTold(events[1..]);
      CoherentCounts(Next(bus, Told(events[0])), events[1..], id);
    }
  }

  // ---- the registry follows the bus ----

  lemma {:induction false} FindsSlot(s: seq<Entry>, bus: Byte, address: Byte)
    ensures Find(SlotsOf(s), (bus, address)) == FindByAddress(s, bus, address)
  {
    if s != [] {
      FindsSlot(s[1..], bus, address);
      assert SlotsOf(s)[1..] == SlotsOf(s[1..]);
    }
  }

  lemma {:induction false} AddPlugs(r: Registry, hw: Hardware)
    requires r.done
    ensures SlotsOf(AddDevice(r, hw).devices) == Plug(SlotsOf(r.devices), hw)
  {
    FindsSlot(r.devices, hw.bus, hw.address);
    var e := Entry(r.next, hw.bus, hw.address, hw.tree);
    assert SlotsOf(r.devices + [e]) == SlotsOf(r.devices) + [SlotOf(e)];
  }

  lemma {:induction false} RemoveUnplugs(r: Registry, hw: Hardware)
    requires Numbers(r)
    ensures SlotsOf(RemoveDevice(r, hw).devices) == Unplug(SlotsOf(r.devices), Port(hw))
  {
    FindsSlot(r.devices, hw.bus, hw.address);
    var at := FindByAddress(r.devices, hw.bus, hw.address);
    if at.Some? {
      SlotsWithout(r.devices, at.value);
    }
  }

  lemma {:induction false} SlotsWithout(s: seq<Entry>, k: nat)
    requires Distinct(Serials(s)) && k < |s|
    ensures SlotsOf(WithoutEntry(s, s[k].serial)) == SlotsOf(s)[..k] + SlotsOf(s)[k + 1..]
  {
    assert forall i, j :: 0 <= i < j < |s| ==> Serials(s)[i] != Serials(s)[j];
    WithoutEntryOf(s, k);
    hide Distinct, Serials;
    assert SlotsOf(s[..k] + s[k + 1..]) == SlotsOf(s)[..k] + SlotsOf(s)[k + 1..];
  }

  lemma {:induction false} AddAllPlugs(r: Registry, list: seq<Hardware>)
    requires r.done
    ensures SlotsOf(AddAll(r, list).devices) == PlugAll(SlotsOf(r.devices), list)
    decreases list
  {
    if list != [] {
      AddPlugs(r, list[0]);
      hide Plug, SlotsOf;
      AddAllPlugs(AddDevice(r, list[0]), list[1..]);
    }
  }

  /** The serials of the devices that are not on the bus. */
  function Missing(s: seq<Entry>, list: seq<Hardware>): set<nat> {
    set i | 0 <= i < |s| && !OnBus(list, s[i]) :: s[i].serial
  }

  lemma {:induction false} MissingFirst(s: seq<Entry>, list: seq<Hardware>)
    requires s != []
    ensures OnBus(list, s[0]) ==> Missing(s, list) == Missing(s[1..], list)
    ensures !OnBus(list, s[0]) ==> Missing(s, list) == {s[0].serial} + Missing(s[1..], list)
  {
    var rest := s[1..];
    hide OnBus;
    assert forall i :: 0 <= i < |rest| ==> rest[i] == s[i + 1];
    forall x | x in Missing(s, list)
      ensures x in (if OnBus(list, s[0]) then {} else {s[0].serial}) + Missing(rest, list)
    {
      var i :| 0 <= i < |s| && !OnBus(list, s[i]) && s[i].serial == x;
      assert i > 0 ==> rest[i - 1] == s[i];
    }
  }

  lemma {:induction false} DropsMissing(r: Registry, existing: seq<Entry>, list: seq<Hardware>)
    requires Distinct(Serials(r.devices))
    ensures DropMissing(r, existing, list).devices == Kept(r.devices, Missing(existing, list))
    decreases existing
  {
    if existing == [] {
      assert Missing(existing, list) == {};
      KeptAll(r.devices);
    } else {
      var e := existing[0];
      MissingFirst(existing, list);
      hide OnBus, Missing;
      if OnBus(list, e) {
        DropsMissing(r, existing[1..], list);
      } else {
        SerialsWithout(r.devices, e.serial);
        WithoutElements(Serials(r.devices), e.serial);
        KeptTwice(r.devices, e.serial, Missing(existing[1..], list));
        DropsMissing(Emit(r, Removed(e.serial, e.tree.platformId)).(devices := WithoutEntry(r.devices, e.serial)),
                     existing[1..], list);
      }
    }
  }

  lemma {:induction false} KeptSlots(s: seq<Entry>, gone: set<nat>, list: seq<Hardware>)
    requires forall i :: 0 <= i < |s| ==> (s[i].serial in gone <==> !OnBus(list, s[i]))
    ensures SlotsOf(Kept(s, gone)) == Sweep(SlotsOf(s), list)
  {
    if s != [] {
      KeptSlots(s[1..], gone, list);
      assert SlotsOf(s)[1..] == SlotsOf(s[1..]);
      assert OnBus(list, s[0]) <==> IsListed(list, At(s[0]));
      hide OnBus, IsListed;
      assert SlotsOf([s[0]] + Kept(s[1..], gone)) == [SlotOf(s[0])] + SlotsOf(Kept(s[1..], gone));
    }
  }

  lemma {:induction false} DropSweeps(r: Registry, list: seq<Hardware>)
    requires Numbers(r)
    ensures SlotsOf(DropMissing(r, Reversed(r.devices), list).devices) == Sweep(SlotsOf(r.devices), list)
  {
    var s, existing := r.devices, Reversed(r.devices);
    hide OnBus;
    DropsMissing(r, existing, list);
    ReversedElements(s);
    forall i | 0 <= i < |s| ensures s[i].serial in Missing(existing, list) <==> !OnBus(list, s[i]) {
      assert existing[|s| - 1 - i] == s[i];
      if s[i].serial in Missing(existing, list) {
        var j :| 0 <= j < |existing| && !OnBus(list, existing[j]) && existing[j].serial == s[i].serial;
        assert Serials(s)[|s| - 1 - j] == Serials(s)[i];
        assert |s| - 1 - j == i;
      }
    }
    KeptSlots(s, Missing(existing, list), list);
  }

  // ---- the platform id waited for ----

  function Handle(r: Registry, step: WaitStep): Registry {
    match step case Told(event) => Polling.Handle(r, event) case Seen(list) => Rescan(r, list)
  }

  lemma {:induction false} AddCounts(r: Registry, hw: Hardware, id: PlatformIdText)
    requires r.done && id in r.waiting
    ensures var r' := AddDevice(r, hw);
            Gap(r', id) == Gap(r, id) - CameNow(SlotsOf(r.devices), Told(Arrives(hw)), id)
  {
    hide Balance, Listed;
    FindsSlot(r.devices, hw.bus, hw.address);
    OneMore(r.devices, Entry(r.next, hw.bus, hw.address, hw.tree), id);
    AddGap(r, hw, id);
  }

  lemma {:induction false} RemoveCounts(r: Registry, hw: Hardware, id: PlatformIdText)
    requires r.done && Numbers(r) && id in r.waiting
    ensures var r' := RemoveDevice(r, hw);
            Gap(r', id) == Gap(r, id) + WentNow(SlotsOf(r.devices), Told(Leaves(hw)), id)
  {
    hide Balance, Listed, WithoutEntry;
    FindsSlot(r.devices, hw.bus, hw.address);
    RemoveGap(r, hw, id);
    var at := FindByAddress(r.devices, hw.bus, hw.address);
    if at.Some? {
      OneLess(r.devices, at.value, id);
    }
  }

  lemma {:induction false} AddAllCounts(r: Registry, list: seq<Hardware>, id: PlatformIdText)
    requires r.done && id in r.waiting && Numbers(r)
    ensures var r' := AddAll(r, list);
            && Gap(r', id) == Gap(r, id) - CameIn(SlotsOf(r.devices), list, id)
            && r'.done && Numbers(r') && r'.waiting.Keys == r.waiting.Keys
    decreases list
  {
    if list != [] {
      hide Gap, Numbers, SlotsOf, Enters, Plug;
      AddCounts(r, list[0], id);
      AddPlugs(r, list[0]);
      AddNumbers(r, list[0]);
      AddAllCounts(AddDevice(r, list[0]), list[1..], id);
    }
  }

  lemma {:induction false} PollCounts(r: Registry, list: seq<Hardware>, id: PlatformIdText)
    requires r.done && Numbers(r) && id in r.waiting
    ensures var r' := Rescan(r, list);
            && SlotsOf(r'.devices) == Next(SlotsOf(r.devices), Seen(list))
            && Gap(r', id) == Gap(r, id) - CameNow(SlotsOf(r.devices), Seen(list), id)
            && r'.done && Numbers(r') && r'.waiting.Keys == r.waiting.Keys
  {
    hide Gap, Numbers, SlotsOf, DropMissing, AddAll;
    var r1 := DropMissing(r, Reversed(r.devices), list);
    ReversedListed(r);
    DropMissingGap(r, Reversed(r.devices), list, id);
    DropMissingNumbers(r, Reversed(r.devices), list);
    DropSweeps(r, list);
    AddAllCounts(r1, list, id);
    AddAllPlugs(r1, list);
  }

  /** A step of a wait for one platform id moves its count by what went and what came. */
  lemma {:induction false} StepCounts(r: Registry, step: WaitStep, id: PlatformIdText)
    requires r.done && Numbers(r) && id in r.waiting
    ensures var r' := Handle(r, step);
            var bus := SlotsOf(r.devices);
            && SlotsOf(r'.devices) == Next(bus, step)
            && Gap(r', id) == Gap(r, id) + WentNow(bus, step, id) - CameNow(bus, step, id)
            && r'.done && Numbers(r') && r'.waiting.Keys == r.waiting.Keys
  {
    hide Gap, Numbers, SlotsOf, Rescan, AddDevice, RemoveDevice, Plug, Unplug;
    match step
    case Told(Arrives(hw)) => AddCounts(r, hw, id); AddPlugs(r, hw); AddNumbers(r, hw);
    case Told(Leaves(hw)) => RemoveCounts(r, hw, id); RemoveUnplugs(r, hw); RemoveNumbers(r, hw);
    case Seen(list) => PollCounts(r, list, id);
  }

  /** Every other id stays where it was. */
  lemma {:induction false} StepKeepsGap(r: Registry, step: WaitStep, id: PlatformIdText)
    requires r.done && Numbers(r) && id !in r.waiting
    ensures Gap(Handle(r, step), id) == Gap(r, id)
  {
    hide Gap, Numbers;
    match step
    case Told(Arrives(hw)) => AddGap(r, hw, id);
    case Told(Leaves(hw)) => RemoveGap(r, hw, id);
    case Seen(list) => RescanGap(r, list, id);
  }

  // ---- the device a waiter holds ----

  lemma {:induction false} AddAllWaiter(r: Registry, list: seq<Hardware>, id: PlatformIdText)
    requires r.done && id in r.waiting
    ensures var r' := AddAll(r, list);
            var came := CameIn(SlotsOf(r.devices), list, id);
            && id in r'.waiting
            && (came == 0 ==> r'.waiting[id] == r.waiting[id])
            && (came > 0 ==> r'.waiting[id].quit && r'.waiting[id].device.tree.platformId == id)
    decreases list
  {
    if list != [] {
      var r1 := AddDevice(r, list[0]);
      AddWaiter(r, list[0], id);
      AddPlugs(r, list[0]);
      hide AddDevice, SlotsOf, Enters, Plug;
      AddAllWaiter(r1, list[1..], id);
    }
  }

  lemma {:induction false} AddWaiter(r: Registry, hw: Hardware, id: PlatformIdText)
    requires r.done && id in r.waiting
    ensures var r' := AddDevice(r, hw);
            && r'.done && id in r'.waiting
            && r'.waiting[id] ==
               if Enters(SlotsOf(r.devices), hw) && hw.tree.platformId == id then
                 Waiter(Entry(r.next, hw.bus, hw.address, hw.tree), true)
               else r.waiting[id]
  {
    FindsSlot(r.devices, hw.bus, hw.address);
  }

  /** The waiter is told to quit, and given another device, by an arrival and by nothing else. */
  lemma {:induction false} StepWaiter(r: Registry, step: WaitStep, id: PlatformIdText)
    requires r.done && Numbers(r) && id in r.waiting
    ensures var r' := Handle(r, step);
            var came := CameNow(SlotsOf(r.devices), step, id);
            && id in r'.waiting
            && (came == 0 ==> r'.waiting[id] == r.waiting[id])
            && (came > 0 ==> r'.waiting[id].quit && r'.waiting[id].device.tree.platformId == id)
  {
    hide Numbers, SlotsOf;
    match step
    case Told(Arrives(hw)) => AddWaiter(r, hw, id);
    case Told(Leaves(hw)) => RemoveNumbers(r, hw);
    case Seen(list) =>
      DropMissingNumbers(r, Reversed(r.devices), list);
      DropSweeps(r, list);
      AddAllWaiter(DropMissing(r, Reversed(r.devices), list), list, id);
  }
}
