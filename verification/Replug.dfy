/** Waiting for a device to be replugged: what its signals and the list say of its platform id. */
module Replug {
  import opened Basics
  import opened Registry
  import opened SignalLog
  import opened IdAccount
  import opened Polling
  import opened Plugging

  // ---- the signals of a wait ----

  /** The signals of a step that bear a platform id, waited for or not. */
  ghost predicate Silent(before: seq<Signal>, after: seq<Signal>, id: PlatformIdText) {
    |before| <= |after| && after[..|before|] == before &&
    forall i :: |before| <= i < |after| ==> after[i].platformId != id
  }

  /** No signal bears the platform id but removals. */
  ghost predicate OnlyRemoved(before: seq<Signal>, after: seq<Signal>, id: PlatformIdText) {
    |before| <= |after| && after[..|before|] == before &&
    forall i :: |before| <= i < |after| && after[i].platformId == id ==> after[i].Removed?
  }

  lemma {:induction false} OnlyRemovedJoins(a: seq<Signal>, b: seq<Signal>, c: seq<Signal>, id: PlatformIdText)
    requires OnlyRemoved(a, b, id) && OnlyRemoved(b, c, id)
    ensures OnlyRemoved(a, c, id)
  {
    assert c[..|a|] == c[..|b|][..|a|];
    assert forall i :: |a| <= i < |b| ==> c[i] == c[..|b|][i];
  }

  lemma {:induction false} DropsOnlyRemove(r: Registry, existing: seq<Entry>, list: seq<Hardware>, id: PlatformIdText)
    ensures OnlyRemoved(r.log, DropMissing(r, existing, list).log, id)
    decreases existing
  {
    if existing != [] {
      var e := existing[0];
      var r' := if OnBus(list, e) then r
                else Emit(r, Removed(e.serial, e.tree.platformId)).(devices := WithoutEntry(r.devices, e.serial));
      assert OnlyRemoved(r.log, r'.log, id);
      hide OnlyRemoved;
      DropsOnlyRemove(r', existing[1..], list, id);
      OnlyRemovedJoins(r.log, r'.log, DropMissing(r, existing, list).log, id);
    }
  }

  lemma {:induction false} AddsOnlyRemove(r: Registry, list: seq<Hardware>, id: PlatformIdText)
    requires id in r.waiting
    ensures OnlyRemoved(r.log, AddAll(r, list).log, id)
    decreases list
  {
    if list != [] {
      var r' := AddDevice(r, list[0]);
      assert OnlyRemoved(r.log, r'.log, id) && id in r'.waiting;
      hide OnlyRemoved, AddDevice;
      AddsOnlyRemove(r', list[1..], id);
      OnlyRemovedJoins(r.log, r'.log, AddAll(r, list).log, id);
    }
  }

  lemma {:induction false} HandleIsSilent(r: Registry, event: Event, id: PlatformIdText)
    requires id in r.waiting
    ensures Silent(r.log, Polling.Handle(r, event).log, id)
  {
  }

  lemma {:induction false} DrainIsSilent(r: Registry, events: seq<Event>, id: PlatformIdText)
    requires id in r.waiting
    ensures Silent(r.log, Drain(r, events).log, id)
    decreases events
  {
    if events != [] {
      var r1 := Polling.Handle(r, events[0]);
      HandleIsSilent(r, events[0], id);
      DrainIsSilent(r1, events[1..], id);
      var log := Drain(r, events).log;
      assert log[..|r.log|] == log[..|r1.log|][..|r.log|];
      assert forall i :: |r.log| <= i < |r1.log| ==> log[i] == log[..|r1.log|][i];
    }
  }

  lemma {:induction false} StepOnlyRemoves(r: Registry, step: WaitStep, id: PlatformIdText)
    requires r.done && Numbers(r) && id in r.waiting
    ensures OnlyRemoved(r.log, Plugging.Handle(r, step).log, id)
  {
    match step
    case Told(event) => HandleIsSilent(r, event, id);
    case Seen(list) =>
      hide OnlyRemoved, Numbers, DropMissing, AddAll;
      var r1 := DropMissing(r, Reversed(r.devices), list);
      DropMissingNumbers(r, Reversed(r.devices), list);
      DropsOnlyRemove(r, Reversed(r.devices), list, id);
      AddsOnlyRemove(r1, list, id);
      OnlyRemovedJoins(r.log, r1.log, AddAll(r1, list).log, id);
  }

  // ---- a wait ----

  function BeginWait(r: Registry, e: Entry): Registry {
    r.(waiting := r.waiting[e.tree.platformId := Waiter(e, false)])
  }

  /** On a timeout the waiter's device is reported as removed. */
  function EndWait(r: Registry, id: PlatformIdText, timedOut: bool): Registry
    requires id in r.waiting
  {
    var e := r.waiting[id].device;
    var r' := r.(waiting := r.waiting - {id});
    if timedOut then Emit(r', Removed(e.serial, e.tree.platformId)) else r'
  }

  function Handled(r: Registry, steps: seq<WaitStep>): Registry
    decreases steps
  {
    if steps == [] then r else Handled(Plugging.Handle(r, steps[0]), steps[1..])
  }

  /** g_usb_context_wait_for_replug, while the main loop handles hotplug events and polls. */
  function Wait(r: Registry, e: Entry, steps: seq<WaitStep>, timedOut: bool): Registry {
    var r' := Handled(BeginWait(r, e), steps);
    if e.tree.platformId in r'.waiting then EndWait(r', e.tree.platformId, timedOut) else r'
  }

  lemma {:induction false} WaitCounts(r: Registry, steps: seq<WaitStep>, id: PlatformIdText)
    requires r.done && Numbers(r) && id in r.waiting
    ensures var r' := Handled(r, steps);
            var bus := SlotsOf(r.devices);
            && Gap(r', id) == Gap(r, id) + Went(bus, steps, id) - Came(bus, steps, id)
            && r'.done && Numbers(r') && r'.waiting.Keys == r.waiting.Keys
    decreases steps
  {
    hide Gap, Numbers, SlotsOf, Plugging.Handle, Next, CameNow, WentNow;
    if steps != [] {
      StepCounts(r, steps[0], id);
      WaitCounts(Plugging.Handle(r, steps[0]), steps[1..], id);
    }
  }

  lemma {:induction false} WaitKeepsGap(r: Registry, steps: seq<WaitStep>, waited: PlatformIdText, id: PlatformIdText)
    requires r.done && Numbers(r) && r.waiting.Keys == {waited} && id != waited
    ensures Gap(Handled(r, steps), id) == Gap(r, id)
    decreases steps
  {
    hide Gap, Numbers, SlotsOf, Plugging.Handle;
    if steps != [] {
      StepCounts(r, steps[0], waited);
      StepKeepsGap(r, steps[0], id);
      WaitKeepsGap(Plugging.Handle(r, steps[0]), steps[1..], waited, id);
    }
  }

  lemma {:induction false} WaitOnlyRemoves(r: Registry, steps: seq<WaitStep>, id: PlatformIdText)
    requires r.done && Numbers(r) && id in r.waiting
    ensures OnlyRemoved(r.log, Handled(r, steps).log, id)
    decreases steps
  {
    if steps != [] {
      hide OnlyRemoved, Numbers, Plugging.Handle, Gap, SlotsOf;
      var r' := Plugging.Handle(r, steps[0]);
      StepCounts(r, steps[0], id);
      StepOnlyRemoves(r, steps[0], id);
      WaitOnlyRemoves(r', steps[1..], id);
      OnlyRemovedJoins(r.log, r'.log, Handled(r, steps).log, id);
    }
  }

  /** The waiter keeps its device until one of its id comes. */
  lemma {:induction false} WaitsFor(r: Registry, steps: seq<WaitStep>, id: PlatformIdText)
    requires r.done && Numbers(r) && id in r.waiting && r.waiting[id].device.tree.platformId == id
    ensures var r' := Handled(r, steps);
            var came := Came(SlotsOf(r.devices), steps, id);
            && id in r'.waiting && r'.waiting[id].device.tree.platformId == id
            && (came == 0 ==> r'.waiting[id] == r.waiting[id])
            && (r'.waiting[id].quit <==> r.waiting[id].quit || came > 0)
    decreases steps
  {
    hide Numbers, SlotsOf, Plugging.Handle, Gap, Next, CameNow, WentNow;
    if steps != [] {
      StepWaiter(r, steps[0], id);
      StepCounts(r, steps[0], id);
      WaitsFor(Plugging.Handle(r, steps[0]), steps[1..], id);
    }
  }

  /**
   * Whatever happens during a wait, the only signals with the platform id are removals, those of polls and
   * the one on a timeout; other ids stay accounted for; and this one does exactly when hotplug events took
   * as many of its devices away as came in, and one more for a timeout.
   */
  lemma {:induction false} ReplugConserves(r: Registry, e: Entry, steps: seq<WaitStep>, timedOut: bool)
    requires r.done && Numbers(r) && r.waiting == map[] && forall x :: Gap(r, x) == 0
    ensures
      var id := e.tree.platformId;
      var during := Handled(BeginWait(r, e), steps);
      var r' := Wait(r, e, steps, timedOut);
      var bus := SlotsOf(r.devices);
      var timeouts := if timedOut then 1 else 0;
      && r'.waiting == map[] && r'.devices == during.devices && Numbers(r')
      && OnlyRemoved(r.log, during.log, id)
      && id in during.waiting && (during.waiting[id].quit <==> Came(bus, steps, id) > 0)
      && (Came(bus, steps, id) == 0 ==> during.waiting[id].device == e)
      && r'.log == during.log + (if timedOut then [Removed(during.waiting[id].device.serial, id)] else [])
      && (forall x :: x != id ==> Gap(r', x) == 0)
      && Gap(r', id) == Went(bus, steps, id) - Came(bus, steps, id) - timeouts
      && (Gap(r', id) == 0 <==> Went(bus, steps, id) == Came(bus, steps, id) + timeouts)
  {
    hide Balance, Listed, OnlyRemoved, Numbers, Handled, SlotsOf, Came, Went;
    var id := e.tree.platformId;
    var b := BeginWait(r, e);
    var during := Handled(b, steps);
    var r' := Wait(r, e, steps, timedOut);
    SameNumbers(r, b);
    WaitOnlyRemoves(b, steps, id);
    WaitsFor(b, steps, id);
    WaitCounts(b, steps, id);
    assert during.waiting.Keys == {id};
    assert r'.waiting == map[];
    SameNumbers(during, r');
    var last := Removed(during.waiting[id].device.serial, id);
    forall x | x != id ensures Gap(r', x) == 0 {
      WaitKeepsGap(b, steps, id, x);
      OneSignal(during.log, last, x);
      assert Gap(r, x) == 0;
    }
    OneSignal(during.log, last, id);
    assert Gap(r, id) == 0;
  }

  lemma {:induction false} SameNumbers(a: Registry, b: Registry)
    requires Numbers(a) && a.devices == b.devices && a.next == b.next
    ensures Numbers(b)
  {
  }

  // ---- hotplug events only ----

  lemma {:induction false} HandlesTold(r: Registry, events: seq<Event>)
    ensures Handled(r, AsTold(events)) == Drain(r, events)
    decreases events
  {
    if events != [] {
      assert AsTold(events)[1..] == AsTold(events[1..]);
      HandlesTold(Polling.Handle(r, events[0]), events[1..]);
    }
  }

  /**
   * With events that agree with the bus no signal bears the platform id but the one on a timeout, and the
   * signals agree with the list afterwards exactly when the departures named are the arrivals named, and one
   * more for a timeout.
   */
  lemma {:induction false} HotplugConserves(r: Registry, e: Entry, events: seq<Event>, timedOut: bool)
    requires r.done && Numbers(r) && r.waiting == map[] && forall x :: Gap(r, x) == 0
    requires Coherent(SlotsOf(r.devices), events)
    ensures
      var id := e.tree.platformId;
      var during := Drain(BeginWait(r, e), events);
      var r' := Wait(r, e, AsTold(events), timedOut);
      && Silent(r.log, during.log, id) && id in during.waiting
      && r'.log == during.log + (if timedOut then [Removed(during.waiting[id].device.serial, id)] else [])
      && ((forall x :: Gap(r', x) == 0) <==>
          Departures(events, id) == Arrivals(events, id) + if timedOut then 1 else 0)
  {
    hide Gap, Silent, OnlyRemoved, Numbers, Drain, Handled, SlotsOf, Came, Went, Coherent, AsTold;
    var id := e.tree.platformId;
    DrainIsSilent(BeginWait(r, e), events, id);
    HandlesTold(BeginWait(r, e), events);
    CoherentCounts(SlotsOf(r.devices), events, id);
    ReplugConserves(r, e, AsTold(events), timedOut);
  }

  // ---- polls only ----

  lemma {:induction false} PollsTakeNothing(bus: seq<Slot>, steps: seq<WaitStep>, id: PlatformIdText)
    requires forall i :: 0 <= i < |steps| ==> steps[i].Seen?
    ensures Went(bus, steps, id) == 0
    decreases steps
  {
    if steps != [] {
      PollsTakeNothing(Next(bus, steps[0]), steps[1..], id);
    }
  }

  /** A wait that polls alone bring to its end, by a return or by a timeout, always leaves too few in the signals. */
  lemma {:induction false} PolledReplugMiscounts(r: Registry, e: Entry, steps: seq<WaitStep>, timedOut: bool)
    requires r.done && Numbers(r) && r.waiting == map[] && forall x :: Gap(r, x) == 0
    requires forall i :: 0 <= i < |steps| ==> steps[i].Seen?
    ensures
      var id := e.tree.platformId;
      var during := Handled(BeginWait(r, e), steps);
      id in during.waiting &&
      (timedOut || during.waiting[id].quit ==> Gap(Wait(r, e, steps, timedOut), id) < 0)
  {
    hide Gap, Numbers, Handled, SlotsOf, Wait;
    PollsTakeNothing(SlotsOf(r.devices), steps, e.tree.platformId);
    ReplugConserves(r, e, steps, timedOut);
  }

  // ---- one device leaves, stays or returns ----

  /** Every device with this platform id is at one bus and address. */
  ghost predicate OnlyAt(s: seq<Entry>, id: PlatformIdText, p: Pair) {
    forall x :: x in s && x.tree.platformId == id ==> At(x) == p
  }

  /** An event about some other device. */
  predicate Elsewhere(event: Event, id: PlatformIdText, p: Pair) {
    if event.Arrives? then event.hw.tree.platformId != id else Port(event.hw) != p
  }

  lemma {:induction false} ListedNone(s: seq<Entry>, id: PlatformIdText)
    requires forall x :: x in s ==> x.tree.platformId != id
    ensures Listed(s, id) == 0
  {
    if s != [] {
      ListedNone(s[..|s| - 1], id);
    }
  }

  lemma {:induction false} HandleElsewhere(r: Registry, event: Event, id: PlatformIdText, p: Pair)
    requires r.done && Sound(r.devices, r.next) && OnlyAt(r.devices, id, p) && Elsewhere(event, id, p)
    ensures var r' := Polling.Handle(r, event);
            && r'.done && Sound(r'.devices, r'.next) && OnlyAt(r'.devices, id, p)
            && (forall x: Entry :: x.tree.platformId == id ==> (x in r'.devices <==> x in r.devices))
            && (id in r.waiting ==> id in r'.waiting && r'.waiting[id] == r.waiting[id])
  {
    hide Sound;
    match event
    case Arrives(hw) =>
      Adds(r, hw);
      assert forall x :: x in Polling.Handle(r, event).devices ==> x in r.devices || x.tree == hw.tree;
    case Leaves(hw) => Removes(r, hw);
  }

  lemma {:induction false} DrainElsewhere(r: Registry, events: seq<Event>, id: PlatformIdText, p: Pair)
    requires r.done && Sound(r.devices, r.next) && OnlyAt(r.devices, id, p)
    requires forall i :: 0 <= i < |events| ==> Elsewhere(events[i], id, p)
    ensures var r' := Drain(r, events);
            && r'.done && Sound(r'.devices, r'.next) && OnlyAt(r'.devices, id, p)
            && (forall x: Entry :: x.tree.platformId == id ==> (x in r'.devices <==> x in r.devices))
            && (id in r.waiting ==> id in r'.waiting && r'.waiting[id] == r.waiting[id])
    decreases events
  {
    hide Sound, OnlyAt, Polling.Handle;
    if events != [] {
      HandleElsewhere(r, events[0], id, p);
      DrainElsewhere(Polling.Handle(r, events[0]), events[1..], id, p);
    }
  }

  lemma {:induction false} DrainSplit(r: Registry, a: seq<Event>, b: seq<Event>)
    ensures Drain(r, a + b) == Drain(Drain(r, a), b)
    decreases a
  {
    hide Polling.Handle;
    if a == [] {
      assert a + b == b;
    } else {
      assert (a + b)[1..] == a[1..] + b;
      DrainSplit(Polling.Handle(r, a[0]), a[1..], b);
    }
  }

  lemma {:induction false} ListedOne(s: seq<Entry>, next: nat, e: Entry)
    requires Sound(s, next) && e in s
    requires forall x :: x in s && x.tree.platformId == e.tree.platformId ==> x == e
    ensures Listed(s, e.tree.platformId) == 1
  {
    var n := |s| - 1;
    var before := s[..n];
    assert s == before + [s[n]];
    assert forall i :: 0 <= i < n ==> before[i] == s[i] && At(before[i]) != At(s[n]);
    if s[n] == e {
      hide Sound;
      ListedNone(before, e.tree.platformId);
    } else {
      ListedOne(before, next, e);
    }
  }

  lemma {:induction false} NumbersFromSound(r: Registry)
    requires Sound(r.devices, r.next)
    ensures Numbers(r)
  {
  }

  lemma {:induction false} FoundIsPaired(s: seq<Entry>, bus: Byte, address: Byte)
    ensures FindByAddress(s, bus, address).Some? ==> (bus, address) in Pairs(s)
  {
    var at := FindByAddress(s, bus, address);
    if at.Some? {
      assert At(s[at.value]) == (bus, address) && s[at.value] in s;
    }
  }

  lemma {:induction false} DrainOne(r: Registry, event: Event)
    ensures Drain(r, [event]) == Polling.Handle(r, event)
  {
    assert [event][1..] == [];
  }

  /** What a wait starts from: the device is listed, alone with its platform id, and the signals agree with the list. */
  ghost predicate Ready(r: Registry, e: Entry) {
    && r.done && Sound(r.devices, r.next) && r.waiting == map[] && (forall x :: Gap(r, x) == 0)
    && e in r.devices && forall x :: x in r.devices && x.tree.platformId == e.tree.platformId ==> x == e
  }

  /** After the device left, nothing of its platform id is listed and the waiter still holds it. */
  lemma {:induction false} Leaving(r: Registry, e: Entry, before: seq<Event>, gone: Hardware, between: seq<Event>)
    requires Ready(r, e) && Port(gone) == At(e)
    requires forall i :: 0 <= i < |before| ==> Elsewhere(before[i], e.tree.platformId, At(e))
    requires forall i :: 0 <= i < |between| ==> Elsewhere(between[i], e.tree.platformId, At(e))
    ensures var id := e.tree.platformId;
            var r' := Drain(BeginWait(r, e), before + [Leaves(gone)] + between);
            && r'.done && Sound(r'.devices, r'.next)
            && (forall x :: x in r'.devices ==> x.tree.platformId != id)
            && id in r'.waiting && r'.waiting[id] == Waiter(e, false)
  {
    hide Sound, Drain, Gap;
    var id := e.tree.platformId;
    var b := BeginWait(r, e);
    DrainElsewhere(b, before, id, At(e));
    var r1 := Drain(b, before);
    Removes(r1, gone);
    var r2 := RemoveDevice(r1, gone);
    assert r2.waiting == r1.waiting;
    DrainElsewhere(r2, between, id, At(e));
    DrainSplit(b, before + [Leaves(gone)], between);
    DrainSplit(b, before, [Leaves(gone)]);
    DrainOne(r1, Leaves(gone));
  }

  /** While hotplug events are handled the list moves by what came and what went. */
  lemma {:induction false} ListedMoves(r: Registry, events: seq<Event>, id: PlatformIdText)
    requires r.done && Numbers(r) && id in r.waiting
    ensures var bus, steps := SlotsOf(r.devices), AsTold(events);
            Listed(Drain(r, events).devices, id) == Listed(r.devices, id) + Came(bus, steps, id) - Went(bus, steps, id)
  {
    hide Numbers, SlotsOf, Balance, Listed, Drain, Silent;
    WaitCounts(r, AsTold(events), id);
    HandlesTold(r, events);
    DrainKeepsBalance(r, events, id);
  }

  lemma {:induction false} DrainKeepsBalance(r: Registry, events: seq<Event>, id: PlatformIdText)
    requires r.done && Numbers(r) && id in r.waiting
    ensures Balance(Drain(r, events).log, id) == Balance(r.log, id)
    decreases events
  {
    hide Balance, Numbers, Polling.Handle, Gap, SlotsOf;
    if events != [] {
      StepCounts(r, Told(events[0]), id);
      HandleKeepsBalance(r, events[0], id);
      DrainKeepsBalance(Polling.Handle(r, events[0]), events[1..], id);
    }
  }

  lemma {:induction false} HandleKeepsBalance(r: Registry, event: Event, id: PlatformIdText)
    requires r.done && Numbers(r) && id in r.waiting
    ensures Balance(Polling.Handle(r, event).log, id) == Balance(r.log, id)
  {
    hide Balance, Numbers;
    match event
    case Arrives(hw) => AddGap(r, hw, id);
    case Leaves(hw) => RemoveGap(r, hw, id);
  }

  /** It leaves and does not come back in time: one removal, and the signals agree with the list. */
  lemma {:induction false} LeavesAndTimesOut(r: Registry, e: Entry, before: seq<Event>, gone: Hardware, between: seq<Event>)
    requires Ready(r, e) && Port(gone) == At(e)
    requires forall i :: 0 <= i < |before| ==> Elsewhere(before[i], e.tree.platformId, At(e))
    requires forall i :: 0 <= i < |between| ==> Elsewhere(between[i], e.tree.platformId, At(e))
    ensures var events := before + [Leaves(gone)] + between;
            var during := Drain(BeginWait(r, e), events);
            var r' := Wait(r, e, AsTold(events), true);
            && Silent(r.log, during.log, e.tree.platformId)
            && r'.log == during.log + [Removed(e.serial, e.tree.platformId)]
            && forall x :: Gap(r', x) == 0
  {
    hide Gap, Silent, OnlyRemoved, Drain, Handled, Sound, SlotsOf, AsTold, Came, Went;
    var id := e.tree.platformId;
    var events := before + [Leaves(gone)] + between;
    Leaving(r, e, before, gone, between);
    NumbersFromSound(r);
    SameNumbers(r, BeginWait(r, e));
    DrainIsSilent(BeginWait(r, e), events, id);
    HandlesTold(BeginWait(r, e), events);
    ReplugConserves(r, e, AsTold(events), true);
    ListedMoves(BeginWait(r, e), events, id);
    ListedOne(r.devices, r.next, e);
    ListedNone(Drain(BeginWait(r, e), events).devices, id);
  }

  lemma {:induction false} Returning(r: Registry, e: Entry, back: Hardware, after: seq<Event>)
    requires r.done && Sound(r.devices, r.next) && e.tree.platformId in r.waiting
    requires forall x :: x in r.devices ==> x.tree.platformId != e.tree.platformId
    requires back.usable && back.tree.platformId == e.tree.platformId && Port(back) !in Pairs(r.devices)
    requires forall i :: 0 <= i < |after| ==> Elsewhere(after[i], e.tree.platformId, Port(back))
    ensures var id := e.tree.platformId;
            var n := Entry(r.next, back.bus, back.address, back.tree);
            var r' := Drain(r, [Arrives(back)] + after);
            && r'.done && Sound(r'.devices, r'.next)
            && n in r'.devices && (forall x :: x in r'.devices && x.tree.platformId == id ==> x == n)
            && id in r'.waiting && r'.waiting[id] == Waiter(n, true)
  {
    hide Sound;
    var id := e.tree.platformId;
    var n := Entry(r.next, back.bus, back.address, back.tree);
    Adds(r, back);
    var r1 := AddDevice(r, back);
    FoundIsPaired(r.devices, back.bus, back.address);
    assert r1.devices == r.devices + [n];
    assert forall x :: x in r1.devices && x.tree.platformId == id ==> x == n;
    DrainElsewhere(r1, after, id, Port(back));
    assert ([Arrives(back)] + after)[1..] == after;
    assert n in r1.devices;
  }

  /** It leaves and comes back, perhaps elsewhere: no signal for its platform id, and the new device is returned. */
  lemma {:induction false} LeavesAndReturns(
    r: Registry, e: Entry, before: seq<Event>, gone: Hardware, between: seq<Event>, back: Hardware, after: seq<Event>)
    requires Ready(r, e) && Port(gone) == At(e)
    requires forall i :: 0 <= i < |before| ==> Elsewhere(before[i], e.tree.platformId, At(e))
    requires forall i :: 0 <= i < |between| ==> Elsewhere(between[i], e.tree.platformId, At(e))
    requires back.usable && back.tree.platformId == e.tree.platformId
    requires Port(back) !in Pairs(Drain(BeginWait(r, e), before + [Leaves(gone)] + between).devices)
    requires forall i :: 0 <= i < |after| ==> Elsewhere(after[i], e.tree.platformId, Port(back))
    ensures var events := (before + [Leaves(gone)] + between) + ([Arrives(back)] + after);
            var during := Drain(BeginWait(r, e), events);
            var r' := Wait(r, e, AsTold(events), false);
            && Silent(r.log, r'.log, e.tree.platformId)
            && e.tree.platformId in during.waiting && during.waiting[e.tree.platformId].quit
            && during.waiting[e.tree.platformId].device in r'.devices
            && during.waiting[e.tree.platformId].device.tree == back.tree
            && forall x :: Gap(r', x) == 0
  {
    hide Gap, Silent, OnlyRemoved, Drain, Handled, Sound, Pairs, SlotsOf, AsTold, Came, Went;
    var id := e.tree.platformId;
    var left := before + [Leaves(gone)] + between;
    var events := left + ([Arrives(back)] + after);
    Leaving(r, e, before, gone, between);
    var r1 := Drain(BeginWait(r, e), left);
    var n := Entry(r1.next, back.bus, back.address, back.tree);
    Returning(r1, e, back, after);
    DrainSplit(BeginWait(r, e), left, [Arrives(back)] + after);
    NumbersFromSound(r);
    SameNumbers(r, BeginWait(r, e));
    DrainIsSilent(BeginWait(r, e), events, id);
    HandlesTold(BeginWait(r, e), events);
    ReplugConserves(r, e, AsTold(events), false);
    ListedMoves(BeginWait(r, e), events, id);
    ListedOne(r.devices, r.next, e);
    var r2 := Drain(BeginWait(r, e), events);
    ListedOne(r2.devices, r2.next, n);
  }

  // ---- the waits it gets wrong ----

  /** It never leaves and the timer runs out: a removal is emitted for a device still listed. */
  lemma {:induction false} StaysAndTimesOut(r: Registry, e: Entry, events: seq<Event>)
    requires Ready(r, e)
    requires forall i :: 0 <= i < |events| ==> Elsewhere(events[i], e.tree.platformId, At(e))
    ensures var r' := Wait(r, e, AsTold(events), true);
            && e in r'.devices && Gap(r', e.tree.platformId) == -1
            && r'.log == Drain(BeginWait(r, e), events).log + [Removed(e.serial, e.tree.platformId)]
  {
    hide Gap, Silent, OnlyRemoved, Drain, Handled, Sound, SlotsOf, AsTold, Came, Went;
    var id := e.tree.platformId;
    var b := BeginWait(r, e);
    NumbersFromSound(r);
    SameNumbers(r, b);
    DrainElsewhere(b, events, id, At(e));
    HandlesTold(b, events);
    ReplugConserves(r, e, AsTold(events), true);
    ListedMoves(b, events, id);
    ListedOne(r.devices, r.next, e);
    ListedOne(Drain(b, events).devices, Drain(b, events).next, e);
  }
}
