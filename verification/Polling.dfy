/** Polling and hotplug lead to the same devices. */
module Polling {
  import opened Basics
  import opened Registry
  import opened SignalLog
  import opened Json
  import D = Device

  type Pair = (Byte, Byte)

  function At(e: Entry): Pair { (e.bus, e.address) }

  function Port(hw: Hardware): Pair { (hw.bus, hw.address) }

  function Pairs(s: seq<Entry>): set<Pair> { set e | e in s :: At(e) }

  function Ports(list: seq<Hardware>): set<Pair> { set hw | hw in list :: Port(hw) }

  function UsablePorts(list: seq<Hardware>): set<Pair> { set hw | hw in list && hw.usable :: Port(hw) }

  /** No two devices share a serial, or a bus and address. */
  ghost predicate Sound(s: seq<Entry>, next: nat) {
    && (forall i :: 0 <= i < |s| ==> s[i].serial < next)
    && (forall i, j :: 0 <= i < j < |s| ==> s[i].serial != s[j].serial && At(s[i]) != At(s[j]))
  }

  // ---- one device ----

  lemma {:induction false} RestElements(s: seq<Entry>, next: nat, k: nat)
    requires Sound(s, next) && k < |s|
    ensures forall x :: x in s[..k] + s[k + 1..] <==> x in s && At(x) != At(s[k])
  {
    assert s == s[..k] + [s[k]] + s[k + 1..];
    var before, after := s[..k], s[k + 1..];
    assert forall i :: 0 <= i < |before| ==> At(before[i]) != At(s[k]);
    assert forall i :: 0 <= i < |after| ==> At(after[i]) != At(s[k]);
  }

  lemma {:induction false} TakeOut(s: seq<Entry>, next: nat, k: nat)
    requires Sound(s, next) && k < |s|
    ensures Sound(WithoutEntry(s, s[k].serial), next)
    ensures forall x :: x in WithoutEntry(s, s[k].serial) <==> x in s && At(x) != At(s[k])
  {
    WithoutEntryOf(s, k);
    RestElements(s, next, k);
    RestSound(s, next, k);
  }

  lemma {:induction false} RestSound(s: seq<Entry>, next: nat, k: nat)
    requires Sound(s, next) && k < |s|
    ensures Sound(s[..k] + s[k + 1..], next)
  {
    var rest := s[..k] + s[k + 1..];
    forall i, j | 0 <= i < j < |rest|
      ensures rest[i].serial != rest[j].serial && At(rest[i]) != At(rest[j])
    {
      var a, b := if i < k then i else i + 1, if j < k then j else j + 1;
      assert rest[i] == s[a] && rest[j] == s[b];
    }
    forall i | 0 <= i < |rest| ensures rest[i].serial < next {
      assert rest[i] == s[if i < k then i else i + 1];
    }
  }

  lemma {:induction false} Removes(r: Registry, hw: Hardware)
    requires Sound(r.devices, r.next)
    ensures var r' := RemoveDevice(r, hw);
            && Sound(r'.devices, r'.next) && r'.done == r.done
            && forall x :: x in r'.devices <==> x in r.devices && At(x) != Port(hw)
  {
    var at := FindByAddress(r.devices, hw.bus, hw.address);
    if at.Some? {
      TakeOut(r.devices, r.next, at.value);
    }
  }

  lemma {:induction false} PutIn(s: seq<Entry>, e: Entry)
    requires Sound(s, e.serial) && At(e) !in Pairs(s)
    ensures Sound(s + [e], e.serial + 1) && Pairs(s + [e]) == Pairs(s) + {At(e)}
  {
    assert forall i :: 0 <= i < |s| ==> At(s[i]) in Pairs(s);
    assert (s + [e])[|s|] == e;
  }

  lemma {:induction false} Adds(r: Registry, hw: Hardware)
    requires Sound(r.devices, r.next) && (r.done || Port(hw) !in Pairs(r.devices))
    ensures var r' := AddDevice(r, hw);
            && Sound(r'.devices, r'.next) && r'.done == r.done
            && (forall x :: x in r.devices ==> x in r'.devices)
            && Pairs(r'.devices) == Pairs(r.devices) + if hw.usable then {Port(hw)} else {}
  {
    hide Sound;
    var at := FindByAddress(r.devices, hw.bus, hw.address);
    if at.Some? {
      assert Port(hw) == At(r.devices[at.value]);
    } else {
      assert Port(hw) !in Pairs(r.devices);
      PutIn(r.devices, Entry(r.next, hw.bus, hw.address, hw.tree));
    }
  }

  // ---- a poll ----

  lemma {:induction false} Drops(r: Registry, existing: seq<Entry>, list: seq<Hardware>)
    requires Sound(r.devices, r.next)
    ensures var r' := DropMissing(r, existing, list);
            && Sound(r'.devices, r'.next) && r'.done == r.done && r'.next == r.next && r'.waiting == r.waiting
            && forall x :: x in r'.devices <==> x in r.devices && (x in existing ==> OnBus(list, x))
    requires forall i :: 0 <= i < |existing| ==> existing[i] in r.devices
    requires Sound(existing, r.next)
    decreases existing
  {
    if existing != [] {
      var e, rest := existing[0], existing[1..];
      assert existing == [e] + rest;
      assert forall i :: 0 <= i < |rest| ==> rest[i] == existing[i + 1];
      var r' := if OnBus(list, e) then r
                else Emit(r, Removed(e.serial, e.tree.platformId)).(devices := WithoutEntry(r.devices, e.serial));
      var k :| 0 <= k < |r.devices| && r.devices[k] == e;
      TakeOut(r.devices, r.next, k);
      hide OnBus, WithoutEntry;
      SoundRest(existing, r.next);
      forall i | 0 <= i < |rest| ensures rest[i] in r'.devices {
        assert existing[i + 1] in r.devices && At(existing[i + 1]) != At(e);
      }
      Drops(r', rest, list);
      SameAt(r, e);
    }
  }

  lemma {:induction false} SoundRest(s: seq<Entry>, next: nat)
    requires Sound(s, next) && s != []
    ensures Sound(s[1..], next) && s[0] !in s[1..]
  {
    assert forall i :: 0 <= i < |s| - 1 ==> s[1..][i] == s[i + 1];
  }

  lemma {:induction false} SameAt(r: Registry, e: Entry)
    requires Sound(r.devices, r.next) && e in r.devices
    ensures forall x :: x in r.devices && At(x) == At(e) ==> x == e
  {
  }

  lemma {:induction false} UsableFirst(list: seq<Hardware>)
    requires list != []
    ensures UsablePorts(list) == (if list[0].usable then {Port(list[0])} else {}) + UsablePorts(list[1..])
  {
    assert list == [list[0]] + list[1..];
  }

  lemma {:induction false} AddsAll(r: Registry, list: seq<Hardware>)
    requires Sound(r.devices, r.next) && r.done
    ensures var r' := AddAll(r, list);
            && Sound(r'.devices, r'.next) && r'.done
            && (forall x :: x in r.devices ==> x in r'.devices)
            && Pairs(r'.devices) == Pairs(r.devices) + UsablePorts(list)
    decreases list
  {
    if list != [] {
      hide Sound, UsablePorts, Pairs;
      Adds(r, list[0]);
      AddsAll(AddDevice(r, list[0]), list[1..]);
      UsableFirst(list);
    } else {
      assert UsablePorts(list) == {};
    }
  }

  lemma {:induction false} OnBusMeans(list: seq<Hardware>, e: Entry)
    ensures OnBus(list, e) <==> At(e) in Ports(list)
  {
    if OnBus(list, e) {
      var i :| 0 <= i < |list| && list[i].bus == e.bus && list[i].address == e.address;
      assert list[i] in list && Port(list[i]) == At(e);
    }
  }

  lemma {:induction false} SoundReversed(s: seq<Entry>, next: nat)
    requires Sound(s, next)
    ensures Sound(Reversed(s), next) && forall x :: x in Reversed(s) <==> x in s
  {
    ReversedElements(s);
    forall x | x in s ensures x in Reversed(s) {
      var i :| 0 <= i < |s| && s[i] == x;
      assert Reversed(s)[|s| - 1 - i] == x;
    }
  }

  /** One poll leaves what is still on the bus, the same objects, and what can be opened there. */
  lemma {:induction false} PollFollowsBus(r: Registry, list: seq<Hardware>)
    requires Sound(r.devices, r.next) && r.done
    ensures var r' := Rescan(r, list);
            && Sound(r'.devices, r'.next) && r'.done
            && Pairs(r'.devices) == Pairs(r.devices) * Ports(list) + UsablePorts(list)
            && forall x :: x in r.devices && At(x) in Ports(list) ==> x in r'.devices
  {
    hide Sound, OnBus, Ports, UsablePorts;
    SoundReversed(r.devices, r.next);
    forall i | 0 <= i < |Reversed(r.devices)| ensures Reversed(r.devices)[i] in r.devices {
      assert Reversed(r.devices)[i] in Reversed(r.devices);
    }
    Drops(r, Reversed(r.devices), list);
    var r1 := DropMissing(r, Reversed(r.devices), list);
    forall x: Entry ensures OnBus(list, x) <==> At(x) in Ports(list) {
      OnBusMeans(list, x);
    }
    assert Pairs(r1.devices) == Pairs(r.devices) * Ports(list);
    AddsAll(r1, list);
  }

  /** The devices that are not on the bus, the last listed first. */
  function MissingOf(s: seq<Entry>, list: seq<Hardware>): seq<Entry> {
    if s == [] then []
    else MissingOf(s[1..], list) + if OnBus(list, s[0]) then [] else [s[0]]
  }

  lemma {:induction false} DropsSplit(r: Registry, a: seq<Entry>, b: seq<Entry>, list: seq<Hardware>)
    ensures DropMissing(r, a + b, list) == DropMissing(DropMissing(r, a, list), b, list)
    decreases a
  {
    if a == [] {
      assert a + b == b;
    } else {
      assert (a + b)[1..] == a[1..] + b;
      var e := a[0];
      DropsSplit(
        if OnBus(list, e) then r
        else Emit(r, Removed(e.serial, e.tree.platformId)).(devices := WithoutEntry(r.devices, e.serial)),
        a[1..], b, list);
    }
  }

  /** A poll first reports the missing devices, each once, the last listed first, and nothing else. */
  lemma {:induction false} PollReports(r: Registry, s: seq<Entry>, list: seq<Hardware>)
    requires r.done
    ensures var log := DropMissing(r, Reversed(s), list).log;
            var gone := MissingOf(s, list);
            && |log| == |r.log| + |gone| && log[..|r.log|] == r.log && DropMissing(r, Reversed(s), list).done
            && forall k :: 0 <= k < |gone| ==> log[|r.log| + k] == Removed(gone[k].serial, gone[k].tree.platformId)
  {
    if s != [] {
      PollReports(r, s[1..], list);
      var r1 := DropMissing(r, Reversed(s[1..]), list);
      DropsSplit(r, Reversed(s[1..]), [s[0]], list);
      assert [s[0]][1..] == [];
      hide OnBus, Reversed;
      assert DropMissing(r1, [s[0]], list).log ==
             r1.log + if OnBus(list, s[0]) then [] else [Removed(s[0].serial, s[0].tree.platformId)];
    }
  }

  // ---- draining hotplug events ----

  datatype Event = Arrives(hw: Hardware) | Leaves(hw: Hardware)

  function Handle(r: Registry, event: Event): Registry {
    match event case Arrives(hw) => AddDevice(r, hw) case Leaves(hw) => RemoveDevice(r, hw)
  }

  function Drain(r: Registry, events: seq<Event>): Registry
    decreases events
  {
    if events == [] then r else Drain(Handle(r, events[0]), events[1..])
  }

  /** The events tell how the pairs before became the pairs after, in any order. */
  ghost predicate Tells(events: seq<Event>, before: set<Pair>, after: set<Pair>) {
    && (forall i :: 0 <= i < |events| ==>
          if events[i].Arrives? then events[i].hw.usable && Port(events[i].hw) in after
          else Port(events[i].hw) !in after)
    && (forall p :: p in before && p !in after ==>
          exists i :: 0 <= i < |events| && events[i].Leaves? && Port(events[i].hw) == p)
    && (forall p :: p in after && p !in before ==>
          exists i :: 0 <= i < |events| && events[i].Arrives? && Port(events[i].hw) == p)
  }

  lemma {:induction false} TellsRest(events: seq<Event>, before: set<Pair>, after: set<Pair>)
    requires Tells(events, before, after) && events != []
    ensures var p := Port(events[0].hw);
            Tells(events[1..], if events[0].Arrives? then before + {p} else before - {p}, after)
  {
    var rest := events[1..];
    var p := Port(events[0].hw);
    var now := if events[0].Arrives? then before + {p} else before - {p};
    forall q | q in now && q !in after
      ensures exists i :: 0 <= i < |rest| && rest[i].Leaves? && Port(rest[i].hw) == q
    {
      var i :| 0 <= i < |events| && events[i].Leaves? && Port(events[i].hw) == q;
      assert rest[i - 1] == events[i];
    }
    forall q | q in after && q !in now
      ensures exists i :: 0 <= i < |rest| && rest[i].Arrives? && Port(rest[i].hw) == q
    {
      var i :| 0 <= i < |events| && events[i].Arrives? && Port(events[i].hw) == q;
      assert rest[i - 1] == events[i];
    }
  }

  lemma {:induction false} DrainFollowsBus(r: Registry, events: seq<Event>, after: set<Pair>)
    requires Sound(r.devices, r.next) && r.done && Tells(events, Pairs(r.devices), after)
    ensures var r' := Drain(r, events);
            && Sound(r'.devices, r'.next)
            && Pairs(r'.devices) == after
            && forall x :: x in r.devices && At(x) in after ==> x in r'.devices
    decreases events
  {
    hide Sound;
    if events != [] {
      TellsRest(events, Pairs(r.devices), after);
      assert if events[0].Arrives? then events[0].hw.usable else Port(events[0].hw) !in after;
      hide Tells;
      match events[0]
      case Arrives(hw) =>
        Adds(r, hw);
        DrainFollowsBus(AddDevice(r, hw), events[1..], after);
      case Leaves(hw) =>
        Removes(r, hw);
        assert Pairs(RemoveDevice(r, hw).devices) == Pairs(r.devices) - {Port(hw)};
        DrainFollowsBus(RemoveDevice(r, hw), events[1..], after);
    }
  }

  /** Polling a changed bus and being told of the changes end with the same pairs, none of them twice. */
  lemma {:induction false} PollingAgreesWithHotplug(r: Registry, list: seq<Hardware>, events: seq<Event>)
    requires Sound(r.devices, r.next) && r.done && forall i :: 0 <= i < |list| ==> list[i].usable
    requires Tells(events, Pairs(r.devices), Ports(list))
    ensures var polled, told := Rescan(r, list), Drain(r, events);
            && Pairs(polled.devices) == Pairs(told.devices) == Ports(list)
            && Sound(polled.devices, polled.next) && Sound(told.devices, told.next)
            && forall x :: x in r.devices && At(x) in Ports(list) ==> x in polled.devices && x in told.devices
  {
    hide Sound, Tells;
    assert UsablePorts(list) == Ports(list);
    PollFollowsBus(r, list);
    DrainFollowsBus(r, events, Ports(list));
  }

  // ---- no place twice, over every run ----

  /** What an emulated device reports. */
  const ORIGIN: Pair := (0, 0)

  /** No two are at one place other than the origin. */
  ghost predicate Scattered(places: seq<Pair>) {
    forall i, j :: 0 <= i < j < |places| && places[i] == places[j] ==> places[i] == ORIGIN
  }

  function Places(s: seq<Entry>): (r: seq<Pair>)
    ensures |r| == |s| && forall i :: 0 <= i < |s| ==> r[i] == At(s[i])
  {
    seq(|s|, i requires 0 <= i < |s| => At(s[i]))
  }

  /** The places of the devices that can be made and opened. */
  function UsablePlaces(list: seq<Hardware>): seq<Pair> {
    if list == [] then [] else (if list[0].usable then [Port(list[0])] else []) + UsablePlaces(list[1..])
  }

  lemma {:induction false} QuietAddAllPlaces(r: Registry, list: seq<Hardware>)
    requires !r.done
    ensures Places(AddAll(r, list).devices) == Places(r.devices) + UsablePlaces(list)
    decreases list
  {
    if list != [] {
      QuietAddAllPlaces(AddDevice(r, list[0]), list[1..]);
      var e := Entry(r.next, list[0].bus, list[0].address, list[0].tree);
      assert Places(r.devices + [e]) == Places(r.devices) + [At(e)];
      assert (Places(r.devices) + [At(e)]) + UsablePlaces(list[1..]) ==
             Places(r.devices) + ([At(e)] + UsablePlaces(list[1..]));
    }
  }

  /**
   * The first enumeration lists what is usable, in order and unfiltered: it lists a place twice exactly when
   * two usable devices share it.
   */
  lemma {:induction false} EnumerateListsUsable(r: Registry, list: seq<Hardware>)
    requires !r.done && r.devices == []
    ensures Places(Enumerate(r, list).devices) == UsablePlaces(list)
    ensures Distinct(Places(Enumerate(r, list).devices)) <==> Distinct(UsablePlaces(list))
  {
    assert Reversed([]) == [];
    assert Rescan(r, list) == AddAll(r, list);
    QuietAddAllPlaces(r, list);
  }

  lemma {:induction false} ScatteredFirst(p: Pair, places: seq<Pair>)
    ensures Scattered([p] + places) <==> Scattered(places) && (p in places ==> p == ORIGIN)
  {
    var all := [p] + places;
    assert forall i :: 0 <= i < |places| ==> all[i + 1] == places[i];
    if Scattered(all) {
      forall i, j | 0 <= i < j < |places| && places[i] == places[j] ensures places[i] == ORIGIN {
        assert all[i + 1] == all[j + 1];
      }
      if p in places {
        var j :| 0 <= j < |places| && places[j] == p;
        assert all[0] == all[j + 1];
      }
    } else {
      var i, j :| 0 <= i < j < |all| && all[i] == all[j] && all[i] != ORIGIN;
      assert places[j - 1] == all[j];
      assert i > 0 ==> places[i - 1] == all[i];
    }
  }

  lemma {:induction false} PlacesFirst(s: seq<Entry>)
    requires s != []
    ensures Places(s) == [At(s[0])] + Places(s[1..])
  {
  }

  lemma {:induction false} ScatteredWithout(s: seq<Entry>, serial: nat)
    requires Scattered(Places(s))
    ensures Scattered(Places(WithoutEntry(s, serial)))
    ensures forall p :: p in Places(WithoutEntry(s, serial)) ==> p in Places(s)
  {
    if s != [] {
      hide Scattered, Places;
      PlacesFirst(s);
      ScatteredFirst(At(s[0]), Places(s[1..]));
      if s[0].serial != serial {
        ScatteredWithout(s[1..], serial);
        var kept := WithoutEntry(s[1..], serial);
        PlacesFirst([s[0]] + kept);
        assert ([s[0]] + kept)[1..] == kept;
        ScatteredFirst(At(s[0]), Places(kept));
      }
    }
  }

  lemma {:induction false} ScatteredPush(s: seq<Entry>, e: Entry)
    requires Scattered(Places(s))
    requires At(e) == ORIGIN || forall i :: 0 <= i < |s| ==> At(s[i]) != At(e)
    ensures Scattered(Places(s + [e]))
  {
    assert Places(s + [e]) == Places(s) + [At(e)];
  }

  lemma {:induction false} DropMissingScattered(r: Registry, existing: seq<Entry>, list: seq<Hardware>)
    requires Scattered(Places(r.devices))
    ensures Scattered(Places(DropMissing(r, existing, list).devices))
    decreases existing
  {
    if existing != [] {
      hide Scattered;
      var e := existing[0];
      ScatteredWithout(r.devices, e.serial);
      DropMissingScattered(
        if OnBus(list, e) then r
        else Emit(r, Removed(e.serial, e.tree.platformId)).(devices := WithoutEntry(r.devices, e.serial)),
        existing[1..], list);
    }
  }

  lemma {:induction false} AddDeviceScattered(r: Registry, hw: Hardware)
    requires r.done && Scattered(Places(r.devices))
    ensures Scattered(Places(AddDevice(r, hw).devices))
  {
    hide Scattered;
    if FindByAddress(r.devices, hw.bus, hw.address).None? {
      ScatteredPush(r.devices, Entry(r.next, hw.bus, hw.address, hw.tree));
    }
  }

  lemma {:induction false} AddAllScattered(r: Registry, list: seq<Hardware>)
    requires r.done && Scattered(Places(r.devices))
    ensures Scattered(Places(AddAll(r, list).devices))
    decreases list
  {
    if list != [] {
      hide Scattered;
      AddDeviceScattered(r, list[0]);
      AddAllScattered(AddDevice(r, list[0]), list[1..]);
    }
  }

  lemma {:induction false} LoadAllPlaces(l: Loading, items: seq<Json>, tag: Option<string>, now: int)
    ensures Places(LoadAll(l, items, tag, now).1.devices) == Places(l.devices)
    decreases items
  {
    hide D.LoadDevice;
    if items != [] {
      match D.LoadDevice(items[0], now)
      case None =>
      case Some(tree) =>
        assert Places(LoadOne(l, tree, tag).devices) == Places(l.devices);
        LoadAllPlaces(LoadOne(l, tree, tag), items[1..], tag, now);
    }
  }

  lemma {:induction false} RemoveStaleScattered(r: Registry, stale: seq<nat>)
    requires Scattered(Places(r.devices))
    ensures Scattered(Places(RemoveStale(r, stale).devices))
    decreases stale
  {
    if stale != [] {
      hide Scattered;
      ScatteredWithout(r.devices, stale[0]);
      RemoveStaleScattered(
        Emit(r, Removed(stale[0], IdOf(r.devices, stale[0]))).(devices := WithoutEntry(r.devices, stale[0])), stale[1..]);
    }
  }

  lemma {:induction false} AddNewScattered(r: Registry, added: seq<D.Tree>)
    requires Scattered(Places(r.devices))
    ensures Scattered(Places(AddNew(r, added).devices))
    decreases added
  {
    if added != [] {
      hide Scattered;
      var e := Entry(r.next, 0, 0, added[0]);
      ScatteredPush(r.devices, e);
      AddNewScattered(Emit(Append(r, e), Added(r.next, added[0].platformId)), added[1..]);
    }
  }

  lemma {:induction false} LoadScattered(r: Registry, doc: Members, tag: Option<string>, now: int)
    requires Scattered(Places(r.devices))
    ensures Scattered(Places(LoadContext(r, doc, tag, now).1.devices))
  {
    hide Scattered;
    var start := Loading(r.devices, SelectedSerials(r.devices, tag), r.log, []);
    var items := GetItems(doc, UsbDevices);
    LoadAllPlaces(start, items, tag, now);
    var (ok, l) := LoadAll(start, items, tag, now);
    var r' := r.(done := true, devices := l.devices, log := l.log);
    RemoveStaleScattered(r', l.stale);
    AddNewScattered(RemoveStale(r', l.stale), l.added);
  }

  /** If the first thing to happen is an enumeration, no two usable devices on its list share a place. */
  ghost predicate GoodStart(steps: seq<Step>)
    decreases steps
  {
    steps == [] ||
    match steps[0]
    case Enumerated(list) => Scattered(UsablePlaces(list))
    case Loaded(_, _, _) => true
    case _ => GoodStart(steps[1..])
  }

  lemma {:induction false} StepScattered(r: Registry, step: Step)
    requires Scattered(Places(r.devices)) && (!r.done ==> r.devices == [])
    requires !r.done && step.Enumerated? ==> Scattered(UsablePlaces(step.list))
    ensures var r' := Apply(r, step);
            && Scattered(Places(r'.devices)) && (!r'.done ==> r'.devices == [])
            && (r.done ==> r'.done)
            && (step.Enumerated? || step.Loaded? ==> r'.done)
  {
    hide Scattered;
    DoneStays(r, step);
    match step
    case Enumerated(list) => if !r.done { EnumerateListsUsable(r, list); }
    case Arrived(hw) => if r.done { AddDeviceScattered(r, hw); }
    case Left(hw) =>
      var at := FindByAddress(r.devices, hw.bus, hw.address);
      if at.Some? {
        ScatteredWithout(r.devices, r.devices[at.value].serial);
      }
    case Polled(list) =>
      if r.done {
        DropMissingScattered(r, Reversed(r.devices), list);
        DropMissingDone(r, Reversed(r.devices), list);
        AddAllScattered(DropMissing(r, Reversed(r.devices), list), list);
      }
    case Loaded(doc, tag, now) => LoadScattered(r, doc, tag, now);
  }

  lemma {:induction false} RunScattered(r: Registry, steps: seq<Step>)
    requires Scattered(Places(r.devices)) && (!r.done ==> r.devices == [] && GoodStart(steps))
    ensures Scattered(Places(Run(r, steps).devices))
    decreases steps
  {
    if steps != [] {
      hide Scattered, Apply;
      StepScattered(r, steps[0]);
      RunScattered(Apply(r, steps[0]), steps[1..]);
    }
  }

  /** Over every run, loads included, no bus and address but 0 and 0 is listed twice. */
  lemma {:induction false} NoPlaceTwice(saving: bool, steps: seq<Step>)
    requires GoodStart(steps)
    ensures Scattered(Places(Run(Init(saving), steps).devices))
  {
    RunScattered(Init(saving), steps);
  }
}
