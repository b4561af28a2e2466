/** The platform ids of the listed devices are those the signals imply. */
module IdAccount {
  import opened Basics
  import opened Json
  import opened Registry
  import opened SignalLog
  import D = Device

  type PlatformIdText = Option<string>

  /** How many devices with a platform id the signals say there are. */
  function Balance(log: seq<Signal>, id: PlatformIdText): int {
    if log == [] then 0
    else
      var n := |log| - 1;
      Balance(log[..n], id) +
      match log[n]
      case Added(_, x) => if x == id then 1 else 0
      case Removed(_, x) => if x == id then -1 else 0
      case Changed(_, _) => 0
  }

  /** How many there are. */
  function Listed(s: seq<Entry>, id: PlatformIdText): nat {
    if s == [] then 0
    else Listed(s[..|s| - 1], id) + if s[|s| - 1].tree.platformId == id then 1 else 0
  }

  /** How far the signals overstate the list. */
  function Gap(r: Registry, id: PlatformIdText): int {
    Balance(r.log, id) - Listed(r.devices, id)
  }

  // ---- one entry, one signal ----

  lemma {:induction false} OneMore(s: seq<Entry>, e: Entry, id: PlatformIdText)
    ensures Listed(s + [e], id) == Listed(s, id) + if e.tree.platformId == id then 1 else 0
  {
    assert (s + [e])[..|s|] == s;
  }

  lemma {:induction false} OneSignal(log: seq<Signal>, signal: Signal, id: PlatformIdText)
    ensures Balance(log + [signal], id) ==
            Balance(log, id) + (if signal.Changed? || signal.platformId != id then 0 else if signal.Added? then 1 else -1)
  {
    assert (log + [signal])[..|log|] == log;
  }

  lemma {:induction false} ListedSum(a: seq<Entry>, b: seq<Entry>, id: PlatformIdText)
    ensures Listed(a + b, id) == Listed(a, id) + Listed(b, id)
  {
    if b == [] {
      assert a + b == a;
    } else {
      var n := |b| - 1;
      assert (a + b)[..|a + b| - 1] == a + b[..n];
      ListedSum(a, b[..n], id);
    }
  }

  lemma {:induction false} OneLess(s: seq<Entry>, k: nat, id: PlatformIdText)
    requires k < |s| && Distinct(Serials(s))
    ensures Listed(WithoutEntry(s, s[k].serial), id) ==
            Listed(s, id) - if s[k].tree.platformId == id then 1 else 0
  {
    assert forall i, j :: 0 <= i < j < |s| ==> Serials(s)[i] != Serials(s)[j];
    WithoutEntryOf(s, k);
    assert s == (s[..k] + [s[k]]) + s[k + 1..];
    ListedSum(s[..k] + [s[k]], s[k + 1..], id);
    ListedSum(s[..k], s[k + 1..], id);
    OneMore(s[..k], s[k], id);
  }

  // ---- one hotplug event ----

  lemma {:induction false} AddGap(r: Registry, hw: Hardware, id: PlatformIdText)
    requires r.done
    ensures id !in r.waiting ==> Gap(AddDevice(r, hw), id) == Gap(r, id)
    ensures id in r.waiting ==> Balance(AddDevice(r, hw).log, id) == Balance(r.log, id)
  {
    var e := Entry(r.next, hw.bus, hw.address, hw.tree);
    OneMore(r.devices, e, id);
    OneSignal(r.log, Added(e.serial, hw.tree.platformId), id);
  }

  lemma {:induction false} RemoveGap(r: Registry, hw: Hardware, id: PlatformIdText)
    requires r.done && Numbers(r)
    ensures id !in r.waiting ==> Gap(RemoveDevice(r, hw), id) == Gap(r, id)
    ensures id in r.waiting ==> Balance(RemoveDevice(r, hw).log, id) == Balance(r.log, id)
  {
    hide Balance, Listed, WithoutEntry;
    var at := FindByAddress(r.devices, hw.bus, hw.address);
    if at.Some? {
      var e := r.devices[at.value];
      OneLess(r.devices, at.value, id);
      OneSignal(r.log, Removed(e.serial, e.tree.platformId), id);
    }
  }

  lemma {:induction false} AddNumbers(r: Registry, hw: Hardware)
    requires Numbers(r)
    ensures Numbers(AddDevice(r, hw)) && AddDevice(r, hw).done == r.done
    ensures AddDevice(r, hw).waiting.Keys == r.waiting.Keys
  {
    var e := Entry(r.next, hw.bus, hw.address, hw.tree);
    assert Serials(r.devices + [e]) == Serials(r.devices) + [r.next];
  }

  lemma {:induction false} RemoveNumbers(r: Registry, hw: Hardware)
    requires Numbers(r)
    ensures Numbers(RemoveDevice(r, hw)) && RemoveDevice(r, hw).done == r.done
    ensures RemoveDevice(r, hw).waiting == r.waiting
  {
    var r' := RemoveDevice(r, hw);
    var at := FindByAddress(r.devices, hw.bus, hw.address);
    if at.Some? {
      SerialsWithout(r.devices, r.devices[at.value].serial);
      WithoutElements(Serials(r.devices), r.devices[at.value].serial);
      forall i | 0 <= i < |r'.devices| ensures r'.devices[i].serial < r.next {
        assert r'.devices[i] in r.devices;
      }
    }
  }

  // ---- polling ----

  lemma {:induction false} DropMissingGap(r: Registry, existing: seq<Entry>, list: seq<Hardware>, id: PlatformIdText)
    requires r.done && Numbers(r)
    requires Distinct(Serials(existing)) && forall i :: 0 <= i < |existing| ==> existing[i] in r.devices
    ensures Gap(DropMissing(r, existing, list), id) == Gap(r, id)
    decreases existing
  {
    if existing != [] {
      var e := existing[0];
      var r' := Emit(r, Removed(e.serial, e.tree.platformId)).(devices := WithoutEntry(r.devices, e.serial));
      DropsOne(r, e, id);
      hide Gap, Numbers;
      SerialsRest(existing);
      forall i | 0 <= i < |existing| - 1 ensures existing[1..][i] in r'.devices {
        assert existing[1..][i] == existing[i + 1] && existing[i + 1].serial in Serials(existing[1..]);
        StaysListed(r.devices, e.serial, existing[i + 1]);
      }
      DropMissingGap(if OnBus(list, e) then r else r', existing[1..], list, id);
    }
  }

  lemma {:induction false} SerialsRest(s: seq<Entry>)
    requires s != [] && Distinct(Serials(s))
    ensures Distinct(Serials(s[1..])) && s[0].serial !in Serials(s[1..])
    ensures forall i :: 1 <= i < |s| ==> s[i].serial in Serials(s[1..])
  {
    var rest := Serials(s[1..]);
    assert forall i :: 0 <= i < |s| - 1 ==> rest[i] == Serials(s)[i + 1];
    assert forall i :: 1 <= i < |s| ==> rest[i - 1] == s[i].serial;
  }

  lemma {:induction false} StaysListed(s: seq<Entry>, serial: nat, e: Entry)
    requires e in s && e.serial != serial
    ensures e in WithoutEntry(s, serial)
  {
    if s[0].serial != serial && s[0] != e {
      StaysListed(s[1..], serial, e);
    }
  }

  lemma {:induction false} DropsOne(r: Registry, e: Entry, id: PlatformIdText)
    requires r.done && Numbers(r) && e in r.devices
    ensures var r' := Emit(r, Removed(e.serial, e.tree.platformId)).(devices := WithoutEntry(r.devices, e.serial));
            Gap(r', id) == Gap(r, id) && Numbers(r')
  {
    hide WithoutEntry, Balance, Listed;
    var k :| 0 <= k < |r.devices| && r.devices[k] == e;
    OneLess(r.devices, k, id);
    OneSignal(r.log, Removed(e.serial, e.tree.platformId), id);
    StaysNumbered(r, e.serial);
  }

  lemma {:induction false} StaysNumbered(r: Registry, serial: nat)
    requires Numbers(r)
    ensures Distinct(Serials(WithoutEntry(r.devices, serial)))
    ensures forall i :: 0 <= i < |WithoutEntry(r.devices, serial)| ==> WithoutEntry(r.devices, serial)[i].serial < r.next
  {
    SerialsWithout(r.devices, serial);
    WithoutElements(Serials(r.devices), serial);
    hide WithoutEntry, Without;
    var rest := WithoutEntry(r.devices, serial);
    forall i | 0 <= i < |rest| ensures rest[i].serial < r.next {
      assert rest[i] in r.devices;
    }
  }

  lemma {:induction false} DropMissingNumbers(r: Registry, existing: seq<Entry>, list: seq<Hardware>)
    requires Numbers(r)
    ensures var r' := DropMissing(r, existing, list);
            Numbers(r') && r'.done == r.done && r'.waiting == r.waiting
    decreases existing
  {
    if existing != [] {
      var e := existing[0];
      StaysNumbered(r, e.serial);
      hide WithoutEntry;
      DropMissingNumbers(
        if OnBus(list, e) then r
        else Emit(r, Removed(e.serial, e.tree.platformId)).(devices := WithoutEntry(r.devices, e.serial)),
        existing[1..], list);
    }
  }

  lemma {:induction false} AddAllGap(r: Registry, list: seq<Hardware>, id: PlatformIdText)
    requires r.done && id !in r.waiting
    ensures Gap(AddAll(r, list), id) == Gap(r, id)
    decreases list
  {
    hide Gap;
    if list != [] {
      AddGap(r, list[0], id);
      assert AddDevice(r, list[0]).waiting.Keys == r.waiting.Keys;
      AddAllGap(AddDevice(r, list[0]), list[1..], id);
    }
  }

  lemma {:induction false} ReversedListed(r: Registry)
    requires Numbers(r)
    ensures Distinct(Serials(Reversed(r.devices)))
    ensures forall i :: 0 <= i < |Reversed(r.devices)| ==> Reversed(r.devices)[i] in r.devices
  {
    var existing := Reversed(r.devices);
    ReversedElements(r.devices);
    assert forall i :: 0 <= i < |existing| ==> Serials(r.devices)[|existing| - 1 - i] == existing[i].serial;
  }

  lemma {:induction false} RescanGap(r: Registry, list: seq<Hardware>, id: PlatformIdText)
    requires r.done && Numbers(r) && id !in r.waiting
    ensures Gap(Rescan(r, list), id) == Gap(r, id)
  {
    hide Gap, Numbers;
    ReversedListed(r);
    DropMissingGap(r, Reversed(r.devices), list, id);
    DropMissingNumbers(r, Reversed(r.devices), list);
    AddAllGap(DropMissing(r, Reversed(r.devices), list), list, id);
  }

  // ---- the first enumeration ----

  lemma {:induction false} AnnouncedBalance(s: seq<Entry>, id: PlatformIdText)
    ensures Balance(Announced(s), id) == Listed(s, id)
  {
    if s != [] {
      var n := |s| - 1;
      AnnouncedBalance(s[..n], id);
      assert Announced(s)[..n] == Announced(s[..n]);
    }
  }

  lemma {:induction false} EnumerateGap(r: Registry, list: seq<Hardware>, id: PlatformIdText)
    requires Explained(r) && r.waiting == map[]
    ensures Gap(Enumerate(r, list), id) == Gap(r, id)
  {
    if !r.done {
      assert Rescan(r, list) == AddAll(r, list);
      QuietAddAll(r, list);
      var r' := Rescan(r, list);
      assert r'.log + Announced(r'.devices) == Announced(r'.devices);
      AnnouncedBalance(r'.devices, id);
    }
  }

  // ---- loading ----

  lemma {:induction false} LoadAllGap(l: Loading, items: seq<Json>, tag: Option<string>, now: int, id: PlatformIdText)
    ensures var l' := LoadAll(l, items, tag, now).1;
            Balance(l'.log, id) == Balance(l.log, id) && Listed(l'.devices, id) == Listed(l.devices, id)
    decreases items
  {
    hide Balance, Listed, LoadOne, D.LoadDevice;
    if items != [] {
      match D.LoadDevice(items[0], now)
      case None =>
      case Some(tree) =>
        LoadOneGap(l, tree, tag, id);
        LoadAllGap(LoadOne(l, tree, tag), items[1..], tag, now, id);
    }
  }

  lemma {:induction false} SameListed(a: seq<Entry>, b: seq<Entry>, id: PlatformIdText)
    requires |a| == |b| && forall i :: 0 <= i < |a| ==> a[i].tree.platformId == b[i].tree.platformId
    ensures Listed(a, id) == Listed(b, id)
  {
    if a != [] {
      SameListed(a[..|a| - 1], b[..|b| - 1], id);
    }
  }

  lemma {:induction false} LoadOneGap(l: Loading, tree: D.Tree, tag: Option<string>, id: PlatformIdText)
    ensures var l' := LoadOne(l, tree, tag);
            Balance(l'.log, id) == Balance(l.log, id) && Listed(l'.devices, id) == Listed(l.devices, id)
  {
    hide Balance, Listed;
    var l' := LoadOne(l, tree, tag);
    SameListed(l'.devices, l.devices, id);
    if Selected(tree, tag) && MatchesOld(l.devices, tree) {
      var e := l.devices[FindByPlatformId(l.devices, tree.platformId).value];
      OneSignal(l.log, Changed(e.serial, e.tree.platformId), id);
    }
  }

  lemma {:induction false} EntryOf(s: seq<Entry>, serial: nat) returns (e: Entry)
    requires serial in Serials(s)
    ensures e in s && e.serial == serial && IdOf(s, serial) == e.tree.platformId
  {
    if s[0].serial == serial {
      e := s[0];
    } else {
      assert Serials(s) == [s[0].serial] + Serials(s[1..]);
      e := EntryOf(s[1..], serial);
    }
  }

  lemma {:induction false} RemoveStaleGap(r: Registry, stale: seq<nat>, id: PlatformIdText)
    requires r.done && Numbers(r) && Distinct(stale) && forall x :: x in stale ==> x in Serials(r.devices)
    ensures var r' := RemoveStale(r, stale); Gap(r', id) == Gap(r, id) && r'.done
    decreases stale
  {
    if stale != [] {
      var e := EntryOf(r.devices, stale[0]);
      DropsOne(r, e, id);
      SerialsWithout(r.devices, stale[0]);
      WithoutElements(Serials(r.devices), stale[0]);
      hide Numbers, Gap;
      assert forall i :: 0 <= i < |stale| - 1 ==> stale[1..][i] == stale[i + 1];
      RemoveStaleGap(Emit(r, Removed(stale[0], e.tree.platformId)).(devices := WithoutEntry(r.devices, stale[0])),
                     stale[1..], id);
    }
  }

  lemma {:induction false} AddNewGap(r: Registry, added: seq<D.Tree>, id: PlatformIdText)
    requires r.done
    ensures Gap(AddNew(r, added), id) == Gap(r, id)
    decreases added
  {
    hide Balance, Listed;
    if added != [] {
      var e := Entry(r.next, 0, 0, added[0]);
      OneMore(r.devices, e, id);
      OneSignal(r.log, Added(e.serial, e.tree.platformId), id);
      AddNewGap(Emit(Append(r, e), Added(e.serial, e.tree.platformId)), added[1..], id);
    }
  }

  lemma {:induction false} LoadContextGap(r: Registry, doc: Members, tag: Option<string>, now: int, id: PlatformIdText)
    requires Explained(r)
    ensures Gap(LoadContext(r, doc, tag, now).1, id) == Gap(r, id)
  {
    var r' := r.(done := true);
    if UsbDevices in doc {
      var start := Loading(r.devices, SelectedSerials(r.devices, tag), r.log, []);
      var items := GetItems(doc, UsbDevices);
      SelectedAreListed(r.devices, tag);
      assert Over(r', start) == r';
      LoadAllExplained(r', start, items, tag, now);
      LoadAllGap(start, items, tag, now, id);
      var (ok, l) := LoadAll(start, items, tag, now);
      var r'' := r'.(devices := l.devices, log := l.log);
      assert Over(r', l) == r'';
      if ok {
        RemoveStaleGap(r'', l.stale, id);
        hide Explained, Numbered;
        AddNewGap(RemoveStale(r'', l.stale), l.added, id);
      }
    }
  }

  // ---- every run ----

  lemma {:induction false} StepGap(r: Registry, step: Step, id: PlatformIdText)
    requires Explained(r) && r.waiting == map[]
    ensures Gap(Apply(r, step), id) == Gap(r, id)
  {
    hide Gap;
    match step
    case Enumerated(list) => EnumerateGap(r, list, id);
    case Arrived(hw) => if r.done { AddGap(r, hw, id); }
    case Left(hw) => if r.done { RemoveGap(r, hw, id); }
    case Polled(list) => if r.done { RescanGap(r, list, id); }
    case Loaded(doc, tag, now) => LoadContextGap(r, doc, tag, now, id);
  }

  lemma {:induction false} RunGap(r: Registry, steps: seq<Step>, id: PlatformIdText)
    requires Explained(r) && r.waiting == map[]
    ensures Gap(Run(r, steps), id) == Gap(r, id)
    decreases steps
  {
    if steps != [] {
      StepExplained(r, steps[0]);
      hide Explained, Gap, Apply;
      StepGap(r, steps[0], id);
      RunGap(Apply(r, steps[0]), steps[1..], id);
    }
  }

  lemma {:induction false} NothingYet(saving: bool, id: PlatformIdText)
    ensures Gap(Init(saving), id) == 0
  {
    assert Balance([], id) == 0 && Listed([], id) == 0;
  }

  /** Counting the signals of any run gives, for every platform id, the number of devices listed with it. */
  lemma {:induction false} SignalsCountIds(saving: bool, steps: seq<Step>, id: PlatformIdText)
    ensures var r := Run(Init(saving), steps); Balance(r.log, id) == Listed(r.devices, id)
  {
    hide Init, Run, Balance, Listed, Explained;
    InitExplained(saving);
    NothingYet(saving, id);
    RunGap(Init(saving), steps, id);
    assert Gap(Run(Init(saving), steps), id) == 0;
  }
}
