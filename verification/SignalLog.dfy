/** Over every run, the signals a context has emitted account for the devices it lists. */
module SignalLog {
  import opened Basics
  import opened Json
  import opened Registry
  import D = Device

  /** The objects a listener believes to be present, in the order they were announced. */
  ghost function Present(log: seq<Signal>): seq<nat> {
    if log == [] then []
    else
      var n := |log| - 1;
      match log[n]
      case Added(serial, _) => Present(log[..n]) + [serial]
      case Removed(serial, _) => Without(Present(log[..n]), serial)
      case Changed(_, _) => Present(log[..n])
  }

  /** An object is added once; it is removed, and reported as changed, only while it is present. */
  ghost predicate Legal(log: seq<Signal>) {
    log == [] ||
    var n := |log| - 1;
    && Legal(log[..n])
    && match log[n]
       case Added(serial, _) => forall i :: 0 <= i < n ==> log[i].serial != serial
       case Removed(serial, _) => serial in Present(log[..n])
       case Changed(serial, _) => serial in Present(log[..n])
  }

  /** Serials are handed out in order. */
  ghost predicate Numbers(r: Registry) {
    Distinct(Serials(r.devices)) && forall i :: 0 <= i < |r.devices| ==> r.devices[i].serial < r.next
  }

  /** And never again. */
  ghost predicate Numbered(r: Registry) {
    Numbers(r) && forall i :: 0 <= i < |r.log| ==> r.log[i].serial < r.next
  }

  ghost predicate Explained(r: Registry) {
    && Numbered(r) && Legal(r.log)
    && Present(r.log) == Serials(r.devices)
    && (!r.done ==> r.devices == [] && r.log == [])
  }

  // ---- taking one serial out of a list ----

  lemma {:induction false} WithoutElements(s: seq<nat>, x: nat)
    requires Distinct(s)
    ensures Distinct(Without(s, x))
    ensures forall y :: y in Without(s, x) <==> y in s && y != x
  {
    if s != [] && s[0] != x {
      assert forall i, j :: 0 <= i < j < |s| - 1 ==> s[1..][i] != s[1..][j];
      WithoutElements(s[1..], x);
      assert s == [s[0]] + s[1..];
      assert forall i :: 0 <= i < |s| - 1 ==> s[1..][i] != s[0];
      assert s[0] !in Without(s[1..], x);
    } else if s != [] {
      assert s == [x] + s[1..];
    }
  }

  lemma {:induction false} SerialsWithout(s: seq<Entry>, serial: nat)
    ensures Serials(WithoutEntry(s, serial)) == Without(Serials(s), serial)
    ensures forall e :: e in WithoutEntry(s, serial) ==> e in s
  {
    if s != [] {
      SerialsWithout(s[1..], serial);
      assert Serials(s)[1..] == Serials(s[1..]);
    }
  }

  lemma {:induction false} WithoutEntryOf(s: seq<Entry>, k: nat)
    requires k < |s| && forall i, j :: 0 <= i < j < |s| ==> s[i].serial != s[j].serial
    ensures WithoutEntry(s, s[k].serial) == s[..k] + s[k + 1..]
  {
    if k > 0 {
      WithoutEntryOf(s[1..], k - 1);
    }
  }

  // ---- one signal ----

  lemma {:induction false} AddExplained(r: Registry, e: Entry)
    requires Explained(r) && r.done && e.serial == r.next
    ensures Explained(Emit(Append(r, e), Added(e.serial, e.tree.platformId)))
  {
    var r' := Emit(Append(r, e), Added(e.serial, e.tree.platformId));
    assert r'.log[..|r.log|] == r.log;
    assert Serials(r'.devices) == Serials(r.devices) + [e.serial];
  }

  lemma {:induction false} RemoveExplained(r: Registry, serial: nat, id: Option<string>)
    requires Explained(r) && r.done && serial in Serials(r.devices)
    ensures Explained(Emit(r, Removed(serial, id)).(devices := WithoutEntry(r.devices, serial)))
  {
    var r' := Emit(r, Removed(serial, id)).(devices := WithoutEntry(r.devices, serial));
    assert r'.log[..|r.log|] == r.log;
    SerialsWithout(r.devices, serial);
    WithoutElements(Serials(r.devices), serial);
    forall i | 0 <= i < |r'.devices| ensures r'.devices[i].serial < r.next {
      assert r'.devices[i] in r.devices;
    }
  }

  lemma {:induction false} ChangeExplained(r: Registry, serial: nat, id: Option<string>)
    requires Explained(r) && r.done && serial in Serials(r.devices)
    ensures Explained(Emit(r, Changed(serial, id)))
  {
    assert Emit(r, Changed(serial, id)).log[..|r.log|] == r.log;
  }

  // ---- hotplug and polling ----

  lemma {:induction false} AddDeviceExplained(r: Registry, hw: Hardware)
    requires Explained(r) && r.done && hw.tree.platformId !in r.waiting
    ensures Explained(AddDevice(r, hw))
  {
    hide Explained;
    AddExplained(r, Entry(r.next, hw.bus, hw.address, hw.tree));
  }

  lemma {:induction false} RemoveDeviceExplained(r: Registry, hw: Hardware)
    requires Explained(r) && r.done && r.waiting == map[]
    ensures Explained(RemoveDevice(r, hw))
  {
    var at := FindByAddress(r.devices, hw.bus, hw.address);
    if at.Some? {
      var e := r.devices[at.value];
      assert Serials(r.devices)[at.value] == e.serial;
      RemoveExplained(r, e.serial, e.tree.platformId);
    }
  }

  lemma {:induction false} DropMissingExplained(r: Registry, existing: seq<Entry>, list: seq<Hardware>)
    requires Explained(r) && r.done && r.waiting == map[]
    requires Distinct(Serials(existing)) && forall i :: 0 <= i < |existing| ==> existing[i].serial in Serials(r.devices)
    ensures Explained(DropMissing(r, existing, list))
    ensures DropMissing(r, existing, list) ==
            r.(devices := DropMissing(r, existing, list).devices, log := DropMissing(r, existing, list).log)
    decreases existing
  {
    if existing != [] {
      var e := existing[0];
      var r' := if OnBus(list, e) then r
                else Emit(r, Removed(e.serial, e.tree.platformId)).(devices := WithoutEntry(r.devices, e.serial));
      RemoveExplained(r, e.serial, e.tree.platformId);
      SerialsWithout(r.devices, e.serial);
      WithoutElements(Serials(r.devices), e.serial);
      hide Explained;
      assert forall i :: 0 <= i < |existing| - 1 ==> Serials(existing)[i + 1] == existing[1..][i].serial;
      assert Distinct(Serials(existing[1..]));
      assert forall i :: 0 <= i < |existing| - 1 ==> existing[1..][i].serial != e.serial;
      DropMissingExplained(r', existing[1..], list);
    }
  }

  lemma {:induction false} AddAllExplained(r: Registry, list: seq<Hardware>)
    requires Explained(r) && r.done && r.waiting == map[]
    ensures Explained(AddAll(r, list)) && AddAll(r, list).done && AddAll(r, list).waiting == map[]
    decreases list
  {
    if list != [] {
      AddDeviceExplained(r, list[0]);
      hide Explained;
      AddAllExplained(AddDevice(r, list[0]), list[1..]);
    }
  }

  lemma {:induction false} ReversedElements(s: seq<Entry>)
    ensures |Reversed(s)| == |s|
    ensures forall i :: 0 <= i < |s| ==> Reversed(s)[i] == s[|s| - 1 - i]
  {
    if s != [] {
      ReversedElements(s[1..]);
    }
  }

  lemma {:induction false} RescanExplained(r: Registry, list: seq<Hardware>)
    requires Explained(r) && r.done && r.waiting == map[]
    ensures Explained(Rescan(r, list)) && Rescan(r, list).done && Rescan(r, list).waiting == map[]
  {
    ReversedElements(r.devices);
    var existing := Reversed(r.devices);
    assert forall i :: 0 <= i < |existing| ==> Serials(r.devices)[|existing| - 1 - i] == existing[i].serial;
    assert Distinct(Serials(existing));
    DropMissingExplained(r, existing, list);
    AddAllExplained(DropMissing(r, existing, list), list);
  }

  // ---- the first enumeration ----

  lemma {:induction false} QuietAddAll(r: Registry, list: seq<Hardware>)
    requires Numbered(r) && !r.done && r.log == [] && r.waiting == map[]
    ensures var r' := AddAll(r, list); Numbered(r') && !r'.done && r'.log == [] && r'.waiting == map[]
    decreases list
  {
    if list != [] {
      var r' := AddDevice(r, list[0]);
      assert r' == r || Serials(r'.devices) == Serials(r.devices) + [r.next];
      QuietAddAll(r', list[1..]);
    }
  }

  lemma {:induction false} AnnouncedExplained(s: seq<Entry>)
    requires Distinct(Serials(s))
    ensures Legal(Announced(s)) && Present(Announced(s)) == Serials(s)
  {
    if s != [] {
      var n := |s| - 1;
      assert Serials(s) == Serials(s[..n]) + [s[n].serial];
      assert forall i, j :: 0 <= i < j < n ==> Serials(s)[i] != Serials(s)[j];
      AnnouncedExplained(s[..n]);
      assert Announced(s)[..n] == Announced(s[..n]);
      assert forall i :: 0 <= i < n ==> Serials(s)[i] != Serials(s)[n];
    }
  }

  lemma {:induction false} AnnouncedNumbered(r: Registry)
    requires Numbered(r)
    ensures Numbered(r.(log := Announced(r.devices)))
  {
    hide Distinct;
  }

  lemma {:induction false} EnumerateExplained(r: Registry, list: seq<Hardware>)
    requires Explained(r) && r.waiting == map[]
    ensures Explained(Enumerate(r, list)) && Enumerate(r, list).done && Enumerate(r, list).waiting == map[]
  {
    if !r.done {
      assert Reversed(r.devices) == [];
      assert Rescan(r, list) == AddAll(r, list);
      QuietAddAll(r, list);
      var r' := Rescan(r, list);
      AnnouncedExplained(r'.devices);
      AnnouncedNumbered(r');
      hide Rescan, AddAll, Reversed, Announced, Legal, Present, Distinct;
      assert r'.log + Announced(r'.devices) == Announced(r'.devices);
    }
  }

  // ---- loading ----

  ghost function Over(r: Registry, l: Loading): Registry {
    r.(devices := l.devices, log := l.log)
  }

  /** The devices still to be matched are listed, each once. */
  ghost predicate Pending(l: Loading) {
    Distinct(l.stale) && forall x :: x in l.stale ==> x in Serials(l.devices)
  }

  lemma {:induction false} SelectedAreListed(s: seq<Entry>, tag: Option<string>)
    requires Distinct(Serials(s))
    ensures Distinct(SelectedSerials(s, tag))
    ensures forall x :: x in SelectedSerials(s, tag) ==> x in Serials(s)
  {
    if s != [] {
      assert Serials(s) == [s[0].serial] + Serials(s[1..]);
      assert forall i :: 0 <= i < |s| - 1 ==> Serials(s[1..])[i] == Serials(s)[i + 1];
      SelectedAreListed(s[1..], tag);
      assert forall i :: 0 <= i < |s| - 1 ==> Serials(s[1..])[i] != s[0].serial;
      var rest := SelectedSerials(s[1..], tag);
      assert s[0].serial !in rest;
      assert SelectedSerials(s, tag) == (if Selected(s[0].tree, tag) then [s[0].serial] else []) + rest;
    }
  }

  lemma {:induction false} LoadOneExplained(r: Registry, l: Loading, tree: D.Tree, tag: Option<string>)
    requires r.done && Explained(Over(r, l)) && Pending(l)
    ensures var l' := LoadOne(l, tree, tag);
            Explained(Over(r, l')) && Pending(l') && Serials(l'.devices) == Serials(l.devices)
  {
    var l' := LoadOne(l, tree, tag);
    if Selected(tree, tag) && MatchesOld(l.devices, tree) {
      var i := FindByPlatformId(l.devices, tree.platformId).value;
      var e := l.devices[i];
      assert Serials(l'.devices) == Serials(l.devices);
      assert Serials(l.devices)[i] == e.serial;
      WithoutElements(l.stale, e.serial);
      ChangeExplained(Over(r, l), e.serial, e.tree.platformId);
      var c := Emit(Over(r, l), Changed(e.serial, e.tree.platformId));
      assert Over(r, l') == c.(devices := l'.devices);
      forall k | 0 <= k < |l'.devices| ensures l'.devices[k].serial < r.next {
        assert l'.devices[k].serial == l.devices[k].serial;
      }
    }
  }

  lemma {:induction false} LoadAllExplained(r: Registry, l: Loading, items: seq<Json>, tag: Option<string>, now: int)
    requires r.done && Explained(Over(r, l)) && Pending(l)
    ensures var l' := LoadAll(l, items, tag, now).1;
            Explained(Over(r, l')) && Pending(l') && Serials(l'.devices) == Serials(l.devices)
    decreases items
  {
    hide Explained, Pending, LoadOne;
    if items != [] {
      match D.LoadDevice(items[0], now)
      case None =>
      case Some(tree) =>
        LoadOneExplained(r, l, tree, tag);
        LoadAllExplained(r, LoadOne(l, tree, tag), items[1..], tag, now);
    }
  }

  lemma {:induction false} RemoveStaleExplained(r: Registry, stale: seq<nat>)
    requires r.done && Explained(r) && Distinct(stale) && forall x :: x in stale ==> x in Serials(r.devices)
    ensures var r' := RemoveStale(r, stale);
            Explained(r') && r' == r.(devices := r'.devices, log := r'.log)
    decreases stale
  {
    if stale != [] {
      var id := IdOf(r.devices, stale[0]);
      RemoveExplained(r, stale[0], id);
      SerialsWithout(r.devices, stale[0]);
      WithoutElements(Serials(r.devices), stale[0]);
      hide Explained;
      assert forall i :: 0 <= i < |stale| - 1 ==> stale[1..][i] == stale[i + 1];
      RemoveStaleExplained(Emit(r, Removed(stale[0], id)).(devices := WithoutEntry(r.devices, stale[0])), stale[1..]);
    }
  }

  lemma {:induction false} AddNewExplained(r: Registry, added: seq<D.Tree>)
    requires r.done && Explained(r)
    ensures Explained(AddNew(r, added)) && AddNew(r, added).done && AddNew(r, added).waiting == r.waiting
    decreases added
  {
    if added != [] {
      var e := Entry(r.next, 0, 0, added[0]);
      AddExplained(r, e);
      hide Explained;
      AddNewExplained(Emit(Append(r, e), Added(r.next, added[0].platformId)), added[1..]);
    }
  }

  /** Whether or not the load succeeds. */
  lemma {:induction false} LoadContextExplained(r: Registry, doc: Members, tag: Option<string>, now: int)
    requires Explained(r)
    ensures var r' := LoadContext(r, doc, tag, now).1;
            Explained(r') && r'.done && r'.waiting == r.waiting
  {
    var r' := r.(done := true);
    if UsbDevices in doc {
      var start := Loading(r.devices, SelectedSerials(r.devices, tag), r.log, []);
      SelectedAreListed(r.devices, tag);
      assert Over(r', start) == r';
      LoadAllExplained(r', start, GetItems(doc, UsbDevices), tag, now);
      var (ok, l) := LoadAll(start, GetItems(doc, UsbDevices), tag, now);
      var r'' := r'.(devices := l.devices, log := l.log);
      assert Over(r', l) == r'';
      if ok {
        RemoveStaleExplained(r'', l.stale);
        hide Explained;
        AddNewExplained(RemoveStale(r'', l.stale), l.added);
      }
    }
  }

  // ---- every run ----

  /** What can happen to a context on its main thread. */
  datatype Step =
    | Enumerated(list: seq<Hardware>)
    | Arrived(hw: Hardware)
    | Left(hw: Hardware)
    | Polled(list: seq<Hardware>)
    | Loaded(doc: Members, tag: Option<string>, now: int)

  /** Hotplug events are dropped, and the poll timer is not started, before the first enumeration. */
  function Apply(r: Registry, step: Step): Registry {
    match step
    case Enumerated(list) => Enumerate(r, list)
    case Arrived(hw) => if r.done then AddDevice(r, hw) else r
    case Left(hw) => if r.done then RemoveDevice(r, hw) else r
    case Polled(list) => if r.done then Rescan(r, list) else r
    case Loaded(doc, tag, now) => LoadContext(r, doc, tag, now).1
  }

  function Run(r: Registry, steps: seq<Step>): Registry
    decreases steps
  {
    if steps == [] then r else Run(Apply(r, steps[0]), steps[1..])
  }

  lemma {:induction false} StepExplained(r: Registry, step: Step)
    requires Explained(r) && r.waiting == map[]
    ensures Explained(Apply(r, step)) && Apply(r, step).waiting == map[]
  {
    hide Explained;
    match step
    case Enumerated(list) => EnumerateExplained(r, list);
    case Arrived(hw) => if r.done { AddDeviceExplained(r, hw); }
    case Left(hw) => if r.done { RemoveDeviceExplained(r, hw); }
    case Polled(list) => if r.done { RescanExplained(r, list); }
    case Loaded(doc, tag, now) => LoadContextExplained(r, doc, tag, now);
  }

  lemma {:induction false} RunExplained(r: Registry, steps: seq<Step>)
    requires Explained(r) && r.waiting == map[]
    ensures Explained(Run(r, steps))
    decreases steps
  {
    if steps != [] {
      StepExplained(r, steps[0]);
      hide Explained;
      RunExplained(Apply(r, steps[0]), steps[1..]);
    }
  }

  lemma {:induction false} InitExplained(saving: bool)
    ensures Explained(Init(saving)) && Init(saving).waiting == map[]
  {
    assert Serials([]) == [];
  }

  /** Folding the signals of any run gives the list itself, in order, and every signal was in its place. */
  lemma {:induction false} LogExplainsList(saving: bool, steps: seq<Step>)
    ensures var r := Run(Init(saving), steps);
            Present(r.log) == Serials(r.devices) && Distinct(Serials(r.devices)) && Legal(r.log)
  {
    hide Init, Run, Legal, Present;
    InitExplained(saving);
    RunExplained(Init(saving), steps);
  }

  // ---- what a legal log promises about one object ----

  predicate AddedAt(log: seq<Signal>, i: nat, serial: nat) {
    i < |log| && log[i].Added? && log[i].serial == serial
  }

  predicate RemovedAt(log: seq<Signal>, i: nat, serial: nat) {
    i < |log| && log[i].Removed? && log[i].serial == serial
  }

  /** Present means added and not removed. */
  lemma {:induction false} PresentMeans(log: seq<Signal>, serial: nat)
    requires Legal(log)
    ensures Distinct(Present(log))
    ensures serial in Present(log) <==>
            (exists i :: AddedAt(log, i, serial)) && !(exists i :: RemovedAt(log, i, serial))
  {
    if log != [] {
      var n := |log| - 1;
      var before := log[..n];
      PresentMeans(before, serial);
      PresentMeans(before, log[n].serial);
      assert forall i :: AddedAt(log, i, serial) <==>
                        AddedAt(before, i, serial) || (i == n && AddedAt(log, n, serial));
      assert forall i :: RemovedAt(log, i, serial) <==>
                        RemovedAt(before, i, serial) || (i == n && RemovedAt(log, n, serial));
      match log[n]
      case Added(x, _) =>
        assert forall i :: 0 <= i < n ==> before[i].serial != x;
        assert x !in Present(before);
        assert Present(log) == Present(before) + [x];
        assert serial == x ==> AddedAt(log, n, serial);
      case Removed(x, _) =>
        WithoutElements(Present(before), x);
        assert serial == x ==> RemovedAt(log, n, serial);
      case Changed(_, _) =>
    }
  }

  lemma {:induction false} LegalPrefix(log: seq<Signal>, n: nat)
    requires Legal(log) && n <= |log|
    ensures Legal(log[..n])
  {
    if n < |log| {
      LegalPrefix(log[..|log| - 1], n);
      assert log[..|log| - 1][..n] == log[..n];
    } else {
      assert log[..n] == log;
    }
  }

  /** An object is added before anything else is said of it, and its removal is the last thing said. */
  lemma {:induction false} LifeOfAnObject(log: seq<Signal>, j: nat)
    requires Legal(log) && j < |log|
    ensures log[j].Added? ==> forall i :: 0 <= i < j ==> log[i].serial != log[j].serial
    ensures !log[j].Added? ==>
            (exists i: nat :: i < j && AddedAt(log, i, log[j].serial)) &&
            forall i: nat :: i < j ==> !RemovedAt(log, i, log[j].serial)
  {
    LegalPrefix(log, j + 1);
    var upTo := log[..j + 1];
    assert upTo[..j] == log[..j];
    if !log[j].Added? {
      PresentMeans(log[..j], log[j].serial);
      var i :| AddedAt(log[..j], i, log[j].serial);
      assert AddedAt(log, i, log[j].serial);
      forall k: nat | k < j ensures !RemovedAt(log, k, log[j].serial) {
        assert !RemovedAt(log[..j], k, log[j].serial);
      }
    } else {
      assert forall i :: 0 <= i < j ==> log[..j][i].serial != log[j].serial;
    }
  }

  // ---- enumeration is never undone ----

  lemma {:induction false} DropMissingDone(r: Registry, existing: seq<Entry>, list: seq<Hardware>)
    ensures DropMissing(r, existing, list).done == r.done
    decreases existing
  {
    if existing != [] {
      var e := existing[0];
      DropMissingDone(
        if OnBus(list, e) then r
        else Emit(r, Removed(e.serial, e.tree.platformId)).(devices := WithoutEntry(r.devices, e.serial)),
        existing[1..], list);
    }
  }

  lemma {:induction false} AddAllDone(r: Registry, list: seq<Hardware>)
    ensures AddAll(r, list).done == r.done
    decreases list
  {
    if list != [] {
      AddAllDone(AddDevice(r, list[0]), list[1..]);
    }
  }

  lemma {:induction false} RemoveStaleDone(r: Registry, stale: seq<nat>)
    ensures RemoveStale(r, stale).done == r.done
    decreases stale
  {
    if stale != [] {
      var id := IdOf(r.devices, stale[0]);
      RemoveStaleDone(Emit(r, Removed(stale[0], id)).(devices := WithoutEntry(r.devices, stale[0])), stale[1..]);
    }
  }

  lemma {:induction false} AddNewDone(r: Registry, added: seq<D.Tree>)
    ensures AddNew(r, added).done == r.done
    decreases added
  {
    if added != [] {
      AddNewDone(Emit(Append(r, Entry(r.next, 0, 0, added[0])), Added(r.next, added[0].platformId)), added[1..]);
    }
  }

  lemma {:induction false} DoneStays(r: Registry, step: Step)
    ensures r.done || step.Enumerated? || step.Loaded? ==> Apply(r, step).done
  {
    match step
    case Polled(list) =>
      DropMissingDone(r, Reversed(r.devices), list);
      AddAllDone(DropMissing(r, Reversed(r.devices), list), list);
    case Loaded(doc, tag, now) =>
      var start := Loading(r.devices, SelectedSerials(r.devices, tag), r.log, []);
      var (ok, l) := LoadAll(start, GetItems(doc, UsbDevices), tag, now);
      var r' := r.(done := true, devices := l.devices, log := l.log);
      RemoveStaleDone(r', l.stale);
      AddNewDone(RemoveStale(r', l.stale), l.added);
    case _ =>
  }
}
