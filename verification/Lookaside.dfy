/** The removed devices a saving context keeps aside, over every run, and what a save writes. */
module Lookaside {
  import opened Basics
  import opened Json
  import opened Registry
  import opened SignalLog
  import opened LoadAgain
  import D = Device
  import Synchronise

  /** The first device at a bus and address. */
  ghost predicate FirstAt(s: seq<Entry>, i: nat, bus: Byte, address: Byte) {
    && i < |s| && s[i].bus == bus && s[i].address == address
    && forall k :: 0 <= k < i ==> s[k].bus != bus || s[k].address != address
  }

  ghost predicate NoneAt(s: seq<Entry>, bus: Byte, address: Byte) {
    forall k :: 0 <= k < |s| ==> s[k].bus != bus || s[k].address != address
  }

  /** A device that leaves is kept aside by a saving context, whether its platform id is waited for or not. */
  lemma {:induction false} RemovalIsKept(r: Registry, hw: Hardware)
    ensures forall i: nat :: FirstAt(r.devices, i, hw.bus, hw.address) ==>
              RemoveDevice(r, hw).removed == r.removed + if r.saving then [r.devices[i]] else []
    ensures NoneAt(r.devices, hw.bus, hw.address) ==> RemoveDevice(r, hw).removed == r.removed
  {
    var at := FindByAddress(r.devices, hw.bus, hw.address);
    forall i: nat | FirstAt(r.devices, i, hw.bus, hw.address)
      ensures RemoveDevice(r, hw).removed == r.removed + if r.saving then [r.devices[i]] else []
    {
      assert at.Some? && !(at.value < i) && !(i < at.value);
    }
  }

  /** A device that arrives is listed with its own bus, address and descriptors under a new serial. */
  lemma {:induction false} ArrivalIsListed(r: Registry, hw: Hardware)
    ensures hw.usable && (r.done ==> NoneAt(r.devices, hw.bus, hw.address)) ==>
              AddDevice(r, hw).devices == r.devices + [Entry(r.next, hw.bus, hw.address, hw.tree)] &&
              AddDevice(r, hw).next == r.next + 1
    ensures !hw.usable || (r.done && !NoneAt(r.devices, hw.bus, hw.address)) ==> AddDevice(r, hw) == r
    ensures AddDevice(r, hw).removed == r.removed && AddDevice(r, hw).saving == r.saving
  {
    var at := FindByAddress(r.devices, hw.bus, hw.address);
    if at.Some? {
      assert !NoneAt(r.devices, hw.bus, hw.address);
    }
  }

  // ---- no other step touches it ----

  /** Nothing but the given parts of the state has changed. */
  ghost predicate KeepsAside(was: Registry, now: Registry) {
    now.removed == was.removed && now.saving == was.saving
  }

  lemma {:induction false} DropMissingKeepsAside(r: Registry, existing: seq<Entry>, list: seq<Hardware>)
    ensures KeepsAside(r, DropMissing(r, existing, list))
    decreases existing
  {
    if existing != [] {
      var e := existing[0];
      DropMissingKeepsAside(
        if OnBus(list, e) then r
        else Emit(r, Removed(e.serial, e.tree.platformId)).(devices := WithoutEntry(r.devices, e.serial)),
        existing[1..], list);
    }
  }

  lemma {:induction false} AddAllKeepsAside(r: Registry, list: seq<Hardware>)
    ensures KeepsAside(r, AddAll(r, list))
    decreases list
  {
    if list != [] {
      AddAllKeepsAside(AddDevice(r, list[0]), list[1..]);
    }
  }

  lemma {:induction false} RemoveStaleKeepsAside(r: Registry, stale: seq<nat>)
    ensures KeepsAside(r, RemoveStale(r, stale))
    decreases stale
  {
    if stale != [] {
      RemoveStaleKeepsAside(
        Emit(r, Removed(stale[0], IdOf(r.devices, stale[0]))).(devices := WithoutEntry(r.devices, stale[0])), stale[1..]);
    }
  }

  lemma {:induction false} AddNewKeepsAside(r: Registry, added: seq<D.Tree>)
    ensures KeepsAside(r, AddNew(r, added))
    decreases added
  {
    if added != [] {
      AddNewKeepsAside(Emit(Append(r, Entry(r.next, 0, 0, added[0])), Added(r.next, added[0].platformId)), added[1..]);
    }
  }

  lemma {:induction false} StepKeepsAside(r: Registry, step: Step)
    requires !step.Left?
    ensures KeepsAside(r, Apply(r, step))
  {
    match step
    case Enumerated(list) =>
      DropMissingKeepsAside(r, Reversed(r.devices), list);
      AddAllKeepsAside(DropMissing(r, Reversed(r.devices), list), list);
    case Arrived(hw) =>
    case Polled(list) =>
      DropMissingKeepsAside(r, Reversed(r.devices), list);
      AddAllKeepsAside(DropMissing(r, Reversed(r.devices), list), list);
    case Loaded(doc, tag, now) =>
      var start := Loading(r.devices, SelectedSerials(r.devices, tag), r.log, []);
      var (ok, l) := LoadAll(start, GetItems(doc, UsbDevices), tag, now);
      var r' := r.(done := true, devices := l.devices, log := l.log);
      RemoveStaleKeepsAside(r', l.stale);
      AddNewKeepsAside(RemoveStale(r', l.stale), l.added);
  }

  // ---- every run ----

  /** The listed devices that hotplug took away, in order. */
  ghost function Departed(r: Registry, steps: seq<Step>): seq<Entry>
    decreases steps
  {
    if steps == [] then []
    else
      var gone := if steps[0].Left? && r.done then DepartedNow(r, steps[0].hw) else [];
      gone + Departed(Apply(r, steps[0]), steps[1..])
  }

  ghost function DepartedNow(r: Registry, hw: Hardware): seq<Entry> {
    if i: nat :| FirstAt(r.devices, i, hw.bus, hw.address) then [r.devices[i]] else []
  }

  lemma {:induction false} LeavingIsKept(r: Registry, hw: Hardware)
    requires r.done
    ensures Apply(r, Left(hw)).removed == r.removed + if r.saving then DepartedNow(r, hw) else []
    ensures Apply(r, Left(hw)).saving == r.saving
  {
    RemovalIsKept(r, hw);
    var at := FindByAddress(r.devices, hw.bus, hw.address);
    if at.Some? {
      assert FirstAt(r.devices, at.value, hw.bus, hw.address);
    }
  }

  lemma {:induction false} StepKeeps(r: Registry, step: Step)
    ensures var r' := Apply(r, step);
            && r'.saving == r.saving
            && r'.removed == r.removed + if r.saving && step.Left? && r.done then DepartedNow(r, step.hw) else []
  {
    if !step.Left? {
      StepKeepsAside(r, step);
    } else if r.done {
      LeavingIsKept(r, step.hw);
    }
  }

  /** A saving context keeps every departed device aside, once, in order, and any other none. */
  lemma {:induction false} DepartedAreKept(r: Registry, steps: seq<Step>)
    ensures Run(r, steps).removed == r.removed + if r.saving then Departed(r, steps) else []
    decreases steps
  {
    hide Apply, DepartedNow;
    if steps != [] {
      StepKeeps(r, steps[0]);
      DepartedAreKept(Apply(r, steps[0]), steps[1..]);
    }
  }

  // ---- departures and signals ----

  /** The objects reported as removed, in order. */
  function RemovedIn(log: seq<Signal>): seq<nat> {
    if log == [] then []
    else
      var n := |log| - 1;
      RemovedIn(log[..n]) + if log[n].Removed? then [log[n].serial] else []
  }

  lemma {:induction false} OneMoreSignal(log: seq<Signal>, signal: Signal)
    ensures RemovedIn(log + [signal]) == RemovedIn(log) + if signal.Removed? then [signal.serial] else []
  {
    assert (log + [signal])[..|log|] == log;
  }

  lemma {:induction false} NoneRemoved(log: seq<Signal>)
    requires forall i :: 0 <= i < |log| ==> !log[i].Removed?
    ensures RemovedIn(log) == []
  {
    if log != [] {
      NoneRemoved(log[..|log| - 1]);
    }
  }

  /** Polls and loads report removals of devices they do not keep. */
  predicate Keeping(step: Step) { !step.Polled? && !step.Loaded? }

  lemma {:induction false} StepReports(r: Registry, step: Step)
    requires Explained(r) && r.waiting == map[] && r.saving && Keeping(step)
    requires RemovedIn(r.log) == Serials(r.removed)
    ensures RemovedIn(Apply(r, step).log) == Serials(Apply(r, step).removed) && Apply(r, step).saving
  {
    var r' := Apply(r, step);
    match step
    case Enumerated(list) =>
      StepKeepsAside(r, step);
      EnumerationReports(r, list);
    case Arrived(hw) =>
      OneMoreSignal(r.log, Added(r.next, hw.tree.platformId));
    case Left(hw) =>
      var at := FindByAddress(r.devices, hw.bus, hw.address);
      if r.done && at.Some? {
        var e := r.devices[at.value];
        OneMoreSignal(r.log, Removed(e.serial, e.tree.platformId));
        assert Serials(r.removed + [e]) == Serials(r.removed) + [e.serial];
      }
  }

  lemma {:induction false} EnumerationReports(r: Registry, list: seq<Hardware>)
    requires Explained(r) && r.waiting == map[]
    ensures RemovedIn(Enumerate(r, list).log) == RemovedIn(r.log)
  {
    if !r.done {
      assert Rescan(r, list) == AddAll(r, list);
      QuietAddAll(r, list);
      var r' := Rescan(r, list);
      assert r'.log + Announced(r'.devices) == Announced(r'.devices);
      NoneRemoved(Announced(r'.devices));
    }
  }

  lemma {:induction false} RunReports(r: Registry, steps: seq<Step>)
    requires Explained(r) && r.waiting == map[] && r.saving && RemovedIn(r.log) == Serials(r.removed)
    requires forall i :: 0 <= i < |steps| ==> Keeping(steps[i])
    ensures RemovedIn(Run(r, steps).log) == Serials(Run(r, steps).removed)
    decreases steps
  {
    if steps != [] {
      hide Explained, Apply;
      StepExplained(r, steps[0]);
      StepReports(r, steps[0]);
      RunReports(Apply(r, steps[0]), steps[1..]);
    }
  }

  /** Without polls and loads the devices kept aside are those reported as removed, in order. */
  lemma {:induction false} KeptAreReported(steps: seq<Step>)
    requires forall i :: 0 <= i < |steps| ==> Keeping(steps[i])
    ensures var r := Run(Init(true), steps); RemovedIn(r.log) == Serials(r.removed)
  {
    InitExplained(true);
    assert RemovedIn([]) == Serials([]);
    hide Explained, Run;
    RunReports(Init(true), steps);
  }

  // ---- what a save writes ----

  lemma {:induction false} ChosenLast(trees: seq<D.Tree>, last: D.Tree, tag: Option<string>)
    ensures Synchronise.Chosen(trees + [last], tag) ==
            Synchronise.Chosen(trees, tag) + if tag.None? || tag.value in last.tags then [last] else []
  {
    if trees == [] {
      assert [] + [last] == [last] && [last][1..] == [];
    } else {
      assert (trees + [last])[1..] == trees[1..] + [last];
      ChosenLast(trees[1..], last, tag);
    }
  }

  lemma {:induction false} ChosenAt(trees: seq<D.Tree>, tag: Option<string>) returns (at: seq<nat>)
    ensures IsAt(Synchronise.Chosen(trees, tag), trees, at)
    ensures forall j: nat :: j < |trees| ==> (j in at <==> tag.None? || tag.value in trees[j].tags)
  {
    if trees == [] {
      at := [];
    } else {
      var n := |trees| - 1;
      at := ChosenAt(trees[..n], tag);
      assert trees == trees[..n] + [trees[n]];
      ChosenLast(trees[..n], trees[n], tag);
      hide Synchronise.Chosen;
      if tag.None? || tag.value in trees[n].tags {
        at := at + [n];
      }
    }
  }

  /** First the removed devices whatever their tags, if asked for. */
  lemma {:induction false} RemovedAreSaved(r: Registry, tag: Option<string>, withRemoved: bool)
    ensures var saved := SavedTrees(r, tag, withRemoved);
            var kept := if withRemoved then |r.removed| else 0;
            kept <= |saved| && forall k :: 0 <= k < kept ==> saved[k] == r.removed[k].tree
  {
    hide Synchronise.Chosen;
  }

  /** Then of the listed ones those with the tag, in order. */
  lemma {:induction false} SavedAt(r: Registry, tag: Option<string>, withRemoved: bool) returns (at: seq<nat>)
    ensures var saved := SavedTrees(r, tag, withRemoved);
            var kept := if withRemoved then |r.removed| else 0;
            kept <= |saved| && IsAt(saved[kept..], TreesOf(r.devices), at)
    ensures forall j: nat :: j < |r.devices| ==> (j in at <==> tag.None? || tag.value in r.devices[j].tree.tags)
  {
    RemovedAreSaved(r, tag, withRemoved);
    at := ChosenAt(TreesOf(r.devices), tag);
    hide Synchronise.Chosen, IsAt;
    var kept := if withRemoved then TreesOf(r.removed) else [];
    assert (kept + Synchronise.Chosen(TreesOf(r.devices), tag))[|kept|..] == Synchronise.Chosen(TreesOf(r.devices), tag);
  }

  /** The document holds one node for each of them, in order. */
  lemma {:induction false} DocumentHolds(trees: seq<D.Tree>)
    ensures var doc := Document(trees);
            && doc.Keys == {UsbDevices} && doc[UsbDevices].Arr? && |doc[UsbDevices].items| == |trees|
            && forall k :: 0 <= k < |trees| ==> doc[UsbDevices].items[k] == D.DeviceNode(trees[k])
  {
    hide D.DeviceNode;
  }
}
