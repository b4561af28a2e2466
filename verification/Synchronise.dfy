/** Loading a document makes the selected devices of a context those of the document. */
module Synchronise {
  import opened Basics
  import opened Json
  import opened Registry
  import opened SignalLog
  import D = Device

  // ---- what a load should do, entry by entry ----

  /** The elements before the first that does not load. */
  function Trees(items: seq<Json>, now: int): seq<D.Tree> {
    if items == [] then []
    else match D.LoadDevice(items[0], now)
      case None => []
      case Some(tree) => [tree] + Trees(items[1..], now)
  }

  /** The entry is selected and is the known device at i, made at the same time. */
  predicate Hits(devices: seq<Entry>, i: nat, tree: D.Tree, tag: Option<string>) {
    Selected(tree, tag) && MatchesOld(devices, tree) && FindByPlatformId(devices, tree.platformId) == Some(i)
  }

  function Changes(devices: seq<Entry>, trees: seq<D.Tree>, tag: Option<string>): seq<Signal> {
    if trees == [] then []
    else
      var rest := Changes(devices, trees[1..], tag);
      if Selected(trees[0], tag) && MatchesOld(devices, trees[0]) then
        var e := devices[FindByPlatformId(devices, trees[0].platformId).value];
        [Changed(e.serial, e.tree.platformId)] + rest
      else rest
  }

  function New(devices: seq<Entry>, trees: seq<D.Tree>, tag: Option<string>): seq<D.Tree> {
    if trees == [] then []
    else
      var rest := New(devices, trees[1..], tag);
      if Selected(trees[0], tag) && !MatchesOld(devices, trees[0]) then [trees[0]] + rest else rest
  }

  function Chosen(trees: seq<D.Tree>, tag: Option<string>): seq<D.Tree> {
    if trees == [] then []
    else (if Selected(trees[0], tag) then [trees[0]] else []) + Chosen(trees[1..], tag)
  }

  /** The last entry that hits the device at i. */
  function LastHit(devices: seq<Entry>, i: nat, trees: seq<D.Tree>, tag: Option<string>): (k: Option<nat>)
    ensures k.Some? ==> k.value < |trees| && Hits(devices, i, trees[k.value], tag) &&
                        forall j :: k.value < j < |trees| ==> !Hits(devices, i, trees[j], tag)
    ensures k.None? ==> forall j :: 0 <= j < |trees| ==> !Hits(devices, i, trees[j], tag)
  {
    if trees == [] then None
    else
      var n := |trees| - 1;
      if Hits(devices, i, trees[n], tag) then Some(n) else LastHit(devices, i, trees[..n], tag)
  }

  /** The device at i, with the events of the last entry that hits it. */
  function Update(devices: seq<Entry>, i: nat, trees: seq<D.Tree>, tag: Option<string>): Entry
    requires i < |devices|
  {
    match LastHit(devices, i, trees, tag)
    case None => devices[i]
    case Some(k) => devices[i].(tree := devices[i].tree.(events := trees[k].events))
  }

  function Updated(devices: seq<Entry>, trees: seq<D.Tree>, tag: Option<string>): (r: seq<Entry>)
    ensures |r| == |devices| && forall i :: 0 <= i < |r| ==> r[i] == Update(devices, i, trees, tag)
  {
    seq(|devices|, i requires 0 <= i < |devices| => Update(devices, i, trees, tag))
  }

  function Outside(s: seq<nat>, gone: set<nat>): seq<nat> {
    if s == [] then [] else (if s[0] in gone then [] else [s[0]]) + Outside(s[1..], gone)
  }

  function Kept(s: seq<Entry>, gone: set<nat>): seq<Entry> {
    if s == [] then [] else (if s[0].serial in gone then [] else [s[0]]) + Kept(s[1..], gone)
  }

  function Touched(changes: seq<Signal>): set<nat> {
    set i | 0 <= i < |changes| :: changes[i].serial
  }

  function SetOf(s: seq<nat>): set<nat> { set x | x in s }

  /** The selected devices that no selected entry hits, in order. */
  function Stale(devices: seq<Entry>, trees: seq<D.Tree>, tag: Option<string>): seq<nat> {
    Outside(SelectedSerials(devices, tag), Touched(Changes(devices, trees, tag)))
  }

  function Removals(devices: seq<Entry>, stale: seq<nat>): (r: seq<Signal>)
    ensures |r| == |stale| && forall i :: 0 <= i < |r| ==> r[i] == Removed(stale[i], IdOf(devices, stale[i]))
  {
    seq(|stale|, i requires 0 <= i < |stale| => Removed(stale[i], IdOf(devices, stale[i])))
  }

  function Fresh(next: nat, added: seq<D.Tree>): (r: seq<Entry>)
    ensures |r| == |added|
  {
    seq(|added|, i requires 0 <= i < |added| => Entry(next + i, 0, 0, added[i]))
  }

  // ---- lists of serials ----

  lemma {:induction false} OutsideElements(s: seq<nat>, gone: set<nat>)
    ensures forall x :: x in Outside(s, gone) <==> x in s && x !in gone
    ensures Distinct(s) ==> Distinct(Outside(s, gone))
  {
    if s != [] {
      OutsideElements(s[1..], gone);
      assert s == [s[0]] + s[1..];
      if Distinct(s) {
        assert forall i :: 0 <= i < |s| - 1 ==> s[1..][i] == s[i + 1];
        assert s[0] !in s[1..];
        assert s[0] !in Outside(s[1..], gone);
      }
    }
  }

  lemma {:induction false} OutsideNothing(s: seq<nat>)
    ensures Outside(s, {}) == s
  {
    if s != [] {
      OutsideNothing(s[1..]);
    }
  }

  lemma {:induction false} OutsideTwice(s: seq<nat>, x: nat, gone: set<nat>)
    requires Distinct(s)
    ensures Outside(Without(s, x), gone) == Outside(s, {x} + gone)
  {
    if s != [] {
      assert forall i :: 0 <= i < |s| - 1 ==> s[1..][i] == s[i + 1];
      if s[0] == x {
        assert x !in s[1..];
        SameOutside(s[1..], gone, {x} + gone);
      } else {
        OutsideTwice(s[1..], x, gone);
        assert Without(s, x)[1..] == Without(s[1..], x);
      }
    }
  }

  lemma {:induction false} SameOutside(s: seq<nat>, a: set<nat>, b: set<nat>)
    requires forall x :: x in s ==> (x in a <==> x in b)
    ensures Outside(s, a) == Outside(s, b)
  {
    if s != [] {
      assert forall x :: x in s[1..] ==> x in s;
      SameOutside(s[1..], a, b);
    }
  }

  // ---- the loop over the document ----

  /** Alike but for their events. */
  ghost predicate SameHeads(a: seq<Entry>, b: seq<Entry>) {
    |a| == |b| && forall i :: 0 <= i < |a| ==> a[i] == b[i].(tree := b[i].tree.(events := a[i].tree.events))
  }

  lemma {:induction false} SameFind(a: seq<Entry>, b: seq<Entry>, id: Option<string>)
    requires SameHeads(a, b)
    ensures FindByPlatformId(a, id) == FindByPlatformId(b, id)
  {
    var i := FindByPlatformId(a, id);
    var j := FindByPlatformId(b, id);
    assert forall k :: 0 <= k < |a| ==> a[k].tree.platformId == b[k].tree.platformId;
    if i.Some? && j.Some? {
      assert !(i.value < j.value) && !(j.value < i.value);
    }
  }

  lemma {:induction false} SameDecisions(a: seq<Entry>, b: seq<Entry>, trees: seq<D.Tree>, tag: Option<string>)
    requires SameHeads(a, b)
    ensures Changes(a, trees, tag) == Changes(b, trees, tag) && New(a, trees, tag) == New(b, trees, tag)
  {
    if trees != [] {
      SameFind(a, b, trees[0].platformId);
      SameDecisions(a, b, trees[1..], tag);
    }
  }

  function LoadTrees(l: Loading, trees: seq<D.Tree>, tag: Option<string>): Loading
    decreases trees
  {
    if trees == [] then l else LoadTrees(LoadOne(l, trees[0], tag), trees[1..], tag)
  }

  lemma {:induction false} LoadsTrees(l: Loading, items: seq<Json>, tag: Option<string>, now: int)
    ensures var trees := Trees(items, now);
            |trees| <= |items| && LoadAll(l, items, tag, now) == (|trees| == |items|, LoadTrees(l, trees, tag))
    decreases items
  {
    if items != [] {
      match D.LoadDevice(items[0], now)
      case None =>
      case Some(tree) =>
        LoadsTrees(LoadOne(l, tree, tag), items[1..], tag, now);
        assert Trees(items, now)[1..] == Trees(items[1..], now);
    }
  }

  lemma {:induction false} LoadOneHeads(l: Loading, tree: D.Tree, tag: Option<string>)
    ensures SameHeads(LoadOne(l, tree, tag).devices, l.devices)
  {
  }

  lemma {:induction false} Associate<T>(a: seq<T>, x: T, b: seq<T>)
    ensures (a + [x]) + b == a + ([x] + b)
  {
  }

  lemma {:induction false} LoadOneLog(l: Loading, trees: seq<D.Tree>, tag: Option<string>)
    requires trees != []
    ensures LoadOne(l, trees[0], tag).log + Changes(l.devices, trees[1..], tag) == l.log + Changes(l.devices, trees, tag)
    ensures LoadOne(l, trees[0], tag).added + New(l.devices, trees[1..], tag) == l.added + New(l.devices, trees, tag)
  {
    hide Selected, FindByPlatformId;
    var changes := Changes(l.devices, trees[1..], tag);
    if MatchesOld(l.devices, trees[0]) {
      var e := l.devices[FindByPlatformId(l.devices, trees[0].platformId).value];
      Associate(l.log, Changed(e.serial, e.tree.platformId), changes);
    } else {
      Associate(l.added, trees[0], New(l.devices, trees[1..], tag));
    }
  }

  lemma {:induction false} LogAfter(l: Loading, trees: seq<D.Tree>, tag: Option<string>)
    ensures var l' := LoadTrees(l, trees, tag);
            && l'.log == l.log + Changes(l.devices, trees, tag)
            && l'.added == l.added + New(l.devices, trees, tag)
    decreases trees
  {
    if trees == [] {
      assert Changes(l.devices, trees, tag) == [] && New(l.devices, trees, tag) == [];
    } else {
      hide SameHeads, LoadOne, Changes, New;
      var l1 := LoadOne(l, trees[0], tag);
      LoadOneHeads(l, trees[0], tag);
      LoadOneLog(l, trees, tag);
      SameDecisions(l1.devices, l.devices, trees[1..], tag);
      LogAfter(l1, trees[1..], tag);
    }
  }

  lemma {:induction false} StaleAfter(l: Loading, trees: seq<D.Tree>, tag: Option<string>)
    requires Distinct(l.stale)
    ensures LoadTrees(l, trees, tag).stale == Outside(l.stale, Touched(Changes(l.devices, trees, tag)))
    decreases trees
  {
    if trees == [] {
      OutsideNothing(l.stale);
      assert Touched(Changes(l.devices, trees, tag)) == {};
    } else {
      var l1 := LoadOne(l, trees[0], tag);
      var changes := Changes(l.devices, trees[1..], tag);
      LoadOneHeads(l, trees[0], tag);
      SameDecisions(l1.devices, l.devices, trees[1..], tag);
      hide SameHeads, Touched, Distinct, Outside;
      if Selected(trees[0], tag) && MatchesOld(l.devices, trees[0]) {
        var e := l.devices[FindByPlatformId(l.devices, trees[0].platformId).value];
        WithoutElements(l.stale, e.serial);
        OutsideTwice(l.stale, e.serial, Touched(changes));
        TouchedMore(Changed(e.serial, e.tree.platformId), changes);
      }
      StaleAfter(l1, trees[1..], tag);
    }
  }

  lemma {:induction false} TouchedMore(c: Signal, changes: seq<Signal>)
    ensures Touched([c] + changes) == {c.serial} + Touched(changes)
  {
    var all := [c] + changes;
    assert all[0] == c;
    forall x | x in {c.serial} + Touched(changes) ensures x in Touched(all) {
      if x != c.serial {
        var i :| 0 <= i < |changes| && changes[i].serial == x;
        assert all[i + 1].serial == x;
      }
    }
  }

  lemma {:induction false} EventsAfter(l: Loading, trees: seq<D.Tree>, tag: Option<string>)
    ensures LoadTrees(l, trees, tag).devices == Updated(l.devices, trees, tag)
    decreases trees
  {
    if trees == [] {
      assert Updated(l.devices, trees, tag) == l.devices;
    } else {
      var l1 := LoadOne(l, trees[0], tag);
      EventsAfter(l1, trees[1..], tag);
      forall i | 0 <= i < |l.devices|
        ensures Update(l1.devices, i, trees[1..], tag) == Update(l.devices, i, trees, tag)
      {
        UpdateFirst(l.devices, l1.devices, i, trees, tag);
      }
      assert Updated(l1.devices, trees[1..], tag) == Updated(l.devices, trees, tag);
    }
  }

  /** Taking the first entry in and then the others is taking them all in. */
  lemma {:induction false} UpdateFirst(a: seq<Entry>, b: seq<Entry>, i: nat, trees: seq<D.Tree>, tag: Option<string>)
    requires SameHeads(b, a) && i < |a| && trees != []
    requires b[i] == if Hits(a, i, trees[0], tag) then a[i].(tree := a[i].tree.(events := trees[0].events)) else a[i]
    ensures Update(b, i, trees[1..], tag) == Update(a, i, trees, tag)
  {
    forall k | 0 <= k < |trees| ensures Hits(a, i, trees[k], tag) == Hits(b, i, trees[k], tag) {
      SameFind(a, b, trees[k].platformId);
    }
    hide Hits;
    var late := LastHit(b, i, trees[1..], tag);
    var all := LastHit(a, i, trees, tag);
    assert forall k :: 0 <= k < |trees| - 1 ==> trees[1..][k] == trees[k + 1];
    if late.Some? {
      assert Hits(a, i, trees[late.value + 1], tag);
      assert all.Some? && all.value == late.value + 1;
    }
  }

  // ---- the removals and the additions ----

  lemma {:induction false} SameKept(s: seq<Entry>, a: set<nat>, b: set<nat>)
    requires forall x :: x in Serials(s) ==> (x in a <==> x in b)
    ensures Kept(s, a) == Kept(s, b)
  {
    if s != [] {
      assert Serials(s)[0] == s[0].serial;
      assert Serials(s)[1..] == Serials(s[1..]);
      assert forall x :: x in Serials(s)[1..] ==> x in Serials(s);
      SameKept(s[1..], a, b);
    }
  }

  lemma {:induction false} KeptTwice(s: seq<Entry>, x: nat, gone: set<nat>)
    requires Distinct(Serials(s))
    ensures Kept(WithoutEntry(s, x), gone) == Kept(s, {x} + gone)
  {
    if s != [] {
      assert Serials(s)[1..] == Serials(s[1..]);
      assert forall i :: 0 <= i < |s| - 1 ==> Serials(s[1..])[i] == Serials(s)[i + 1];
      if s[0].serial == x {
        assert Serials(s)[0] == x;
        assert x !in Serials(s[1..]);
        SameKept(s[1..], gone, {x} + gone);
      } else {
        KeptTwice(s[1..], x, gone);
        assert WithoutEntry(s, x)[1..] == WithoutEntry(s[1..], x);
      }
    }
  }

  lemma {:induction false} IdOfOthers(s: seq<Entry>, x: nat, y: nat)
    requires x != y
    ensures IdOf(WithoutEntry(s, x), y) == IdOf(s, y)
  {
    if s != [] {
      IdOfOthers(s[1..], x, y);
      if s[0].serial != x {
        assert WithoutEntry(s, x)[1..] == WithoutEntry(s[1..], x);
      }
    }
  }

  lemma {:induction false} KeptAll(s: seq<Entry>)
    ensures Kept(s, {}) == s
  {
    if s != [] {
      KeptAll(s[1..]);
    }
  }

  lemma {:induction false} RemovalsFirst(devices: seq<Entry>, stale: seq<nat>)
    requires stale != [] && Distinct(stale)
    ensures Removals(devices, stale) ==
            [Removed(stale[0], IdOf(devices, stale[0]))] + Removals(WithoutEntry(devices, stale[0]), stale[1..])
  {
    var x, rest := stale[0], stale[1..];
    forall i | 0 <= i < |rest|
      ensures Removals(WithoutEntry(devices, x), rest)[i] == Removals(devices, stale)[i + 1]
    {
      IdOfOthers(devices, x, rest[i]);
    }
  }

  lemma {:induction false} RemovesStale(r: Registry, stale: seq<nat>)
    requires r.done && Distinct(Serials(r.devices)) && Distinct(stale)
    ensures RemoveStale(r, stale) ==
            r.(devices := Kept(r.devices, SetOf(stale)), log := r.log + Removals(r.devices, stale))
    decreases stale
  {
    if stale == [] {
      KeptAll(r.devices);
      assert SetOf(stale) == {};
    } else {
      var x, rest := stale[0], stale[1..];
      assert Distinct(rest) by {
        assert forall i :: 0 <= i < |rest| ==> rest[i] == stale[i + 1];
      }
      assert SetOf(stale) == {x} + SetOf(rest) by {
        assert stale == [x] + rest;
      }
      SerialsWithout(r.devices, x);
      WithoutElements(Serials(r.devices), x);
      RemovalsFirst(r.devices, stale);
      KeptTwice(r.devices, x, SetOf(rest));
      hide Distinct, SetOf, Removals, Kept, WithoutEntry, IdOf;
      var r1 := Emit(r, Removed(x, IdOf(r.devices, x))).(devices := WithoutEntry(r.devices, x));
      RemovesStale(r1, rest);
      Associate(r.log, Removed(x, IdOf(r.devices, x)), Removals(r1.devices, rest));
    }
  }

  lemma {:induction false} FreshFirst(next: nat, added: seq<D.Tree>)
    requires added != []
    ensures Fresh(next, added) == [Entry(next, 0, 0, added[0])] + Fresh(next + 1, added[1..])
  {
  }

  lemma {:induction false} AnnouncedFirst(e: Entry, s: seq<Entry>)
    ensures Announced([e] + s) == [Added(e.serial, e.tree.platformId)] + Announced(s)
  {
  }

  function AddFirst(r: Registry, tree: D.Tree): Registry {
    Emit(Append(r, Entry(r.next, 0, 0, tree)), Added(r.next, tree.platformId))
  }

  lemma {:induction false} PushFront<T>(s: seq<T>, x: T, rest: seq<T>, all: seq<T>)
    requires all == [x] + rest
    ensures (s + [x]) + rest == s + all
  {
  }

  lemma {:induction false} AddsDevices(r: Registry, added: seq<D.Tree>)
    ensures AddNew(r, added).devices == r.devices + Fresh(r.next, added)
    decreases added
  {
    if added != [] {
      var r1 := AddFirst(r, added[0]);
      var e := Entry(r.next, 0, 0, added[0]);
      assert r1.devices == r.devices + [e];
      assert r1.next == r.next + 1;
      FreshFirst(r.next, added);
      PushFront(r.devices, e, Fresh(r1.next, added[1..]), Fresh(r.next, added));
      AddsDevices(r1, added[1..]);
    }
  }

  lemma {:induction false} AddsSignals(r: Registry, added: seq<D.Tree>)
    requires r.done
    ensures AddNew(r, added).log == r.log + Announced(Fresh(r.next, added))
    decreases added
  {
    if added == [] {
      assert Fresh(r.next, added) == [] && Announced([]) == [];
    } else {
      hide Fresh, Announced;
      var r1 := AddFirst(r, added[0]);
      var signal := Added(r.next, added[0].platformId);
      var arrivals := Fresh(r1.next, added[1..]);
      assert r1.log == r.log + [signal];
      FreshFirst(r.next, added);
      AnnouncedFirst(Entry(r.next, 0, 0, added[0]), arrivals);
      PushFront(r.log, signal, Announced(arrivals), Announced(Fresh(r.next, added)));
      AddsSignals(r1, added[1..]);
    }
  }

  lemma {:induction false} AddsOnly(r: Registry, added: seq<D.Tree>)
    ensures AddNew(r, added) ==
            r.(devices := AddNew(r, added).devices, log := AddNew(r, added).log, next := r.next + |added|)
    decreases added
  {
    if added != [] {
      AddsOnly(AddFirst(r, added[0]), added[1..]);
    }
  }

  lemma {:induction false} AddsNew(r: Registry, added: seq<D.Tree>)
    requires r.done
    ensures AddNew(r, added) ==
            r.(devices := r.devices + Fresh(r.next, added), next := r.next + |added|,
               log := r.log + Announced(Fresh(r.next, added)))
  {
    hide AddNew, Announced;
    AddsDevices(r, added);
    AddsSignals(r, added);
    AddsOnly(r, added);
  }

  // ---- a whole load ----

  /** The document loads exactly when each of its elements does. */
  lemma {:induction false} TreesOfAll(items: seq<Json>, now: int)
    ensures |Trees(items, now)| <= |items|
    ensures |Trees(items, now)| == |items| <==> forall i :: 0 <= i < |items| ==> D.LoadDevice(items[i], now).Some?
    ensures forall i :: 0 <= i < |Trees(items, now)| ==> D.LoadDevice(items[i], now) == Some(Trees(items, now)[i])
  {
    hide D.LoadDevice;
    if items != [] && D.LoadDevice(items[0], now).Some? {
      var rest := items[1..];
      TreesOfAll(rest, now);
      assert forall i :: 0 <= i < |rest| ==> items[i + 1] == rest[i];
      forall i | 0 <= i < |Trees(items, now)| ensures D.LoadDevice(items[i], now) == Some(Trees(items, now)[i]) {
        assert i > 0 ==> D.LoadDevice(rest[i - 1], now) == Some(Trees(rest, now)[i - 1]);
      }
    }
  }

  /** The new state of a context, whether the load succeeds or stops at an element that does not load. */
  lemma {:induction false} LoadSynchronises(r: Registry, doc: Members, tag: Option<string>, now: int)
    requires Distinct(Serials(r.devices))
    ensures
      var (ok, r') := LoadContext(r, doc, tag, now);
      var items := GetItems(doc, UsbDevices);
      var trees := Trees(items, now);
      var updated := Updated(r.devices, trees, tag);
      var log := r.log + Changes(r.devices, trees, tag);
      var stale := Stale(r.devices, trees, tag);
      var arrivals := Fresh(r.next, New(r.devices, trees, tag));
      && (ok <==> UsbDevices in doc && forall i :: 0 <= i < |items| ==> D.LoadDevice(items[i], now).Some?)
      && (ok ==> r' == r.(done := true, next := r.next + |arrivals|, devices := Kept(updated, SetOf(stale)) + arrivals,
                          log := log + Removals(r.devices, stale) + Announced(arrivals)))
      && (!ok && UsbDevices in doc ==> r' == r.(done := true, devices := updated, log := log))
      && (UsbDevices !in doc ==> r' == r.(done := true))
  {
    hide Distinct, Changes, New, Updated, Removals, Fresh, Announced, Kept, SetOf;
    var items := GetItems(doc, UsbDevices);
    var trees := Trees(items, now);
    TreesOfAll(items, now);
    if UsbDevices in doc {
      LoadsTrees(Loading(r.devices, SelectedSerials(r.devices, tag), r.log, []), items, tag, now);
      LoopSynchronises(r, trees, tag);
    }
  }

  lemma {:induction false} LoopSynchronises(r: Registry, trees: seq<D.Tree>, tag: Option<string>)
    requires Distinct(Serials(r.devices))
    ensures
      var l := LoadTrees(Loading(r.devices, SelectedSerials(r.devices, tag), r.log, []), trees, tag);
      var r1 := r.(done := true, devices := l.devices, log := l.log);
      var stale := Stale(r.devices, trees, tag);
      var arrivals := Fresh(r.next, New(r.devices, trees, tag));
      && l.devices == Updated(r.devices, trees, tag) && l.log == r.log + Changes(r.devices, trees, tag)
      && AddNew(RemoveStale(r1, l.stale), l.added) ==
         r1.(next := r.next + |arrivals|, devices := Kept(l.devices, SetOf(stale)) + arrivals,
             log := l.log + Removals(r.devices, stale) + Announced(arrivals))
  {
    hide Changes, New, Updated, Removals, Fresh, Announced, Kept, SetOf, Outside, RemoveStale, AddNew;
    hide FindByPlatformId, LoadTrees, SelectedSerials;
    var start := Loading(r.devices, SelectedSerials(r.devices, tag), r.log, []);
    var l := LoadTrees(start, trees, tag);
    SelectedAreListed(r.devices, tag);
    LogAfter(start, trees, tag);
    StaleAfter(start, trees, tag);
    EventsAfter(start, trees, tag);
    assert l.added == New(r.devices, trees, tag);
    OutsideElements(SelectedSerials(r.devices, tag), Touched(Changes(r.devices, trees, tag)));
    assert Serials(l.devices) == Serials(r.devices);
    SameRemovals(r.devices, l.devices, l.stale);
    RemovesThenAdds(r.(done := true, devices := l.devices, log := l.log), l.stale, l.added);
  }

  lemma {:induction false} RemovesThenAdds(r: Registry, stale: seq<nat>, added: seq<D.Tree>)
    requires r.done && Distinct(Serials(r.devices)) && Distinct(stale)
    ensures
      var arrivals := Fresh(r.next, added);
      AddNew(RemoveStale(r, stale), added) ==
      r.(next := r.next + |arrivals|, devices := Kept(r.devices, SetOf(stale)) + arrivals,
         log := r.log + Removals(r.devices, stale) + Announced(arrivals))
  {
    hide Removals, Announced, Kept, SetOf, RemoveStale, AddNew;
    RemovesStale(r, stale);
    AddsNew(RemoveStale(r, stale), added);
  }

  lemma {:induction false} SameRemovals(a: seq<Entry>, b: seq<Entry>, stale: seq<nat>)
    requires |a| == |b|
    requires forall i :: 0 <= i < |a| ==>
               a[i].serial == b[i].serial && a[i].tree.platformId == b[i].tree.platformId
    ensures Removals(a, stale) == Removals(b, stale)
  {
    forall i | 0 <= i < |stale| ensures IdOf(a, stale[i]) == IdOf(b, stale[i]) {
      SameIdOf(a, b, stale[i]);
    }
  }

  lemma {:induction false} SameIdOf(a: seq<Entry>, b: seq<Entry>, x: nat)
    requires |a| == |b|
    requires forall i :: 0 <= i < |a| ==>
               a[i].serial == b[i].serial && a[i].tree.platformId == b[i].tree.platformId
    ensures IdOf(a, x) == IdOf(b, x)
  {
    if a != [] {
      SameIdOf(a[1..], b[1..], x);
    }
  }

  /** Each selected entry is a change or an addition, and not both. */
  lemma {:induction false} ChangedOrAdded(devices: seq<Entry>, trees: seq<D.Tree>, tag: Option<string>)
    ensures |Changes(devices, trees, tag)| + |New(devices, trees, tag)| == |Chosen(trees, tag)|
  {
    if trees != [] {
      ChangedOrAdded(devices, trees[1..], tag);
    }
  }
}
