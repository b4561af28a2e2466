/** What a load with a tag does to each listed device and with each entry, told by the tags themselves. */
module TaggedLoad {
  import opened Basics
  import opened Json
  import opened Registry
  import opened SignalLog
  import opened Synchronise
  import opened LoadAgain
  import D = Device

  /** An element of the document that loads as a tree with the tag; without a tag, as any tree. */
  ghost predicate Wanted(j: Json, now: int, tag: Option<string>, tree: D.Tree) {
    D.LoadDevice(j, now) == Some(tree) && (tag.None? || tag.value in tree.tags)
  }

  /** The device at i is the first with the tree's platform id, and made at the same time. */
  ghost predicate Means(devices: seq<Entry>, i: nat, tree: D.Tree) {
    && i < |devices| && devices[i].tree.platformId == tree.platformId && devices[i].tree.created == tree.created
    && forall k :: 0 <= k < i ==> devices[k].tree.platformId != tree.platformId
  }

  /** Some element before n is wanted and means the device at i. */
  ghost predicate Named(devices: seq<Entry>, i: nat, items: seq<Json>, n: nat, now: int, tag: Option<string>)
    requires n <= |items|
  {
    exists k, tree :: 0 <= k < n && Wanted(items[k], now, tag, tree) && Means(devices, i, tree)
  }

  lemma {:induction false} MeansIsMatched(devices: seq<Entry>, i: nat, tree: D.Tree)
    ensures Means(devices, i, tree) <==>
            MatchesOld(devices, tree) && FindByPlatformId(devices, tree.platformId) == Some(i)
  {
    var at := FindByPlatformId(devices, tree.platformId);
    if Means(devices, i, tree) {
      assert at.Some? && !(at.value < i) && !(i < at.value);
    }
  }

  /** Entries before the first element that does not load. */
  lemma {:induction false} NamedIsHit(devices: seq<Entry>, i: nat, items: seq<Json>, now: int, tag: Option<string>)
    ensures |Trees(items, now)| <= |items|
    ensures var trees := Trees(items, now);
            Named(devices, i, items, |trees|, now, tag) <==> exists k :: 0 <= k < |trees| && Hits(devices, i, trees[k], tag)
  {
    hide D.LoadDevice, FindByPlatformId, MatchesOld, Means;
    var trees := Trees(items, now);
    TreesOfAll(items, now);
    forall tree: D.Tree
      ensures Means(devices, i, tree) <==>
              MatchesOld(devices, tree) && FindByPlatformId(devices, tree.platformId) == Some(i)
    {
      MeansIsMatched(devices, i, tree);
    }
    if Named(devices, i, items, |trees|, now, tag) {
      var k, tree :| 0 <= k < |trees| && Wanted(items[k], now, tag, tree) && Means(devices, i, tree);
      assert Hits(devices, i, trees[k], tag);
    }
    if k :| 0 <= k < |trees| && Hits(devices, i, trees[k], tag) {
      assert Wanted(items[k], now, tag, trees[k]) && Means(devices, i, trees[k]);
    }
  }

  // ---- which devices stay ----

  /** A serial is stale exactly when its device has the tag and no wanted element means it. */
  lemma {:induction false} StaleTells(devices: seq<Entry>, i: nat, items: seq<Json>, tag: Option<string>, now: int)
    requires Distinct(Serials(devices)) && i < |devices|
    ensures var trees := Trees(items, now);
            |trees| <= |items| &&
            (devices[i].serial in Stale(devices, trees, tag) <==>
             (tag.None? || tag.value in devices[i].tree.tags) && !Named(devices, i, items, |trees|, now, tag))
  {
    hide Named, Means, Wanted, Distinct, Trees, FindByPlatformId;
    var trees := Trees(items, now);
    NamedIsHit(devices, i, items, now, tag);
    OutsideElements(SelectedSerials(devices, tag), Touched(Changes(devices, trees, tag)));
    SelectedMeans(devices, i, tag);
    TouchedMeans(devices, i, trees, tag);
  }

  lemma {:induction false} SelectedMeans(devices: seq<Entry>, i: nat, tag: Option<string>)
    requires Distinct(Serials(devices)) && i < |devices|
    ensures devices[i].serial in SelectedSerials(devices, tag) <==> tag.None? || tag.value in devices[i].tree.tags
  {
    SelectedComeFrom(devices, tag);
    if devices[i].serial in SelectedSerials(devices, tag) {
      var j :| 0 <= j < |devices| && Selected(devices[j].tree, tag) && devices[j].serial == devices[i].serial;
      SameSerial(devices, i, j);
    }
    if Selected(devices[i].tree, tag) {
      SelectedElements(devices, tag, i);
    }
  }

  lemma {:induction false} TouchedMeans(devices: seq<Entry>, i: nat, trees: seq<D.Tree>, tag: Option<string>)
    requires Distinct(Serials(devices)) && i < |devices|
    ensures devices[i].serial in Touched(Changes(devices, trees, tag)) <==>
            exists k :: 0 <= k < |trees| && Hits(devices, i, trees[k], tag)
  {
    hide Distinct, FindByPlatformId;
    TouchedElements(devices, trees, tag);
    if devices[i].serial in Touched(Changes(devices, trees, tag)) {
      var k :| 0 <= k < |trees| && Selected(trees[k], tag) && MatchesOld(devices, trees[k]) &&
               MatchedSerial(devices, trees[k]) == devices[i].serial;
      SameSerial(devices, i, FindByPlatformId(devices, trees[k].platformId).value);
      assert Hits(devices, i, trees[k], tag);
    }
    if k :| 0 <= k < |trees| && Hits(devices, i, trees[k], tag) {
      assert MatchedSerial(devices, trees[k]) == devices[i].serial;
    }
  }

  /** A device with this serial is listed. */
  ghost predicate Lists(s: seq<Entry>, serial: nat) {
    exists i :: 0 <= i < |s| && s[i].serial == serial
  }

  /** What the list is made of, whether or not the load goes through. */
  lemma {:induction false} AfterLoad(r: Registry, doc: Members, tag: Option<string>, now: int)
    requires Explained(r) && UsbDevices in doc
    ensures
      var (ok, r') := LoadContext(r, doc, tag, now);
      var items := GetItems(doc, UsbDevices);
      var trees := Trees(items, now);
      && |trees| <= |items| && (ok <==> |trees| == |items|)
      && (ok ==> r'.devices == After(r.devices, r.next, trees, tag))
      && (!ok ==> r'.devices == Updated(r.devices, trees, tag))
  {
    hide Trees, Updated, After, Kept, Fresh, New, Stale, Changes, Removals, LoadContext, D.LoadDevice;
    var items := GetItems(doc, UsbDevices);
    TreesOfAll(items, now);
    LoadSynchronises(r, doc, tag, now);
    assert After(r.devices, r.next, Trees(items, now), tag) ==
           Kept(Updated(r.devices, Trees(items, now), tag), SetOf(Stale(r.devices, Trees(items, now), tag))) +
           Fresh(r.next, New(r.devices, Trees(items, now), tag)) by {
      AfterMeans(r.devices, r.next, Trees(items, now), tag);
    }
  }

  lemma {:induction false} AfterMeans(devices: seq<Entry>, next: nat, trees: seq<D.Tree>, tag: Option<string>)
    ensures After(devices, next, trees, tag) ==
            Kept(Updated(devices, trees, tag), SetOf(Stale(devices, trees, tag))) + Fresh(next, New(devices, trees, tag))
  {
  }

  /** The old devices in the new list are those not stale, each updated; the others come after the old serials. */
  lemma {:induction false} AfterElements(devices: seq<Entry>, next: nat, trees: seq<D.Tree>, tag: Option<string>, e: Entry)
    requires Distinct(Serials(devices)) && forall i :: 0 <= i < |devices| ==> devices[i].serial < next
    ensures e in After(devices, next, trees, tag) && e.serial < next <==>
            exists i :: 0 <= i < |devices| && e == Update(devices, i, trees, tag) &&
                        devices[i].serial !in Stale(devices, trees, tag)
    ensures e in After(devices, next, trees, tag) && e.serial >= next <==> e in Fresh(next, New(devices, trees, tag))
  {
    hide Distinct, Kept, Stale, Update;
    var updated, stale := Updated(devices, trees, tag), Stale(devices, trees, tag);
    KeptElements(updated, SetOf(stale));
    FreshElements(next, New(devices, trees, tag));
    forall i | 0 <= i < |devices| ensures Update(devices, i, trees, tag).serial == devices[i].serial {
      UpdateKeeps(devices, i, trees, tag);
    }
    hide Fresh;
    assert forall i :: 0 <= i < |devices| ==> updated[i] == Update(devices, i, trees, tag) && updated[i] in updated;
  }

  lemma {:induction false} UpdateKeeps(devices: seq<Entry>, i: nat, trees: seq<D.Tree>, tag: Option<string>)
    requires i < |devices|
    ensures var e := Update(devices, i, trees, tag); e == devices[i].(tree := devices[i].tree.(events := e.tree.events))
  {
  }

  /**
   * A listed device without the tag stays. One with the tag stays after a successful load exactly when some
   * element with the tag names it by platform id and creation time, and after any other load.
   */
  lemma {:induction false} WhoStays(r: Registry, doc: Members, tag: Option<string>, now: int, i: nat)
    requires Explained(r) && UsbDevices in doc && i < |r.devices|
    ensures
      var (ok, r') := LoadContext(r, doc, tag, now);
      var items := GetItems(doc, UsbDevices);
      Lists(r'.devices, r.devices[i].serial) <==>
      !ok || (tag.Some? && tag.value !in r.devices[i].tree.tags) || Named(r.devices, i, items, |items|, now, tag)
  {
    hide Trees, Updated, After, Stale, LoadContext, Named, Distinct, Update, GetItems;
    var (ok, r') := LoadContext(r, doc, tag, now);
    var items := GetItems(doc, UsbDevices);
    var trees := Trees(items, now);
    AfterLoad(r, doc, tag, now);
    StaleTells(r.devices, i, items, tag, now);
    UpdateKeeps(r.devices, i, trees, tag);
    var e := Update(r.devices, i, trees, tag);
    if ok {
      AfterElements(r.devices, r.next, trees, tag, e);
      if Lists(r'.devices, r.devices[i].serial) {
        var k :| 0 <= k < |r'.devices| && r'.devices[k].serial == r.devices[i].serial;
        AfterElements(r.devices, r.next, trees, tag, r'.devices[k]);
        var j :| 0 <= j < |r.devices| && r'.devices[k] == Update(r.devices, j, trees, tag) &&
                 r.devices[j].serial !in Stale(r.devices, trees, tag);
        UpdateKeeps(r.devices, j, trees, tag);
        SameSerial(r.devices, i, j);
      }
    } else {
      assert r'.devices[i] == e;
    }
  }

  /** The element is the last, before the load stops, to name the device at i. */
  ghost predicate LastNamed(devices: seq<Entry>, i: nat, items: seq<Json>, k: nat, n: nat, now: int,
                            tag: Option<string>, tree: D.Tree)
    requires n <= |items|
  {
    && k < n && Wanted(items[k], now, tag, tree) && Means(devices, i, tree)
    && forall m, t :: k < m < n && Wanted(items[m], now, tag, t) ==> !Means(devices, i, t)
  }

  /** A device that stays is unaltered, but for the events of the last element that names it. */
  lemma {:induction false} HowItStays(r: Registry, doc: Members, tag: Option<string>, now: int, i: nat, e: Entry)
    requires Explained(r) && UsbDevices in doc && i < |r.devices|
    requires e in LoadContext(r, doc, tag, now).1.devices && e.serial == r.devices[i].serial
    ensures
      var items := GetItems(doc, UsbDevices);
      var n := |Trees(items, now)|;
      n <= |items| &&
      if Named(r.devices, i, items, n, now, tag) then
        exists k, tree :: LastNamed(r.devices, i, items, k, n, now, tag, tree) &&
                          e == r.devices[i].(tree := r.devices[i].tree.(events := tree.events))
      else e == r.devices[i]
  {
    hide Updated, After, Stale, LoadContext, Distinct, GetItems;
    var (ok, r') := LoadContext(r, doc, tag, now);
    var items := GetItems(doc, UsbDevices);
    var trees := Trees(items, now);
    AfterLoad(r, doc, tag, now);
    ItIsUpdated(r, trees, tag, i, e, ok, r'.devices);
    UpdateTells(r.devices, i, items, now, tag);
  }

  lemma {:induction false} ItIsUpdated(
    r: Registry, trees: seq<D.Tree>, tag: Option<string>, i: nat, e: Entry, ok: bool, s: seq<Entry>)
    requires Explained(r) && i < |r.devices| && e in s && e.serial == r.devices[i].serial
    requires s == if ok then After(r.devices, r.next, trees, tag) else Updated(r.devices, trees, tag)
    ensures e == Update(r.devices, i, trees, tag)
  {
    hide After, Stale, Distinct, Update;
    var j: nat;
    if ok {
      AfterElements(r.devices, r.next, trees, tag, e);
      j :| 0 <= j < |r.devices| && e == Update(r.devices, j, trees, tag) &&
           r.devices[j].serial !in Stale(r.devices, trees, tag);
    } else {
      j :| 0 <= j < |s| && s[j] == e;
    }
    UpdateKeeps(r.devices, j, trees, tag);
    SameSerial(r.devices, i, j);
  }

  lemma {:induction false} UpdateTells(devices: seq<Entry>, i: nat, items: seq<Json>, now: int, tag: Option<string>)
    requires i < |devices|
    ensures
      var trees := Trees(items, now);
      var n := |trees|;
      var e := Update(devices, i, trees, tag);
      n <= |items| &&
      if Named(devices, i, items, n, now, tag) then
        exists k, tree :: LastNamed(devices, i, items, k, n, now, tag, tree) &&
                          e == devices[i].(tree := devices[i].tree.(events := tree.events))
      else e == devices[i]
  {
    hide D.LoadDevice, FindByPlatformId, MatchesOld, Means, Trees;
    var trees := Trees(items, now);
    TreesOfAll(items, now);
    NamedIsHit(devices, i, items, now, tag);
    forall tree: D.Tree
      ensures Means(devices, i, tree) <==>
              MatchesOld(devices, tree) && FindByPlatformId(devices, tree.platformId) == Some(i)
    {
      MeansIsMatched(devices, i, tree);
    }
    var last := LastHit(devices, i, trees, tag);
    if last.Some? {
      var k := last.value;
      assert D.LoadDevice(items[k], now) == Some(trees[k]);
      forall m, t | k < m < |trees| && Wanted(items[m], now, tag, t) ensures !Means(devices, i, t) {
        assert t == trees[m] && !Hits(devices, i, trees[m], tag);
      }
      assert LastNamed(devices, i, items, k, |trees|, now, tag, trees[k]);
    }
  }

  /**
   * The devices with a new serial are the trees of elements with the tag that name no listed device, and every
   * such element has its device; they report bus 0 and address 0 and there is none unless the load goes through.
   */
  lemma {:induction false} WhoComes(r: Registry, doc: Members, tag: Option<string>, now: int, tree: D.Tree)
    requires Explained(r) && UsbDevices in doc
    ensures
      var (ok, r') := LoadContext(r, doc, tag, now);
      var items := GetItems(doc, UsbDevices);
      && (forall e :: e in r'.devices && e.serial >= r.next ==> e.bus == 0 && e.address == 0)
      && ((exists e :: e in r'.devices && e.serial >= r.next && e.tree == tree) <==>
          ok && (exists k :: 0 <= k < |items| && Wanted(items[k], now, tag, tree)) &&
          forall i: nat :: !Means(r.devices, i, tree))
  {
    hide Updated, Stale, LoadContext, Distinct, GetItems, D.LoadDevice, Kept, FindByPlatformId, After, Trees;
    var (ok, r') := LoadContext(r, doc, tag, now);
    var items := GetItems(doc, UsbDevices);
    var trees := Trees(items, now);
    var added := New(r.devices, trees, tag);
    AfterLoad(r, doc, tag, now);
    TreesOfAll(items, now);
    if ok {
      NewElements(r.devices, trees, tag);
      FreshElements(r.next, added);
      forall e: Entry ensures e in r'.devices && e.serial >= r.next <==> e in Fresh(r.next, added) {
        AfterElements(r.devices, r.next, trees, tag, e);
      }
      UnknownMeans(r.devices, tree);
      WantedIsThere(items, now, tag, tree);
      if tree in added {
        var m :| 0 <= m < |added| && added[m] == tree;
        assert Fresh(r.next, added)[m] in Fresh(r.next, added);
      }
    } else {
      forall e | e in r'.devices ensures e.serial < r.next {
        var i :| 0 <= i < |r'.devices| && r'.devices[i] == e;
        UpdateKeeps(r.devices, i, trees, tag);
      }
    }
  }

  lemma {:induction false} UnknownMeans(devices: seq<Entry>, tree: D.Tree)
    ensures MatchesOld(devices, tree) <==> exists i: nat :: Means(devices, i, tree)
  {
    if MatchesOld(devices, tree) {
      MeansIsMatched(devices, FindByPlatformId(devices, tree.platformId).value, tree);
    }
    if i: nat :| Means(devices, i, tree) {
      MeansIsMatched(devices, i, tree);
    }
  }

  lemma {:induction false} WantedIsThere(items: seq<Json>, now: int, tag: Option<string>, tree: D.Tree)
    requires |Trees(items, now)| == |items|
    ensures (exists k :: 0 <= k < |items| && Wanted(items[k], now, tag, tree)) <==>
            tree in Trees(items, now) && (tag.None? || tag.value in tree.tags)
  {
    hide D.LoadDevice;
    var trees := Trees(items, now);
    TreesOfAll(items, now);
    if tree in trees {
      var k :| 0 <= k < |trees| && trees[k] == tree;
      assert D.LoadDevice(items[k], now) == Some(tree);
    }
  }
}
