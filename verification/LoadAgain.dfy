/** When loading a document a second time changes nothing; a saved context is read back as it was. */
module LoadAgain {
  import opened Basics
  import opened Json
  import opened Registry
  import opened SignalLog
  import opened Synchronise
  import D = Device

  /** A selected entry that matches no device is alone with its platform id, among entries and unselected devices. */
  ghost predicate Alone(devices: seq<Entry>, trees: seq<D.Tree>, tag: Option<string>) {
    NoTwins(devices, trees, tag) && NoDoubles(devices, trees, tag)
  }

  ghost predicate NoTwins(devices: seq<Entry>, trees: seq<D.Tree>, tag: Option<string>) {
    forall i, k :: 0 <= i < |devices| && 0 <= k < |trees| ==> !Twin(devices, trees, tag, i, k)
  }

  ghost predicate NoDoubles(devices: seq<Entry>, trees: seq<D.Tree>, tag: Option<string>) {
    forall j, k :: 0 <= j < |trees| && 0 <= k < |trees| ==> !Double(devices, trees, tag, j, k)
  }

  predicate IsNew(devices: seq<Entry>, tree: D.Tree, tag: Option<string>) {
    Selected(tree, tag) && !MatchesOld(devices, tree)
  }

  /** A selected entry with the platform id of another one that matches no device. */
  predicate Double(devices: seq<Entry>, trees: seq<D.Tree>, tag: Option<string>, j: nat, k: nat)
    requires j < |trees| && k < |trees|
  {
    && j != k && Selected(trees[j], tag) && IsNew(devices, trees[k], tag)
    && trees[j].platformId == trees[k].platformId
  }

  /** An unselected device with the platform id of a selected entry that matches no device. */
  predicate Twin(devices: seq<Entry>, trees: seq<D.Tree>, tag: Option<string>, i: nat, k: nat)
    requires i < |devices| && k < |trees|
  {
    && IsNew(devices, trees[k], tag)
    && !Selected(devices[i].tree, tag) && devices[i].tree.platformId == trees[k].platformId
  }

  /** Each selected entry is in the list, each selected device is the one of some entry, and no device changes. */
  ghost predicate Settled(devices: seq<Entry>, trees: seq<D.Tree>, tag: Option<string>) {
    && (forall k :: 0 <= k < |trees| && Selected(trees[k], tag) ==> MatchesOld(devices, trees[k]))
    && (forall i :: 0 <= i < |devices| && Selected(devices[i].tree, tag) ==>
          exists k :: 0 <= k < |trees| && Hits(devices, i, trees[k], tag))
    && (forall i :: 0 <= i < |devices| ==> Update(devices, i, trees, tag) == devices[i])
  }

  // ---- what belongs to the lists of a load ----

  lemma {:induction false} KeptElements(s: seq<Entry>, gone: set<nat>)
    ensures forall e :: e in Kept(s, gone) <==> e in s && e.serial !in gone
  {
    if s != [] {
      KeptElements(s[1..], gone);
      assert s == [s[0]] + s[1..];
    }
  }

  lemma {:induction false} NewElements(devices: seq<Entry>, trees: seq<D.Tree>, tag: Option<string>)
    ensures forall t :: t in New(devices, trees, tag) <==> t in trees && Selected(t, tag) && !MatchesOld(devices, t)
  {
    hide FindByPlatformId;
    if trees != [] {
      NewElements(devices, trees[1..], tag);
      assert trees == [trees[0]] + trees[1..];
    }
  }

  lemma {:induction false} SelectedElements(s: seq<Entry>, tag: Option<string>, i: nat)
    requires i < |s| && Selected(s[i].tree, tag)
    ensures s[i].serial in SelectedSerials(s, tag)
  {
    if i > 0 {
      SelectedElements(s[1..], tag, i - 1);
    }
  }

  /** The serial of the device an entry matches. */
  function MatchedSerial(devices: seq<Entry>, t: D.Tree): nat
    requires MatchesOld(devices, t)
  {
    devices[FindByPlatformId(devices, t.platformId).value].serial
  }

  lemma {:induction false} TouchedElements(devices: seq<Entry>, trees: seq<D.Tree>, tag: Option<string>)
    ensures forall x :: x in Touched(Changes(devices, trees, tag)) <==>
              exists k :: 0 <= k < |trees| && Selected(trees[k], tag) && MatchesOld(devices, trees[k]) &&
                          MatchedSerial(devices, trees[k]) == x
  {
    hide FindByPlatformId, Selected, MatchesOld;
    if trees != [] {
      var rest := Changes(devices, trees[1..], tag);
      TouchedElements(devices, trees[1..], tag);
      if Selected(trees[0], tag) && MatchesOld(devices, trees[0]) {
        TouchedMore(Changes(devices, trees, tag)[0], rest);
      }
      forall k | 0 <= k < |trees| && Selected(trees[k], tag) && MatchesOld(devices, trees[k])
        ensures MatchedSerial(devices, trees[k]) in Touched(Changes(devices, trees, tag))
      {
        assert k > 0 ==> trees[1..][k - 1] == trees[k];
      }
    }
  }

  // ---- the list after a load ----

  function After(devices: seq<Entry>, next: nat, trees: seq<D.Tree>, tag: Option<string>): seq<Entry> {
    Kept(Updated(devices, trees, tag), SetOf(Stale(devices, trees, tag))) + Fresh(next, New(devices, trees, tag))
  }

  /** A selected device is kept only if an entry hits it. */
  lemma {:induction false} KeptIsHit(devices: seq<Entry>, trees: seq<D.Tree>, tag: Option<string>, e: Entry)
    returns (j: nat, k: nat)
    requires Distinct(Serials(devices))
    requires e in Kept(Updated(devices, trees, tag), SetOf(Stale(devices, trees, tag))) && Selected(e.tree, tag)
    ensures j < |devices| && k < |trees| && Hits(devices, j, trees[k], tag) && e == Update(devices, j, trees, tag)
  {
    hide Kept, Outside, Touched, Changes, SelectedSerials;
    var updated := Updated(devices, trees, tag);
    KeptElements(updated, SetOf(Stale(devices, trees, tag)));
    OutsideElements(SelectedSerials(devices, tag), Touched(Changes(devices, trees, tag)));
    j :| 0 <= j < |updated| && updated[j] == e;
    SelectedElements(devices, tag, j);
    TouchedElements(devices, trees, tag);
    k :| 0 <= k < |trees| && Selected(trees[k], tag) && MatchesOld(devices, trees[k]) &&
         MatchedSerial(devices, trees[k]) == e.serial;
    var i := FindByPlatformId(devices, trees[k].platformId).value;
    assert Serials(devices)[i] == Serials(devices)[j];
    assert i == j;
  }

  lemma {:induction false} HitIsKept(devices: seq<Entry>, trees: seq<D.Tree>, tag: Option<string>, j: nat, k: nat)
    requires Distinct(Serials(devices))
    requires j < |devices| && k < |trees| && Hits(devices, j, trees[k], tag)
    ensures Update(devices, j, trees, tag) in Kept(Updated(devices, trees, tag), SetOf(Stale(devices, trees, tag)))
  {
    var updated := Updated(devices, trees, tag);
    KeptElements(updated, SetOf(Stale(devices, trees, tag)));
    OutsideElements(SelectedSerials(devices, tag), Touched(Changes(devices, trees, tag)));
    TouchedElements(devices, trees, tag);
    assert MatchedSerial(devices, trees[k]) == devices[j].serial;
    assert updated[j] == Update(devices, j, trees, tag);
  }

  lemma {:induction false} SameEntry(devices: seq<Entry>, trees: seq<D.Tree>, tag: Option<string>, j: nat, k: nat)
    requires NoDoubles(devices, trees, tag) && j < |trees| && k < |trees|
    requires Selected(trees[j], tag) && IsNew(devices, trees[k], tag) && trees[j].platformId == trees[k].platformId
    ensures j == k
  {
    assert !Double(devices, trees, tag, j, k);
  }

  // ---- finding an entry in the new list ----

  lemma {:induction false} FindKept(s: seq<Entry>, gone: set<nat>, id: Option<string>)
    requires var at := FindByPlatformId(s, id); at.Some? && s[at.value].serial !in gone
    ensures var at := FindByPlatformId(Kept(s, gone), id);
            at.Some? && Kept(s, gone)[at.value] == s[FindByPlatformId(s, id).value]
  {
    var rest := Kept(s[1..], gone);
    if s[0].tree.platformId == id {
      assert Kept(s, gone)[0] == s[0];
    } else {
      FindKept(s[1..], gone, id);
      if s[0].serial in gone {
        assert Kept(s, gone) == rest;
      } else {
        assert Kept(s, gone) == [s[0]] + rest;
        hide Kept;
        assert Kept(s, gone)[1..] == rest;
      }
    }
  }

  lemma {:induction false} FindAppended(a: seq<Entry>, b: seq<Entry>, id: Option<string>)
    ensures var at, all := FindByPlatformId(a, id), FindByPlatformId(a + b, id);
            && (at.Some? ==> all == at)
            && (at.None? && all.Some? ==> (a + b)[all.value] in b)
            && (at.None? && all.None? ==> forall i :: 0 <= i < |b| ==> b[i].tree.platformId != id)
  {
    var at, all := FindByPlatformId(a, id), FindByPlatformId(a + b, id);
    assert forall i :: 0 <= i < |b| ==> (a + b)[|a| + i] == b[i];
    if at.Some? {
      assert (a + b)[at.value] == a[at.value];
      assert all.Some? && !(all.value < at.value) && !(at.value < all.value);
    } else if all.Some? {
      assert all.value >= |a|;
      assert (a + b)[all.value] == b[all.value - |a|];
    }
  }

  /** A matched entry finds the device it matched, as the load left it. */
  lemma {:induction false} MatchedIsFound(devices: seq<Entry>, next: nat, trees: seq<D.Tree>, tag: Option<string>, k: nat)
    requires Distinct(Serials(devices))
    requires k < |trees| && Selected(trees[k], tag) && MatchesOld(devices, trees[k])
    ensures var after := After(devices, next, trees, tag);
            var i := FindByPlatformId(devices, trees[k].platformId).value;
            var at := FindByPlatformId(after, trees[k].platformId);
            at.Some? && after[at.value] == Update(devices, i, trees, tag)
  {
    hide Distinct;
    var updated, gone := Updated(devices, trees, tag), SetOf(Stale(devices, trees, tag));
    var i := FindByPlatformId(devices, trees[k].platformId).value;
    SameFind(updated, devices, trees[k].platformId);
    HitIsKept(devices, trees, tag, i, k);
    hide Stale;
    KeptElements(updated, gone);
    FindKept(updated, gone, trees[k].platformId);
    FindAppended(Kept(updated, gone), Fresh(next, New(devices, trees, tag)), trees[k].platformId);
  }

  lemma {:induction false} FreshElements(next: nat, added: seq<D.Tree>)
    ensures forall e :: e in Fresh(next, added) ==> e.tree in added && e.serial >= next
    ensures forall i :: 0 <= i < |added| ==> Fresh(next, added)[i] == Entry(next + i, 0, 0, added[i])
  {
  }

  /** What is kept with the id of an entry that matches nothing is unselected. */
  lemma {:induction false} KeptIsTwin(devices: seq<Entry>, trees: seq<D.Tree>, tag: Option<string>, k: nat, e: Entry)
    returns (i: nat)
    requires Distinct(Serials(devices)) && NoDoubles(devices, trees, tag)
    requires k < |trees| && IsNew(devices, trees[k], tag)
    requires e in Kept(Updated(devices, trees, tag), SetOf(Stale(devices, trees, tag)))
    requires e.tree.platformId == trees[k].platformId
    ensures i < |devices| && Twin(devices, trees, tag, i, k)
  {
    hide Distinct, NoDoubles;
    if Selected(e.tree, tag) {
      var j, m := KeptIsHit(devices, trees, tag, e);
      SameEntry(devices, trees, tag, m, k);
      assert false;
    }
    var updated := Updated(devices, trees, tag);
    KeptElements(updated, SetOf(Stale(devices, trees, tag)));
    i :| 0 <= i < |updated| && updated[i] == e;
    assert e == Update(devices, i, trees, tag);
  }

  /** Alone, an entry that matched nothing finds the new device made of it. */
  lemma {:induction false} NewIsFound(devices: seq<Entry>, next: nat, trees: seq<D.Tree>, tag: Option<string>, k: nat)
    requires Distinct(Serials(devices)) && Alone(devices, trees, tag)
    requires k < |trees| && IsNew(devices, trees[k], tag)
    ensures var after := After(devices, next, trees, tag);
            var at := FindByPlatformId(after, trees[k].platformId);
            at.Some? && after[at.value].tree == trees[k] && after[at.value] in Fresh(next, New(devices, trees, tag))
  {
    hide Distinct, NoDoubles;
    var id, added := trees[k].platformId, New(devices, trees, tag);
    var kept := Kept(Updated(devices, trees, tag), SetOf(Stale(devices, trees, tag)));
    var found := FindByPlatformId(kept, id);
    if found.Some? {
      var i := KeptIsTwin(devices, trees, tag, k, kept[found.value]);
      assert false;
    }
    hide NoTwins, Kept, Updated, Stale;
    NewElements(devices, trees, tag);
    FreshElements(next, added);
    FindAppended(kept, Fresh(next, added), id);
    var m :| 0 <= m < |added| && added[m] == trees[k];
    assert Fresh(next, added)[m].tree.platformId == id;
    var at := FindByPlatformId(kept + Fresh(next, added), id).value;
    var e := (kept + Fresh(next, added))[at];
    var j :| 0 <= j < |trees| && trees[j] == e.tree;
    SameEntry(devices, trees, tag, j, k);
  }

  lemma {:induction false} LoadSettles(devices: seq<Entry>, next: nat, trees: seq<D.Tree>, tag: Option<string>)
    requires Distinct(Serials(devices)) && Alone(devices, trees, tag)
    requires Distinct(Serials(After(devices, next, trees, tag)))
    ensures Settled(After(devices, next, trees, tag), trees, tag)
  {
    hide Distinct, Alone;
    var after := After(devices, next, trees, tag);
    forall k | 0 <= k < |trees| && Selected(trees[k], tag) ensures MatchesOld(after, trees[k]) {
      if MatchesOld(devices, trees[k]) {
        MatchedIsFound(devices, next, trees, tag, k);
      } else {
        NewIsFound(devices, next, trees, tag, k);
      }
    }
    forall i | 0 <= i < |after| && Selected(after[i].tree, tag)
      ensures exists k :: 0 <= k < |trees| && Hits(after, i, trees[k], tag)
    {
      SelectedIsFound(devices, next, trees, tag, i);
    }
    forall i | 0 <= i < |after| ensures Update(after, i, trees, tag) == after[i] {
      StaysAsUpdated(devices, next, trees, tag, i);
    }
  }

  /** The last entry to hit a device in the second load is the one whose events it has. */
  lemma {:induction false} StaysAsUpdated(devices: seq<Entry>, next: nat, trees: seq<D.Tree>, tag: Option<string>, i: nat)
    requires Distinct(Serials(devices)) && Alone(devices, trees, tag) && i < |After(devices, next, trees, tag)|
    ensures var after := After(devices, next, trees, tag); Update(after, i, trees, tag) == after[i]
  {
    hide Distinct, Alone, After;
    var after := After(devices, next, trees, tag);
    var last := LastHit(after, i, trees, tag);
    if last.Some? {
      var k := last.value;
      if MatchesOld(devices, trees[k]) {
        MatchedIsFound(devices, next, trees, tag, k);
        var f := FindByPlatformId(devices, trees[k].platformId).value;
        assert Hits(devices, f, trees[k], tag);
        var first := LastHit(devices, f, trees, tag).value;
        assert Hits(after, i, trees[first], tag);
        assert first == k;
      } else {
        NewIsFound(devices, next, trees, tag, k);
      }
    }
  }

  lemma {:induction false} NewDiffer(devices: seq<Entry>, trees: seq<D.Tree>, tag: Option<string>)
    requires NoDoubles(devices, trees, tag)
    ensures forall i, j :: 0 <= i < j < |New(devices, trees, tag)| ==>
              New(devices, trees, tag)[i].platformId != New(devices, trees, tag)[j].platformId
  {
    hide MatchesOld, Selected;
    if trees != [] {
      var rest := trees[1..];
      assert forall i :: 0 <= i < |rest| ==> rest[i] == trees[i + 1];
      forall j, k | 0 <= j < |rest| && 0 <= k < |rest| ensures !Double(devices, rest, tag, j, k) {
        assert !Double(devices, trees, tag, j + 1, k + 1);
      }
      NewDiffer(devices, rest, tag);
      NewElements(devices, rest, tag);
      forall t | t in New(devices, rest, tag) && Selected(trees[0], tag) ensures t.platformId != trees[0].platformId {
        var k :| 0 <= k < |rest| && rest[k] == t;
        assert !Double(devices, trees, tag, 0, k + 1);
      }
    }
  }

  lemma {:induction false} NewOnce(
    devices: seq<Entry>, next: nat, trees: seq<D.Tree>, tag: Option<string>, a: Entry, b: Entry)
    requires NoDoubles(devices, trees, tag) && a.tree == b.tree
    requires a in Fresh(next, New(devices, trees, tag)) && b in Fresh(next, New(devices, trees, tag))
    ensures a == b
  {
    hide NoDoubles;
    var added := New(devices, trees, tag);
    NewDiffer(devices, trees, tag);
    FreshElements(next, added);
    var i :| 0 <= i < |added| && Fresh(next, added)[i] == a;
    var j :| 0 <= j < |added| && Fresh(next, added)[j] == b;
    assert added[i] == added[j];
    assert !(i < j) && !(j < i);
  }

  /** The entry finds this device of the new list, made at the same time. */
  predicate Finds(after: seq<Entry>, tree: D.Tree, tag: Option<string>, e: Entry) {
    var at := FindByPlatformId(after, tree.platformId);
    Selected(tree, tag) && at.Some? && after[at.value] == e && e.tree.created == tree.created
  }

  lemma {:induction false} KeptIsFound(
    devices: seq<Entry>, next: nat, trees: seq<D.Tree>, tag: Option<string>, e: Entry) returns (k: nat)
    requires Distinct(Serials(devices)) && Selected(e.tree, tag)
    requires e in Kept(Updated(devices, trees, tag), SetOf(Stale(devices, trees, tag)))
    ensures k < |trees| && Finds(After(devices, next, trees, tag), trees[k], tag, e)
  {
    hide Distinct, Kept, Updated, Stale, After;
    var j;
    j, k := KeptIsHit(devices, trees, tag, e);
    MatchedIsFound(devices, next, trees, tag, k);
  }

  lemma {:induction false} AddedIsFound(
    devices: seq<Entry>, next: nat, trees: seq<D.Tree>, tag: Option<string>, e: Entry) returns (k: nat)
    requires Distinct(Serials(devices)) && Alone(devices, trees, tag)
    requires e in Fresh(next, New(devices, trees, tag))
    ensures k < |trees| && Finds(After(devices, next, trees, tag), trees[k], tag, e)
  {
    hide Distinct, NoTwins, NoDoubles, After, Fresh, New, FindByPlatformId;
    NewElements(devices, trees, tag);
    FreshElements(next, New(devices, trees, tag));
    k :| 0 <= k < |trees| && trees[k] == e.tree;
    NewIsFound(devices, next, trees, tag, k);
    var after := After(devices, next, trees, tag);
    NewOnce(devices, next, trees, tag, e, after[FindByPlatformId(after, trees[k].platformId).value]);
  }

  /** A selected device of the new list is the one some entry finds. */
  lemma {:induction false} SelectedIsFound(devices: seq<Entry>, next: nat, trees: seq<D.Tree>, tag: Option<string>, i: nat)
    requires Distinct(Serials(devices)) && Alone(devices, trees, tag)
    requires Distinct(Serials(After(devices, next, trees, tag)))
    requires var after := After(devices, next, trees, tag); i < |after| && Selected(after[i].tree, tag)
    ensures exists k :: 0 <= k < |trees| && Hits(After(devices, next, trees, tag), i, trees[k], tag)
  {
    hide Distinct, Alone, Kept, Updated, Stale, Fresh, New;
    var after := After(devices, next, trees, tag);
    var k: nat;
    if after[i] in Kept(Updated(devices, trees, tag), SetOf(Stale(devices, trees, tag))) {
      k := KeptIsFound(devices, next, trees, tag, after[i]);
    } else {
      k := AddedIsFound(devices, next, trees, tag, after[i]);
    }
    SameSerial(after, i, FindByPlatformId(after, trees[k].platformId).value);
    assert Hits(after, i, trees[k], tag);
  }

  lemma {:induction false} SameSerial(s: seq<Entry>, i: nat, j: nat)
    requires Distinct(Serials(s)) && i < |s| && j < |s| && s[i].serial == s[j].serial
    ensures i == j
  {
    assert Serials(s)[i] == Serials(s)[j];
  }

  // ---- the second load ----

  /** Nothing is stale, nothing is new, no device changes, and every selected entry is a change. */
  lemma {:induction false} SettledStays(devices: seq<Entry>, trees: seq<D.Tree>, tag: Option<string>)
    requires Distinct(Serials(devices)) && Settled(devices, trees, tag)
    ensures New(devices, trees, tag) == [] && Stale(devices, trees, tag) == []
    ensures Updated(devices, trees, tag) == devices
  {
    var added, stale := New(devices, trees, tag), Stale(devices, trees, tag);
    assert added == [] || added[0] in added;
    assert stale == [] || stale[0] in stale;
    NewElements(devices, trees, tag);
    SelectedAreTouched(devices, trees, tag);
    OutsideElements(SelectedSerials(devices, tag), Touched(Changes(devices, trees, tag)));
  }

  lemma {:induction false} SelectedComeFrom(s: seq<Entry>, tag: Option<string>)
    ensures forall x :: x in SelectedSerials(s, tag) ==>
              exists i :: 0 <= i < |s| && Selected(s[i].tree, tag) && s[i].serial == x
  {
    if s != [] {
      SelectedComeFrom(s[1..], tag);
      forall x | x in SelectedSerials(s, tag)
        ensures exists i :: 0 <= i < |s| && Selected(s[i].tree, tag) && s[i].serial == x
      {
        if x in SelectedSerials(s[1..], tag) {
          var i :| 0 <= i < |s| - 1 && Selected(s[1..][i].tree, tag) && s[1..][i].serial == x;
          assert s[i + 1].serial == x;
        } else {
          assert s[0].serial == x;
        }
      }
    }
  }

  lemma {:induction false} SelectedAreTouched(devices: seq<Entry>, trees: seq<D.Tree>, tag: Option<string>)
    requires Settled(devices, trees, tag)
    ensures forall x :: x in SelectedSerials(devices, tag) ==> x in Touched(Changes(devices, trees, tag))
  {
    hide Touched, Changes, SelectedSerials, Selected, FindByPlatformId;
    SelectedComeFrom(devices, tag);
    TouchedElements(devices, trees, tag);
    forall x | x in SelectedSerials(devices, tag) ensures x in Touched(Changes(devices, trees, tag)) {
      var i :| 0 <= i < |devices| && Selected(devices[i].tree, tag) && devices[i].serial == x;
      var k :| 0 <= k < |trees| && Hits(devices, i, trees[k], tag);
      assert MatchedSerial(devices, trees[k]) == x;
    }
  }

  /** Every element gives its own creation time. */
  ghost predicate Dated(items: seq<Json>) {
    forall i :: 0 <= i < |items| ==> items[i].Obj? && Created in items[i].members && items[i].members[Created].Date?
  }

  lemma {:induction false} LoadLater(j: Json, now: int, later: int)
    requires j.Obj? && Created in j.members && j.members[Created].Date?
    ensures D.LoadDevice(j, now) == D.LoadDevice(j, later)
  {
  }

  lemma {:induction false} TreesLater(items: seq<Json>, now: int, later: int)
    requires Dated(items)
    ensures Trees(items, now) == Trees(items, later)
  {
    hide D.LoadDevice;
    if items != [] {
      LoadLater(items[0], now, later);
      TreesLater(items[1..], now, later);
    }
  }

  lemma {:induction false} TwinIsKept(devices: seq<Entry>, trees: seq<D.Tree>, tag: Option<string>, i: nat, k: nat)
    requires Distinct(Serials(devices)) && i < |devices| && k < |trees| && Twin(devices, trees, tag, i, k)
    ensures FindByPlatformId(Kept(Updated(devices, trees, tag), SetOf(Stale(devices, trees, tag))),
                             trees[k].platformId).Some?
  {
    var updated := Updated(devices, trees, tag);
    var kept := Kept(updated, SetOf(Stale(devices, trees, tag)));
    assert updated[i].serial == devices[i].serial && updated[i].tree.platformId == devices[i].tree.platformId;
    OutsideElements(SelectedSerials(devices, tag), Touched(Changes(devices, trees, tag)));
    SelectedComeFrom(devices, tag);
    forall j | 0 <= j < |devices| && Selected(devices[j].tree, tag) ensures devices[j].serial != devices[i].serial {
      assert Serials(devices)[j] == devices[j].serial && Serials(devices)[i] == devices[i].serial;
      assert j != i;
    }
    KeptElements(updated, SetOf(Stale(devices, trees, tag)));
    assert updated[i] in kept;
  }

  /** The device the first load added is then not the one its entry finds. */
  lemma {:induction false} NotHit(after: seq<Entry>, trees: seq<D.Tree>, tag: Option<string>, k: nat, at: nat)
    requires Distinct(Serials(after)) && k < |trees| && at < |after|
    requires Selected(trees[k], tag) && after[at].tree == trees[k]
    requires FindByPlatformId(after, trees[k].platformId) != Some(at)
    ensures after[at].serial in Stale(after, trees, tag)
  {
    hide Distinct;
    TouchedElements(after, trees, tag);
    SelectedElements(after, tag, at);
    OutsideElements(SelectedSerials(after, tag), Touched(Changes(after, trees, tag)));
    forall j | 0 <= j < |trees| && Selected(trees[j], tag) && MatchesOld(after, trees[j])
      ensures MatchedSerial(after, trees[j]) != after[at].serial
    {
      var i := FindByPlatformId(after, trees[j].platformId).value;
      if after[i].serial == after[at].serial {
        SameSerial(after, i, at);
      }
    }
  }

  /** The entry finds an older device than the one the first load made of it. */
  lemma {:induction false} TwinIsFound(
    devices: seq<Entry>, next: nat, trees: seq<D.Tree>, tag: Option<string>, i: nat, k: nat) returns (at: nat)
    requires Distinct(Serials(devices)) && i < |devices| && k < |trees| && Twin(devices, trees, tag, i, k)
    ensures var after := After(devices, next, trees, tag);
            at < |after| && after[at].tree == trees[k] && FindByPlatformId(after, trees[k].platformId) != Some(at)
  {
    hide Distinct, Kept, Updated, Stale, FindByPlatformId;
    var added := New(devices, trees, tag);
    var kept := Kept(Updated(devices, trees, tag), SetOf(Stale(devices, trees, tag)));
    TwinIsKept(devices, trees, tag, i, k);
    FindAppended(kept, Fresh(next, added), trees[k].platformId);
    assert trees[k] in added by { NewElements(devices, trees, tag); }
    var m :| 0 <= m < |added| && added[m] == trees[k];
    at := |kept| + m;
    NewAt(kept, next, added, m);
  }

  lemma {:induction false} NewAt(kept: seq<Entry>, next: nat, added: seq<D.Tree>, m: nat)
    requires m < |added|
    ensures |kept| + m < |kept + Fresh(next, added)| && (kept + Fresh(next, added))[|kept| + m].tree == added[m]
  {
  }

  /** An entry that does not find the device the first load made of it is added again, or that device removed. */
  lemma {:induction false} Unsettles(after: seq<Entry>, trees: seq<D.Tree>, tag: Option<string>, k: nat, at: nat)
    requires Distinct(Serials(after)) && k < |trees| && at < |after|
    requires Selected(trees[k], tag) && after[at].tree == trees[k]
    requires FindByPlatformId(after, trees[k].platformId) != Some(at)
    ensures New(after, trees, tag) != [] || Stale(after, trees, tag) != []
  {
    hide Distinct, New, Stale, FindByPlatformId;
    if MatchesOld(after, trees[k]) {
      NotHit(after, trees, tag, k, at);
    } else {
      NewElements(after, trees, tag);
      assert trees[k] in New(after, trees, tag);
    }
  }

  /** So it is with a twin. */
  lemma {:induction false} TwinUnsettles(
    devices: seq<Entry>, next: nat, trees: seq<D.Tree>, tag: Option<string>, i: nat, k: nat)
    requires Distinct(Serials(devices))
    requires i < |devices| && k < |trees| && Twin(devices, trees, tag, i, k)
    requires Distinct(Serials(After(devices, next, trees, tag)))
    ensures var after := After(devices, next, trees, tag);
            New(after, trees, tag) != [] || Stale(after, trees, tag) != []
  {
    hide Distinct, New, Stale, After, FindByPlatformId;
    var at := TwinIsFound(devices, next, trees, tag, i, k);
    Unsettles(After(devices, next, trees, tag), trees, tag, k, at);
  }

  lemma {:induction false} NewSplit(devices: seq<Entry>, a: seq<D.Tree>, b: seq<D.Tree>, tag: Option<string>)
    ensures New(devices, a + b, tag) == New(devices, a, tag) + New(devices, b, tag)
  {
    hide MatchesOld, Selected;
    if a == [] {
      assert a + b == b;
    } else {
      assert (a + b)[1..] == a[1..] + b;
      NewSplit(devices, a[1..], b, tag);
    }
  }

  /** Where the device made of a new entry stands among the added ones. */
  function Place(devices: seq<Entry>, trees: seq<D.Tree>, tag: Option<string>, k: nat): nat
    requires k < |trees|
  {
    |New(devices, trees[..k], tag)|
  }

  lemma {:induction false} PlacedThere(devices: seq<Entry>, trees: seq<D.Tree>, tag: Option<string>, k: nat)
    requires k < |trees| && IsNew(devices, trees[k], tag)
    ensures var at := Place(devices, trees, tag, k);
            at < |New(devices, trees, tag)| && New(devices, trees, tag)[at] == trees[k]
  {
    assert trees == trees[..k] + trees[k..];
    NewSplit(devices, trees[..k], trees[k..], tag);
    assert New(devices, trees[k..], tag)[0] == trees[k];
  }

  lemma {:induction false} PlacesGrow(devices: seq<Entry>, trees: seq<D.Tree>, tag: Option<string>, j: nat, k: nat)
    requires j < k < |trees| && IsNew(devices, trees[j], tag)
    ensures Place(devices, trees, tag, j) < Place(devices, trees, tag, k)
  {
    var before := trees[..k];
    assert before == trees[..j] + before[j..];
    NewSplit(devices, trees[..j], before[j..], tag);
    assert before[j..][0] == trees[j];
  }

  /** And with another selected entry of the same platform id, matched or new. */
  lemma {:induction false} DoubleUnsettles(
    devices: seq<Entry>, next: nat, trees: seq<D.Tree>, tag: Option<string>, j: nat, k: nat)
    requires Distinct(Serials(devices))
    requires j < |trees| && k < |trees| && Double(devices, trees, tag, j, k)
    requires Distinct(Serials(After(devices, next, trees, tag)))
    ensures var after := After(devices, next, trees, tag);
            New(after, trees, tag) != [] || Stale(after, trees, tag) != []
  {
    hide Distinct, New, Stale, Kept, Updated, FindByPlatformId;
    var after, added := After(devices, next, trees, tag), New(devices, trees, tag);
    var kept := Kept(Updated(devices, trees, tag), SetOf(Stale(devices, trees, tag)));
    var found := FindByPlatformId(after, trees[k].platformId);
    PlacedThere(devices, trees, tag, k);
    NewAt(kept, next, added, Place(devices, trees, tag, k));
    var at := |kept| + Place(devices, trees, tag, k);
    if found != Some(at) {
      Unsettles(after, trees, tag, k, at);
    } else if MatchesOld(devices, trees[j]) {
      MatchedIsFound(devices, next, trees, tag, j);
      assert false;
    } else {
      PlacedThere(devices, trees, tag, j);
      NewAt(kept, next, added, Place(devices, trees, tag, j));
      if j < k {
        PlacesGrow(devices, trees, tag, j, k);
      } else {
        PlacesGrow(devices, trees, tag, k, j);
      }
      Unsettles(after, trees, tag, j, |kept| + Place(devices, trees, tag, j));
    }
  }

  /**
   * The same document again: no device is added, removed or altered and each selected entry is reported as
   * changed, exactly when every selected entry that was new to the first load was alone with its platform id
   * among the selected entries and the unselected devices.
   */
  lemma {:induction false} LoadIsIdempotent(r: Registry, doc: Members, tag: Option<string>, now: int, later: int)
    requires Explained(r) && LoadContext(r, doc, tag, now).0 && Dated(GetItems(doc, UsbDevices))
    ensures
      var r1 := LoadContext(r, doc, tag, now).1;
      var trees := Trees(GetItems(doc, UsbDevices), now);
      var changes := Changes(r1.devices, trees, tag);
      && (Alone(r.devices, trees, tag) <==>
          LoadContext(r1, doc, tag, later) == (true, r1.(log := r1.log + changes)))
      && (Alone(r.devices, trees, tag) ==> |changes| == |Chosen(trees, tag)|)
  {
    hide Settled, NoTwins, NoDoubles, Trees, Changes, New, Updated, Stale, Fresh, Distinct, Removals, Kept;
    hide LoadContext, GetItems, D.LoadDevice;
    var items := GetItems(doc, UsbDevices);
    var trees := Trees(items, now);
    var r1 := LoadContext(r, doc, tag, now).1;
    LoadContextExplained(r, doc, tag, now);
    LoadSynchronises(r, doc, tag, now);
    assert r1.devices == After(r.devices, r.next, trees, tag);
    ChangedOrAdded(r1.devices, trees, tag);
    SecondLoad(r1, doc, tag, now, later);
    if Alone(r.devices, trees, tag) {
      LoadSettles(r.devices, r.next, trees, tag);
      SettledStays(r1.devices, trees, tag);
    } else if !NoTwins(r.devices, trees, tag) {
      var i, k := SomeTwin(r.devices, trees, tag);
      TwinUnsettles(r.devices, r.next, trees, tag, i, k);
    } else {
      var j, k := SomeDouble(r.devices, trees, tag);
      DoubleUnsettles(r.devices, r.next, trees, tag, j, k);
    }
  }

  lemma {:induction false} SomeDouble(devices: seq<Entry>, trees: seq<D.Tree>, tag: Option<string>) returns (j: nat, k: nat)
    requires !NoDoubles(devices, trees, tag)
    ensures j < |trees| && k < |trees| && Double(devices, trees, tag, j, k)
  {
    j, k :| 0 <= j < |trees| && 0 <= k < |trees| && Double(devices, trees, tag, j, k);
  }

  lemma {:induction false} SomeTwin(devices: seq<Entry>, trees: seq<D.Tree>, tag: Option<string>) returns (i: nat, k: nat)
    requires !NoTwins(devices, trees, tag)
    ensures i < |devices| && k < |trees| && Twin(devices, trees, tag, i, k)
  {
    i, k :| 0 <= i < |devices| && 0 <= k < |trees| && Twin(devices, trees, tag, i, k);
  }

  /** A second load only reports changes if nothing is new or stale to it, and only then. */
  lemma {:induction false} SecondLoad(r: Registry, doc: Members, tag: Option<string>, now: int, later: int)
    requires r.done && Distinct(Serials(r.devices)) && UsbDevices in doc && Dated(GetItems(doc, UsbDevices))
    requires forall i :: 0 <= i < |GetItems(doc, UsbDevices)| ==>
               D.LoadDevice(GetItems(doc, UsbDevices)[i], now).Some?
    ensures
      var trees := Trees(GetItems(doc, UsbDevices), now);
      var changes := Changes(r.devices, trees, tag);
      var quiet := New(r.devices, trees, tag) == [] && Stale(r.devices, trees, tag) == [];
      && (LoadContext(r, doc, tag, later) == (true, r.(log := r.log + changes)) ==> quiet)
      && (quiet && Updated(r.devices, trees, tag) == r.devices ==>
          LoadContext(r, doc, tag, later) == (true, r.(log := r.log + changes)))
  {
    hide Trees, Changes, New, Updated, Stale, Fresh, Distinct, Removals, Kept, LoadContext, GetItems, D.LoadDevice;
    var items := GetItems(doc, UsbDevices);
    var trees := Trees(items, now);
    var changes := Changes(r.devices, trees, tag);
    TreesLater(items, now, later);
    forall i | 0 <= i < |items| ensures D.LoadDevice(items[i], later) == D.LoadDevice(items[i], now) {
      LoadLater(items[i], now, later);
    }
    LoadSynchronises(r, doc, tag, later);
    var (ok, r') := LoadContext(r, doc, tag, later);
    assert ok;
    if New(r.devices, trees, tag) == [] && Stale(r.devices, trees, tag) == [] {
      assert Fresh(r.next, []) == [] && Removals(r.devices, []) == [] && Announced([]) == [];
      assert SetOf([]) == {};
      KeptAll(Updated(r.devices, trees, tag));
      assert r'.devices == Updated(r.devices, trees, tag);
      assert r'.log == r.log + changes;
    } else {
      assert |r'.log| > |r.log + changes|;
    }
  }

  // ---- saving a context and loading it elsewhere ----

  function TreesOf(s: seq<Entry>): (r: seq<D.Tree>)
    ensures |r| == |s| && forall i :: 0 <= i < |s| ==> r[i] == s[i].tree
  {
    seq(|s|, i requires 0 <= i < |s| => s[i].tree)
  }

  /** The removed devices are saved whatever their tags. */
  function SavedTrees(r: Registry, tag: Option<string>, withRemoved: bool): seq<D.Tree> {
    (if withRemoved then TreesOf(r.removed) else []) + Chosen(TreesOf(r.devices), tag)
  }

  function Document(trees: seq<D.Tree>): Members {
    map[UsbDevices := Arr(Map(trees, D.DeviceNode))]
  }

  lemma {:induction false} EmptyList(trees: seq<D.Tree>, tag: Option<string>)
    ensures New([], trees, tag) == Chosen(trees, tag) && Changes([], trees, tag) == [] && Stale([], trees, tag) == []
  {
    if trees != [] {
      EmptyList(trees[1..], tag);
    }
  }

  lemma {:induction false} SavedTreesLoad(trees: seq<D.Tree>, now: int)
    ensures Trees(Map(trees, D.DeviceNode), now) == Map(trees, D.Normal)
  {
    hide D.DeviceNode, D.LoadDevice, D.Normal, Trees;
    var items := Map(trees, D.DeviceNode);
    forall i | 0 <= i < |items| ensures D.LoadDevice(items[i], now) == Some(D.Normal(trees[i])) {
      D.DeviceRoundTrip(trees[i], now);
    }
    TreesOfAll(items, now);
    forall i | 0 <= i < |items| ensures Trees(items, now)[i] == D.Normal(trees[i]) {
      assert D.LoadDevice(items[i], now) == Some(Trees(items, now)[i]);
    }
  }

  /** A new context lists what was saved, in order, and announces each device. */
  lemma {:induction false} SavedContextRoundTrip(trees: seq<D.Tree>, tag: Option<string>, now: int, saving: bool)
    ensures
      var arrivals := Fresh(0, Chosen(Map(trees, D.Normal), tag));
      LoadContext(Init(saving), Document(trees), tag, now) ==
      (true, Registry(arrivals, [], true, map[], Announced(arrivals), |arrivals|, saving))
  {
    hide D.DeviceNode, D.LoadDevice, D.Normal, Trees, New, Changes, Stale, Chosen;
    hide LoadContext, Fresh, Announced, Removals;
    var items := Map(trees, D.DeviceNode);
    assert GetItems(Document(trees), UsbDevices) == items;
    SavedTreesLoad(trees, now);
    TreesOfAll(items, now);
    EmptyList(Map(trees, D.Normal), tag);
    LoadSynchronises(Init(saving), Document(trees), tag, now);
    assert Updated([], Map(trees, D.Normal), tag) == [];
    assert Removals([], []) == [];
    var (ok, r) := LoadContext(Init(saving), Document(trees), tag, now);
    var arrivals := Fresh(0, Chosen(Map(trees, D.Normal), tag));
    assert ok;
    assert r.devices == arrivals;
    assert r.log == Announced(arrivals);
  }

  lemma {:induction false} ChosenAll(trees: seq<D.Tree>)
    ensures Chosen(trees, None) == trees
  {
    if trees != [] {
      ChosenAll(trees[1..]);
    }
  }

  /** Saved and loaded without a tag, every device is there again, in the order it was saved. */
  lemma {:induction false} UntaggedRoundTrip(r: Registry, withRemoved: bool, now: int, saving: bool)
    ensures var saved := SavedTrees(r, None, withRemoved);
            var (ok, r') := LoadContext(Init(saving), Document(saved), None, now);
            && saved == (if withRemoved then TreesOf(r.removed) else []) + TreesOf(r.devices)
            && ok && TreesOf(r'.devices) == Map(saved, D.Normal)
  {
    hide LoadContext, Document, D.Normal, Chosen, Announced;
    var saved := SavedTrees(r, None, withRemoved);
    ChosenAll(TreesOf(r.devices));
    ChosenAll(Map(saved, D.Normal));
    SavedContextRoundTrip(saved, None, now, saving);
  }
}
