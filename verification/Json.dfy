/** JSON values, the members a loader reads, and the builder a saver drives. */
module Json {
  import opened Basics
  import Base64

  /** The member names the library writes, each spelled as its constructor. */
  datatype Name =
    Id | Status | Error | Data | DevCapabilityType | ExtraData | DescriptorType |
    EndpointAddress | Refresh | Interval | SynchAddress | MaxPacketSize | Length |
    InterfaceNumber | AlternateSetting | InterfaceClass | InterfaceSubClass |
    InterfaceProtocol | Interface | UsbEndpoints | PlatformId | Created | Tags | IdVendor |
    IdProduct | Device | USB | Manufacturer | DeviceClass | DeviceSubClass | DeviceProtocol
    | Product | SerialNumber | UsbBosDescriptors | UsbHidDescriptors | UsbInterfaces |
    UsbEvents | UsbDevices

  /** Date(t) is a string node holding the ISO 8601 form of the time t. */
  datatype Json =
    | Null
    | Int(value: int)
    | Str(text: string)
    | Date(stamp: int)
    | Arr(items: seq<Json>)
    | Obj(members: Members)

  type Members = map<Name, Json>

  // ---- reading members, with a default for a missing one ----

  function GetInt(m: Members, n: Name): int {
    if n in m && m[n].Int? then m[n].value else 0
  }

  function GetString(m: Members, n: Name): Option<string> {
    if n in m && m[n].Str? then Some(m[n].text) else None
  }

  /** A member that is not an array reads as an empty one. */
  function GetArray(m: Members, n: Name): Option<seq<Json>> {
    if n !in m then None else if m[n].Arr? then Some(m[n].items) else Some([])
  }

  function GetItems(m: Members, n: Name): seq<Json> {
    match GetArray(m, n) case Some(items) => items case None => []
  }

  function GetData(m: Members, n: Name): Option<Bytes> {
    match GetString(m, n) case Some(text) => Some(Base64.Decode(text)) case None => None
  }

  /** A loader overwrites optional data only when the member is there. */
  function Keep<T>(read: Option<T>, was: Option<T>): Option<T> {
    if read.Some? then read else was
  }

  // ---- the members a saver writes ----

  /** A saver omits a member holding its default: zero, NULL or an empty array. */
  predicate IsDefault(v: Json) { v == Int(0) || v == Null || v == Arr([]) }

  /** The members left of a full record once those holding a default are omitted. */
  function Prune(record: Members): Members {
    map n | n in record && !IsDefault(record[n]) :: record[n]
  }

  function StringNode(text: Option<string>): Json {
    match text case Some(t) => Str(t) case None => Null
  }

  function DataNode(data: Option<Bytes>): Json {
    match data case Some(b) => Str(Base64.Encode(b)) case None => Null
  }

  /** GBytes without content are saved as if they were absent. */
  function NonEmpty(data: Option<Bytes>): Option<Bytes> {
    if data == Some([]) then None else data
  }

  /** The member is there exactly when the number is not zero, and holds it. */
  ghost predicate HoldsInt(m: Members, n: Name, i: int) {
    (n in m <==> i != 0) && (n in m ==> m[n] == Int(i))
  }

  /** The member is there exactly when there are bytes, and holds them in base64. */
  ghost predicate HoldsExtra(m: Members, n: Name, extra: Option<Bytes>) {
    && (n in m <==> extra.Some? && |extra.value| > 0)
    && (n in m ==> m[n] == Str(Base64.Encode(extra.value)))
  }

  /** The member is there exactly when the text is, and holds it. */
  ghost predicate HoldsText(m: Members, n: Name, text: Option<string>) {
    (n in m <==> text.Some?) && (n in m ==> m[n] == Str(text.value))
  }

  /** The member is there exactly when there are elements, and holds as many of them in order. */
  ghost predicate HoldsArray<T>(m: Members, n: Name, s: seq<T>, node: T -> Json) {
    && (n in m <==> |s| > 0)
    && (n in m ==> m[n].Arr? && |m[n].items| == |s| && forall i :: 0 <= i < |s| ==> m[n].items[i] == node(s[i]))
  }

  lemma {:induction false} PrunedInt(record: Members, n: Name, i: int)
    requires n in record && record[n] == Int(i)
    ensures HoldsInt(Prune(record), n, i)
  {
  }

  lemma {:induction false} PruneGrows(record: Members, n: Name, v: Json)
    requires n !in record
    ensures n !in Prune(record)
    ensures Prune(record[n := v]) == if IsDefault(v) then Prune(record) else Prune(record)[n := v]
  {
  }

  /** An omitted member reads back as its default. */
  lemma {:induction false} ReadInt(record: Members, n: Name, i: int)
    requires n in record && record[n] == Int(i)
    ensures GetInt(Prune(record), n) == i
  {
  }

  lemma {:induction false} ReadString(record: Members, n: Name, text: Option<string>)
    requires n in record && record[n] == StringNode(text)
    ensures GetString(Prune(record), n) == text
  {
  }

  lemma {:induction false} ReadItems(record: Members, n: Name, items: seq<Json>)
    requires n in record && record[n] == Arr(items)
    ensures GetItems(Prune(record), n) == items
  {
  }

  lemma {:induction false} ReadData(record: Members, n: Name, data: Option<Bytes>)
    requires n in record && record[n] == DataNode(data)
    ensures GetData(Prune(record), n) == data
  {
    if data.Some? {
      Base64.DecodeEncode(data.value);
    }
  }

  /** A member that is missing, or not of the kind asked for, reads as if it were empty. */
  lemma {:induction false} ReadersTell(m: Members, n: Name)
    ensures GetInt(m, n) == if n in m && m[n].Int? then m[n].value else 0
    ensures GetString(m, n).Some? <==> n in m && m[n].Str?
    ensures GetString(m, n).Some? ==> m[n] == Str(GetString(m, n).value)
    ensures n in m && m[n].Arr? ==> m[n] == Arr(GetItems(m, n))
    ensures n !in m || !m[n].Arr? ==> GetItems(m, n) == []
  {
  }

  // ---- arrays of nodes ----

  function Map<S, T>(s: seq<S>, f: S -> T): (r: seq<T>)
    ensures |r| == |s| && forall i :: 0 <= i < |s| ==> r[i] == f(s[i])
  {
    seq(|s|, i requires 0 <= i < |s| => f(s[i]))
  }

  lemma {:induction false} MapPush<S, T>(s: seq<S>, x: S, f: S -> T)
    ensures Map(s + [x], f) == Map(s, f) + [f(x)]
  {
  }

  /** All elements loaded in order, or nothing if one of them does not load. */
  function Collect<T>(items: seq<Json>, load: Json -> Option<T>): (all: Option<seq<T>>)
    ensures all.Some? <==> forall i :: 0 <= i < |items| ==> load(items[i]).Some?
    ensures all.Some? ==> |all.value| == |items| &&
                          forall i :: 0 <= i < |items| ==> load(items[i]) == Some(all.value[i])
  {
    if forall i :: 0 <= i < |items| ==> load(items[i]).Some? then
      Some(seq(|items|, i requires 0 <= i < |items| && load(items[i]).Some? => load(items[i]).value))
    else
      None
  }

  /** The elements loaded before the first that does not load. */
  function Prefix<T>(items: seq<Json>, load: Json -> Option<T>): seq<T> {
    if items == [] then []
    else match load(items[0])
      case None => []
      case Some(x) => [x] + Prefix(items[1..], load)
  }

  lemma {:induction false} PrefixElements<T>(items: seq<Json>, load: Json -> Option<T>)
    ensures var p := Prefix(items, load);
            && |p| <= |items| && (forall i :: 0 <= i < |p| ==> load(items[i]) == Some(p[i]))
            && (|p| < |items| ==> load(items[|p|]).None?)
  {
    if items != [] && load(items[0]).Some? {
      var p := Prefix(items, load);
      PrefixElements(items[1..], load);
      forall i | 0 <= i < |p| ensures load(items[i]) == Some(p[i]) {
        assert i > 0 ==> items[i] == items[1..][i - 1] && p[i] == p[1..][i - 1];
      }
    }
  }

  /** Everything loads exactly when the prefix is all there is. */
  lemma {:induction false} PrefixCollects<T>(items: seq<Json>, load: Json -> Option<T>)
    ensures Collect(items, load).Some? <==> |Prefix(items, load)| == |items|
    ensures Collect(items, load).Some? ==> Collect(items, load).value == Prefix(items, load)
  {
    PrefixElements(items, load);
  }

  /** A loop that stopped at the end, or before an element that does not load, has loaded the prefix. */
  lemma {:induction false} IsPrefix<T>(items: seq<Json>, load: Json -> Option<T>, s: seq<T>)
    requires |s| <= |items| && forall i :: 0 <= i < |s| ==> load(items[i]) == Some(s[i])
    requires |s| == |items| || load(items[|s|]).None?
    ensures s == Prefix(items, load)
  {
    var p := Prefix(items, load);
    PrefixElements(items, load);
    assert !(|p| < |s|) && !(|s| < |p|);
  }

  /** Loading saved elements gives what each one's own load of its save gives. */
  lemma {:induction false} CollectNodes<S, T>(s: seq<S>, save: S -> Json, load: Json -> Option<T>, loaded: S -> T)
    requires forall i :: 0 <= i < |s| ==> load(save(s[i])) == Some(loaded(s[i]))
    ensures Collect(Map(s, save), load) == Some(Map(s, loaded))
  {
    var items := Map(s, save);
    assert forall i :: 0 <= i < |items| ==> load(items[i]) == Some(loaded(s[i]));
    assert Collect(items, load).value == Map(s, loaded);
  }

  // ---- JsonBuilder ----

  /** What a builder holds: the value under construction inside those that enclose it. */
  datatype Build =
    | Root(value: Option<Json>)
    | InArray(below: Build, items: seq<Json>)
    | InObject(below: Build, members: Members, pending: Option<Name>)
  {
    /** A value may be added here. */
    predicate AwaitsValue() {
      match this
      case Root(value) => value.None?
      case InArray(below, items) => true
      case InObject(below, members, pending) => pending.Some?
    }

    /** Every enclosing value is waiting for the one inside it. */
    predicate WellNested() {
      match this
      case Root(value) => true
      case InArray(below, items) => below.AwaitsValue() && below.WellNested()
      case InObject(below, members, pending) =>
        below.AwaitsValue() && below.WellNested() && (pending.Some? ==> pending.value !in members)
    }

    /** One complete value more. */
    function Put(v: Json): (b: Build)
      requires AwaitsValue()
      ensures WellNested() ==> b.WellNested()
    {
      match this
      case Root(value) => Root(Some(v))
      case InArray(below, items) => InArray(below, items + [v])
      case InObject(below, members, pending) => InObject(below, members[pending.value := v], None)
    }

    /** Inside an object, between two members. */
    predicate AtMember() { InObject? && pending.None? }
  }

  class JsonBuilder {
    var state: Build

    constructor ()
      ensures state == Root(None)
    {
      state := Root(None);
    }

    method BeginObject()
      requires state.WellNested() && state.AwaitsValue()
      modifies this
      ensures state == InObject(old(state), map[], None)
    {
      state := InObject(state, map[], None);
    }

    method EndObject()
      requires state.WellNested() && state.AtMember()
      modifies this
      ensures state == old(state.below).Put(Obj(old(state.members)))
      ensures state.WellNested()
    {
      state := state.below.Put(Obj(state.members));
    }

    method BeginArray()
      requires state.WellNested() && state.AwaitsValue()
      modifies this
      ensures state == InArray(old(state), [])
    {
      state := InArray(state, []);
    }

    method EndArray()
      requires state.WellNested() && state.InArray?
      modifies this
      ensures state == old(state.below).Put(Arr(old(state.items)))
      ensures state.WellNested()
    {
      state := state.below.Put(Arr(state.items));
    }

    /** A name may be used once in an object. */
    method SetMemberName(n: Name)
      requires state.WellNested() && state.AtMember() && n !in state.members
      modifies this
      ensures state == old(state).(pending := Some(n))
      ensures state.WellNested()
    {
      state := state.(pending := Some(n));
    }

    method AddValue(v: Json)
      requires state.WellNested() && state.AwaitsValue()
      modifies this
      ensures state == old(state).Put(v)
      ensures state.WellNested()
    {
      state := state.Put(v);
    }

    /** if (v is not the default) { set_member_name; add_value } */
    method AddMember(n: Name, v: Json, ghost record: Members) returns (ghost record': Members)
      requires state.WellNested() && state.AtMember()
      requires state.members == Prune(record) && n !in record
      modifies this
      ensures record' == record[n := v]
      ensures state == old(state).(members := Prune(record'))
      ensures state.WellNested()
    {
      record' := record[n := v];
      PruneGrows(record, n, v);
      if !IsDefault(v) {
        SetMemberName(n);
        AddValue(v);
      }
    }
  }
}
