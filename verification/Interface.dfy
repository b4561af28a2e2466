/** gusb-interface.c: the saved part of an interface descriptor, with its endpoints. */
module Interface {
  import opened Basics
  import opened Json
  import Base64
  import E = Endpoint

  /** No endpoint array at all is None. */
  datatype Iface = Iface(
    length: Byte, descriptorType: Byte, number: Byte, alternate: Byte,
    class_: Byte, subclass: Byte, protocol: Byte, index: Byte,
    endpoints: Option<seq<E.Endpoint>>, extra: Option<Bytes>)

  const BLANK := Iface(0, 0, 0, 0, 0, 0, 0, 0, None, None)

  function EndpointItems(i: Iface): seq<Json> {
    match i.endpoints case Some(s) => Map(s, E.EndpointNode) case None => []
  }

  function FieldRecord(i: Iface): Members {
    map[Length := Int(i.length), DescriptorType := Int(i.descriptorType),
        InterfaceNumber := Int(i.number), AlternateSetting := Int(i.alternate),
        InterfaceClass := Int(i.class_), InterfaceSubClass := Int(i.subclass),
        InterfaceProtocol := Int(i.protocol), Interface := Int(i.index)]
  }

  function InterfaceRecord(i: Iface): Members {
    FieldRecord(i)[UsbEndpoints := Arr(EndpointItems(i))][ExtraData := DataNode(NonEmpty(i.extra))]
  }

  function InterfaceNode(i: Iface): Json { Obj(Prune(InterfaceRecord(i))) }

  /** The endpoints a load puts in place; None if an element is not an object. */
  function EndpointsOver(was: Option<seq<E.Endpoint>>, m: Members): Option<Option<seq<E.Endpoint>>> {
    match GetArray(m, UsbEndpoints)
    case None => Some(was)
    case Some(items) =>
      match Collect(items, E.LoadEndpoint) case Some(s) => Some(Some(s)) case None => None
  }

  /** What loading the members into an interface leaves there, unless the load fails. */
  function InterfaceOver(was: Iface, m: Members): Option<Iface> {
    match EndpointsOver(was.endpoints, m)
    case None => None
    case Some(endpoints) =>
      Some(Iface(ToByte(GetInt(m, Length)), ToByte(GetInt(m, DescriptorType)),
                     ToByte(GetInt(m, InterfaceNumber)), ToByte(GetInt(m, AlternateSetting)),
                     ToByte(GetInt(m, InterfaceClass)), ToByte(GetInt(m, InterfaceSubClass)),
                     ToByte(GetInt(m, InterfaceProtocol)), ToByte(GetInt(m, Interface)),
                     endpoints, Keep(GetData(m, ExtraData), was.extra)))
  }

  function LoadInterface(j: Json): Option<Iface> {
    if j.Obj? then InterfaceOver(BLANK, j.members) else None
  }

  /** What a save keeps: an empty endpoint array becomes no array. */
  function Normal(i: Iface): Iface {
    i.(endpoints := match i.endpoints case Some(s) => if s == [] then None else Some(Map(s, E.Normal)) case None => None,
       extra := NonEmpty(i.extra))
  }

  lemma {:induction false} EndpointsRoundTrip(i: Iface)
    ensures EndpointsOver(None, Prune(InterfaceRecord(i))) == Some(Normal(i).endpoints)
  {
    if i.endpoints.Some? {
      var s := i.endpoints.value;
      forall k | 0 <= k < |s| ensures E.LoadEndpoint(E.EndpointNode(s[k])) == Some(E.Normal(s[k])) {
        E.EndpointRoundTrip(s[k]);
      }
      CollectNodes(s, E.EndpointNode, E.LoadEndpoint, E.Normal);
    }
  }

  lemma {:induction false} InterfaceRoundTrip(i: Iface)
    ensures LoadInterface(InterfaceNode(i)) == Some(Normal(i))
  {
    hide Base64.Encode, Base64.Decode, Prune, GetInt;
    var record := InterfaceRecord(i);
    ReadInt(record, Length, i.length);
    ReadInt(record, DescriptorType, i.descriptorType);
    ReadInt(record, InterfaceNumber, i.number);
    ReadInt(record, AlternateSetting, i.alternate);
    ReadInt(record, InterfaceClass, i.class_);
    ReadInt(record, InterfaceSubClass, i.subclass);
    ReadInt(record, InterfaceProtocol, i.protocol);
    ReadInt(record, Interface, i.index);
    ReadData(record, ExtraData, NonEmpty(i.extra));
    EndpointsRoundTrip(i);
  }

  /** An interface loads if it is an object and each of its endpoints is. */
  lemma {:induction false} InterfaceLoads(j: Json)
    ensures LoadInterface(j).Some? <==>
            j.Obj? && (UsbEndpoints in j.members && j.members[UsbEndpoints].Arr? ==>
                       forall k :: 0 <= k < |j.members[UsbEndpoints].items| ==> j.members[UsbEndpoints].items[k].Obj?)
  {
  }

  /** The saved members, under their names; what is zero or without content is left out. */
  lemma {:induction false} InterfaceMembers(i: Iface)
    ensures var j := InterfaceNode(i);
            && j.Obj?
            && HoldsInt(j.members, Length, i.length)
            && HoldsInt(j.members, DescriptorType, i.descriptorType)
            && HoldsInt(j.members, InterfaceNumber, i.number)
            && HoldsInt(j.members, AlternateSetting, i.alternate)
            && HoldsInt(j.members, InterfaceClass, i.class_)
            && HoldsInt(j.members, InterfaceSubClass, i.subclass)
            && HoldsInt(j.members, InterfaceProtocol, i.protocol)
            && HoldsInt(j.members, Interface, i.index)
  {
    hide Base64.Encode, E.EndpointNode, Prune, HoldsInt;
    var record := InterfaceRecord(i);
    PrunedInt(record, Length, i.length);
    PrunedInt(record, DescriptorType, i.descriptorType);
    PrunedInt(record, InterfaceNumber, i.number);
    PrunedInt(record, AlternateSetting, i.alternate);
    PrunedInt(record, InterfaceClass, i.class_);
    PrunedInt(record, InterfaceSubClass, i.subclass);
    PrunedInt(record, InterfaceProtocol, i.protocol);
    PrunedInt(record, Interface, i.index);
  }

  lemma {:induction false} InterfaceArrays(i: Iface)
    ensures var j := InterfaceNode(i);
            && j.Obj?
            && HoldsExtra(j.members, ExtraData, i.extra)
            && HoldsArray(j.members, UsbEndpoints, if i.endpoints.Some? then i.endpoints.value else [], E.EndpointNode)
  {
    hide Base64.Encode, E.EndpointNode;
  }

  /** Endpoints come back as many as they were, each with its fields and extra bytes. */
  ghost predicate EndpointsCameBack(was: seq<E.Endpoint>, now: seq<E.Endpoint>) {
    |now| == |was| && forall k :: 0 <= k < |was| ==> EndpointCameBack(was[k], now[k])
  }

  ghost predicate EndpointCameBack(was: E.Endpoint, now: E.Endpoint) {
    && now == was.(extra := now.extra)
    && (was.extra.Some? && |was.extra.value| > 0 ==> now.extra == was.extra)
    && (was.extra.None? || |was.extra.value| == 0 ==> now.extra == None)
  }

  /** Every field comes back, every endpoint in order, and every extra byte of both. */
  ghost predicate CameBack(was: Iface, now: Iface) {
    && now == was.(endpoints := now.endpoints, extra := now.extra)
    && (was.extra.Some? && |was.extra.value| > 0 ==> now.extra == was.extra)
    && (was.extra.None? || |was.extra.value| == 0 ==> now.extra == None)
    && (was.endpoints.None? || |was.endpoints.value| == 0 ==> now.endpoints == None)
    && (was.endpoints.Some? && |was.endpoints.value| > 0 ==>
          now.endpoints.Some? && EndpointsCameBack(was.endpoints.value, now.endpoints.value))
  }

  lemma {:induction false} InterfaceComesBack(i: Iface)
    ensures LoadInterface(InterfaceNode(i)).Some? && CameBack(i, LoadInterface(InterfaceNode(i)).value)
  {
    InterfaceRoundTrip(i);
    hide InterfaceNode, LoadInterface, E.EndpointNode, E.LoadEndpoint;
    if i.endpoints.Some? {
      forall k | 0 <= k < |i.endpoints.value|
        ensures EndpointCameBack(i.endpoints.value[k], E.Normal(i.endpoints.value[k]))
      {
        E.EndpointComesBack(i.endpoints.value[k]);
        E.EndpointRoundTrip(i.endpoints.value[k]);
      }
    }
  }

  class UsbInterface {
    var desc: Iface

    constructor ()
      ensures desc == BLANK
    {
      desc := BLANK;
    }

    /** _g_usb_interface_new: the arrays are there even if empty. */
    constructor FromDescriptor(d: Iface)
      requires d.endpoints.Some? && d.extra.Some?
      ensures desc == d
    {
      desc := d.(endpoints := Some([]));
      new;
      for i := 0 to |d.endpoints.value|
        invariant desc == d.(endpoints := Some(d.endpoints.value[..i]))
      {
        desc := desc.(endpoints := Some(desc.endpoints.value + [d.endpoints.value[i]]));
        assert d.endpoints.value[..i + 1] == d.endpoints.value[..i] + [d.endpoints.value[i]];
      }
      assert d.endpoints.value[..|d.endpoints.value|] == d.endpoints.value;
    }

    /** Fails, leaving a half-filled object, when an endpoint is not a JSON object. */
    method Load(members: Members) returns (ok: bool)
      modifies this
      ensures ok <==> InterfaceOver(old(desc), members).Some?
      ensures ok ==> Some(desc) == InterfaceOver(old(desc), members)
    {
      hide Base64.Decode;
      desc := desc.(length := ToByte(GetInt(members, Length)),
                    descriptorType := ToByte(GetInt(members, DescriptorType)),
                    number := ToByte(GetInt(members, InterfaceNumber)),
                    alternate := ToByte(GetInt(members, AlternateSetting)),
                    class_ := ToByte(GetInt(members, InterfaceClass)),
                    subclass := ToByte(GetInt(members, InterfaceSubClass)),
                    protocol := ToByte(GetInt(members, InterfaceProtocol)),
                    index := ToByte(GetInt(members, Interface)));
      if UsbEndpoints in members {
        var loaded := LoadEndpoints(GetItems(members, UsbEndpoints));
        if loaded.None? {
          return false;
        }
        desc := desc.(endpoints := loaded);
      }
      var data := GetData(members, ExtraData);
      if data.Some? {
        desc := desc.(extra := data);
      }
      return true;
    }
  }

  /** The array of endpoints, grown one new object at a time. */
  method LoadEndpoints(items: seq<Json>) returns (loaded: Option<seq<E.Endpoint>>)
    ensures loaded == Collect(items, E.LoadEndpoint)
  {
    hide Base64.Decode;
    var s: seq<E.Endpoint> := [];
    for i := 0 to |items|
      invariant |s| == i
      invariant forall k :: 0 <= k < i ==> E.LoadEndpoint(items[k]) == Some(s[k])
    {
      var endpoint := new E.UsbEndpoint();
      if !items[i].Obj? {
        return None;
      }
      endpoint.Load(items[i].members);
      s := s + [endpoint.desc];
    }
    assert s == Collect(items, E.LoadEndpoint).value;
    return Some(s);
  }

  method SaveInterface(d: Iface, builder: JsonBuilder)
    requires builder.state.WellNested() && builder.state.AwaitsValue()
    modifies builder
    ensures builder.state == old(builder.state).Put(InterfaceNode(d))
    ensures builder.state.WellNested()
  {
    hide Base64.Encode;
    builder.BeginObject();
    ghost var record := SaveFields(d, builder);
    ghost var items := EndpointItems(d);
    PruneGrows(record, UsbEndpoints, Arr(items));
    if d.endpoints.Some? && |d.endpoints.value| > 0 {
      SaveEndpoints(d.endpoints.value, builder);
    }
    record := record[UsbEndpoints := Arr(items)];
    record := builder.AddMember(ExtraData, DataNode(NonEmpty(d.extra)), record);
    builder.EndObject();
  }

  method SaveFields(d: Iface, builder: JsonBuilder) returns (ghost record: Members)
    requires builder.state.WellNested() && builder.state.AtMember() && builder.state.members == map[]
    modifies builder
    ensures record == FieldRecord(d)
    ensures builder.state == old(builder.state).(members := Prune(record))
    ensures builder.state.WellNested()
  {
    record := map[];
    record := builder.AddMember(Length, Int(d.length), record);
    record := builder.AddMember(DescriptorType, Int(d.descriptorType), record);
    record := builder.AddMember(InterfaceNumber, Int(d.number), record);
    record := builder.AddMember(AlternateSetting, Int(d.alternate), record);
    record := builder.AddMember(InterfaceClass, Int(d.class_), record);
    record := builder.AddMember(InterfaceSubClass, Int(d.subclass), record);
    record := builder.AddMember(InterfaceProtocol, Int(d.protocol), record);
    record := builder.AddMember(Interface, Int(d.index), record);
  }

  method SaveEndpoints(s: seq<E.Endpoint>, builder: JsonBuilder)
    requires builder.state.WellNested() && builder.state.AtMember() && UsbEndpoints !in builder.state.members
    modifies builder
    ensures builder.state ==
            old(builder.state).(members := old(builder.state.members)[UsbEndpoints := Arr(Map(s, E.EndpointNode))])
    ensures builder.state.WellNested()
  {
    builder.SetMemberName(UsbEndpoints);
    builder.BeginArray();
    ghost var outer := builder.state.below;
    for i := 0 to |s|
      invariant builder.state.WellNested()
      invariant builder.state == InArray(outer, Map(s[..i], E.EndpointNode))
    {
      E.SaveEndpoint(s[i], builder);
      assert Map(s[..i + 1], E.EndpointNode) == Map(s[..i], E.EndpointNode) + [E.EndpointNode(s[i])];
    }
    assert s[..|s|] == s;
    builder.EndArray();
  }
}
