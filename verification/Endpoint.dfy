/** gusb-endpoint.c: the saved part of an endpoint descriptor. */
module Endpoint {
  import opened Basics
  import opened Json
  import Base64

  datatype Endpoint = Endpoint(
    descriptorType: Byte, endpointAddress: Byte, refresh: Byte, interval: Byte,
    synchAddress: Byte, maxPacketSize: Word, extra: Option<Bytes>)

  /** g_object_new */
  const BLANK := Endpoint(0, 0, 0, 0, 0, 0, None)

  function EndpointRecord(e: Endpoint): Members {
    map[DescriptorType := Int(e.descriptorType), EndpointAddress := Int(e.endpointAddress),
        Refresh := Int(e.refresh), Interval := Int(e.interval),
        SynchAddress := Int(e.synchAddress), MaxPacketSize := Int(e.maxPacketSize),
        ExtraData := DataNode(NonEmpty(e.extra))]
  }

  function EndpointNode(e: Endpoint): Json { Obj(Prune(EndpointRecord(e))) }

  /** What loading the members into an endpoint leaves there. */
  function EndpointOver(was: Endpoint, m: Members): Endpoint {
    Endpoint(ToByte(GetInt(m, DescriptorType)), ToByte(GetInt(m, EndpointAddress)),
             ToByte(GetInt(m, Refresh)), ToByte(GetInt(m, Interval)),
             ToByte(GetInt(m, SynchAddress)), ToWord(GetInt(m, MaxPacketSize)),
             Keep(GetData(m, ExtraData), was.extra))
  }

  function LoadEndpoint(j: Json): Option<Endpoint> {
    if j.Obj? then Some(EndpointOver(BLANK, j.members)) else None
  }

  /** What a save keeps: extra data without content becomes absent. */
  function Normal(e: Endpoint): Endpoint { e.(extra := NonEmpty(e.extra)) }

  lemma {:induction false} EndpointRoundTrip(e: Endpoint)
    ensures LoadEndpoint(EndpointNode(e)) == Some(Normal(e))
  {
    hide Base64.Encode, Base64.Decode;
    var record := EndpointRecord(e);
    ReadInt(record, DescriptorType, e.descriptorType);
    ReadInt(record, EndpointAddress, e.endpointAddress);
    ReadInt(record, Refresh, e.refresh);
    ReadInt(record, Interval, e.interval);
    ReadInt(record, SynchAddress, e.synchAddress);
    ReadInt(record, MaxPacketSize, e.maxPacketSize);
    ReadData(record, ExtraData, NonEmpty(e.extra));
  }

  /** The saved members, under their names; what is zero or without content is left out. */
  lemma {:induction false} EndpointMembers(e: Endpoint)
    ensures var j := EndpointNode(e);
            && j.Obj?
            && HoldsInt(j.members, DescriptorType, e.descriptorType)
            && HoldsInt(j.members, EndpointAddress, e.endpointAddress)
            && HoldsInt(j.members, Refresh, e.refresh)
            && HoldsInt(j.members, Interval, e.interval)
            && HoldsInt(j.members, SynchAddress, e.synchAddress)
            && HoldsInt(j.members, MaxPacketSize, e.maxPacketSize)
            && HoldsExtra(j.members, ExtraData, e.extra)
  {
    hide Base64.Encode;
  }

  /** Every field comes back, and every extra byte; none at all comes back as none. */
  lemma {:induction false} EndpointComesBack(e: Endpoint)
    ensures var j := LoadEndpoint(EndpointNode(e));
            && j.Some? && j.value == e.(extra := j.value.extra)
            && (e.extra.Some? && |e.extra.value| > 0 ==> j.value.extra == e.extra)
            && (e.extra.None? || |e.extra.value| == 0 ==> j.value.extra == None)
  {
    hide EndpointNode, LoadEndpoint;
    EndpointRoundTrip(e);
  }

  class UsbEndpoint {
    var desc: Endpoint

    constructor ()
      ensures desc == BLANK
    {
      desc := BLANK;
    }

    method Load(members: Members)
      modifies this
      ensures desc == EndpointOver(old(desc), members)
    {
      desc := desc.(descriptorType := ToByte(GetInt(members, DescriptorType)),
                    endpointAddress := ToByte(GetInt(members, EndpointAddress)),
                    refresh := ToByte(GetInt(members, Refresh)),
                    interval := ToByte(GetInt(members, Interval)),
                    synchAddress := ToByte(GetInt(members, SynchAddress)),
                    maxPacketSize := ToWord(GetInt(members, MaxPacketSize)));
      var data := GetData(members, ExtraData);
      if data.Some? {
        desc := desc.(extra := data);
      }
    }
  }

  method SaveEndpoint(desc: Endpoint, builder: JsonBuilder)
    requires builder.state.WellNested() && builder.state.AwaitsValue()
    modifies builder
    ensures builder.state == old(builder.state).Put(EndpointNode(desc))
    ensures builder.state.WellNested()
  {
    hide Base64.Encode;
    builder.BeginObject();
    ghost var record := map[];
    record := builder.AddMember(DescriptorType, Int(desc.descriptorType), record);
    record := builder.AddMember(EndpointAddress, Int(desc.endpointAddress), record);
    record := builder.AddMember(Refresh, Int(desc.refresh), record);
    record := builder.AddMember(Interval, Int(desc.interval), record);
    record := builder.AddMember(SynchAddress, Int(desc.synchAddress), record);
    record := builder.AddMember(MaxPacketSize, Int(desc.maxPacketSize), record);
    record := builder.AddMember(ExtraData, DataNode(NonEmpty(desc.extra)), record);
    builder.EndObject();
  }
}
