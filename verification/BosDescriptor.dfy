/** gusb-bos-descriptor.c: the saved part of a device capability descriptor. */
module BosDescriptor {
  import opened Basics
  import opened Json
  import Base64

  datatype Bos = Bos(capability: Byte, extra: Option<Bytes>)

  const BLANK := Bos(0, None)

  function BosRecord(b: Bos): Members {
    map[DevCapabilityType := Int(b.capability), ExtraData := DataNode(NonEmpty(b.extra))]
  }

  function BosNode(b: Bos): Json { Obj(Prune(BosRecord(b))) }

  /** What loading the members into a descriptor leaves there. */
  function BosOver(was: Bos, m: Members): Bos {
    Bos(ToByte(GetInt(m, DevCapabilityType)), Keep(GetData(m, ExtraData), was.extra))
  }

  function LoadBos(j: Json): Option<Bos> {
    if j.Obj? then Some(BosOver(BLANK, j.members)) else None
  }

  /** What a save keeps. */
  function Normal(b: Bos): Bos { b.(extra := NonEmpty(b.extra)) }

  lemma {:induction false} BosRoundTrip(b: Bos)
    ensures LoadBos(BosNode(b)) == Some(Normal(b))
  {
    hide Base64.Encode, Base64.Decode;
    ReadInt(BosRecord(b), DevCapabilityType, b.capability);
    ReadData(BosRecord(b), ExtraData, NonEmpty(b.extra));
  }

  /** The saved members, under their names; what is zero or without content is left out. */
  lemma {:induction false} BosMembers(b: Bos)
    ensures var j := BosNode(b);
            && j.Obj?
            && HoldsInt(j.members, DevCapabilityType, b.capability)
            && HoldsExtra(j.members, ExtraData, b.extra)
  {
    hide Base64.Encode;
  }

  /** The capability comes back, and every extra byte; none at all comes back as none. */
  lemma {:induction false} BosComesBack(b: Bos)
    ensures var j := LoadBos(BosNode(b));
            && j.Some? && j.value.capability == b.capability
            && (b.extra.Some? && |b.extra.value| > 0 ==> j.value.extra == b.extra)
            && (b.extra.None? || |b.extra.value| == 0 ==> j.value.extra == None)
  {
    hide BosNode, LoadBos;
    BosRoundTrip(b);
  }

  class UsbBosDescriptor {
    var desc: Bos

    constructor ()
      ensures desc == BLANK
    {
      desc := BLANK;
    }

    /** _g_usb_bos_descriptor_new: the data is all but the three-byte header. */
    constructor FromCapability(capability: Byte, data: Bytes)
      ensures desc == Bos(capability, Some(data))
    {
      desc := Bos(capability, Some(data));
    }

    method Load(members: Members)
      modifies this
      ensures desc == BosOver(old(desc), members)
    {
      desc := desc.(capability := ToByte(GetInt(members, DevCapabilityType)));
      var data := GetData(members, ExtraData);
      if data.Some? {
        desc := desc.(extra := data);
      }
    }
  }

  method SaveBos(desc: Bos, builder: JsonBuilder)
    requires builder.state.WellNested() && builder.state.AwaitsValue()
    modifies builder
    ensures builder.state == old(builder.state).Put(BosNode(desc))
    ensures builder.state.WellNested()
  {
    hide Base64.Encode;
    builder.BeginObject();
    ghost var record := map[];
    record := builder.AddMember(DevCapabilityType, Int(desc.capability), record);
    record := builder.AddMember(ExtraData, DataNode(NonEmpty(desc.extra)), record);
    builder.EndObject();
  }
}
