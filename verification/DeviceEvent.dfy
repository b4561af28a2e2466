/** gusb-device-event.c: one recorded transfer or query. */
module DeviceEvent {
  import opened Basics
  import opened Json
  import Base64

  /** enum libusb_transfer_status */
  const TRANSFER_COMPLETED := 0

  /** enum libusb_error */
  const SUCCESS := 0

  /** gint */
  type Int32 = x: int | -0x8000_0000 <= x < 0x8000_0000

  function ToInt32(i: int): Int32 {
    (i + 0x8000_0000) % 0x1_0000_0000 - 0x8000_0000
  }

  lemma {:induction false} Wraps(i: int)
    ensures (i - ToInt32(i)) % 0x1_0000_0000 == 0
    ensures -0x8000_0000 <= i < 0x8000_0000 ==> ToInt32(i) == i
  {
  }

  datatype Event = Event(id: Option<string>, status: Int32, rc: Int32, bytes: Option<Bytes>)

  function EventRecord(e: Event): Members {
    map[Id := StringNode(e.id), Status := Int(e.status), Error := Int(e.rc), Data := DataNode(e.bytes)]
  }

  function EventNode(e: Event): Json { Obj(Prune(EventRecord(e))) }

  const BLANK := Event(None, TRANSFER_COMPLETED, SUCCESS, None)

  /** What loading the members into an event leaves there. */
  function EventOver(was: Event, m: Members): Event {
    Event(GetString(m, Id), ToInt32(GetInt(m, Status)), ToInt32(GetInt(m, Error)),
          Keep(GetData(m, Data), was.bytes))
  }

  function LoadEvent(j: Json): Option<Event> {
    if j.Obj? then Some(EventOver(BLANK, j.members)) else None
  }

  /** Every field survives, and empty data stays distinct from absent data. */
  lemma {:induction false} EventRoundTrip(e: Event)
    ensures LoadEvent(EventNode(e)) == Some(e)
  {
    hide Base64.Encode, Base64.Decode;
    var record := EventRecord(e);
    ReadString(record, Id, e.id);
    ReadInt(record, Status, e.status);
    ReadInt(record, Error, e.rc);
    ReadData(record, Data, e.bytes);
  }

  /** The saved members, under their names; empty bytes are written, absent ones are not. */
  lemma {:induction false} EventMembers(e: Event)
    ensures var j := EventNode(e);
            && j.Obj?
            && HoldsText(j.members, Id, e.id)
            && HoldsInt(j.members, Status, e.status)
            && HoldsInt(j.members, Error, e.rc)
            && (Data in j.members <==> e.bytes.Some?)
            && (Data in j.members ==> j.members[Data] == Str(Base64.Encode(e.bytes.value)))
  {
    hide Base64.Encode;
  }

  class UsbDeviceEvent {
    var id: Option<string>
    var status: Int32
    var rc: Int32
    var bytes: Option<Bytes>

    ghost function View(): Event
      reads this
    {
      Event(id, status, rc, bytes)
    }

    constructor (id: Option<string>)
      ensures View() == Event(id, TRANSFER_COMPLETED, SUCCESS, None)
    {
      this.id := id;
      status, rc, bytes := TRANSFER_COMPLETED, SUCCESS, None;
    }

    /** An object that holds what the value says. */
    constructor Holding(e: Event)
      ensures View() == e
    {
      id, status, rc, bytes := e.id, e.status, e.rc, e.bytes;
    }

    method SetStatus(status: Int32)
      modifies this
      ensures View() == old(View()).(status := status)
    {
      this.status := status;
    }

    /** A positive code is refused. */
    method SetRc(rc: Int32)
      modifies this
      ensures View() == if rc <= 0 then old(View()).(rc := rc) else old(View())
    {
      if rc > 0 {
        return;
      }
      this.rc := rc;
    }

    method SetBytesRaw(buf: Bytes)
      modifies this
      ensures View() == old(View()).(bytes := Some(buf))
    {
      bytes := Some(buf);
    }

    method Load(members: Members)
      modifies this
      ensures View() == EventOver(old(View()), members)
    {
      id := GetString(members, Id);
      status := ToInt32(GetInt(members, Status));
      rc := ToInt32(GetInt(members, Error));
      var data := GetData(members, Data);
      if data.Some? {
        bytes := data;
      }
    }

    method Save(builder: JsonBuilder)
      requires builder.state.WellNested() && builder.state.AwaitsValue()
      modifies builder
      ensures builder.state == old(builder.state).Put(EventNode(View()))
      ensures builder.state.WellNested()
    {
      hide Base64.Encode;
      builder.BeginObject();
      ghost var record := map[];
      record := builder.AddMember(Id, StringNode(id), record);
      record := builder.AddMember(Status, Int(status), record);
      record := builder.AddMember(Error, Int(rc), record);
      record := builder.AddMember(Data, DataNode(bytes), record);
      builder.EndObject();
    }
  }
}
