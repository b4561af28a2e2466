/** gusb-device.c: the device object, recording on real hardware or replaying a log. */
module UsbDevice {
  import opened Basics
  import opened Json
  import opened EventKey
  import opened EventLog
  import opened Transfer
  import Base64
  import B = BosDescriptor
  import C = DescriptorCache
  import D = Device
  import F = InFlight
  import H = HidReport
  import I = Interface
  import P = PlatformId
  import V = DeviceEvent

  ghost function EventViews(s: seq<V.UsbDeviceEvent>): (r: seq<V.Event>)
    reads s
    ensures |r| == |s| && forall i :: 0 <= i < |s| ==> r[i] == s[i].View()
  {
    seq(|s|, i requires 0 <= i < |s| reads s => s[i].View())
  }

  /** GcmDeviceReq: a submitted transfer, its caller's buffer and the event to fill in. */
  class PendingTransfer {
    const control: bool
    const data: array<Byte>
    const event: V.UsbDeviceEvent?

    constructor (control: bool, data: array<Byte>, event: V.UsbDeviceEvent?)
      ensures this.control == control && this.data == data && this.event == event
    {
      this.control, this.data, this.event := control, data, event;
    }
  }

  /** gusb_memcpy_bytes_safe */
  method MemcpyBytesSafe(dst: array<Byte>, bytes: Bytes) returns (error: Option<GError>)
    modifies dst
    ensures error == if dst.Length < |bytes| then Some(CannotCopy(|bytes|, dst.Length)) else None
    ensures dst[..] == if dst.Length < |bytes| then old(dst[..]) else Copied(old(dst[..]), bytes)
  {
    if dst.Length < |bytes| {
      return Some(CannotCopy(|bytes|, dst.Length));
    }
    if dst[..|bytes|] == bytes {
      assert dst[..] == dst[..|bytes|] + dst[|bytes|..];
      return None;
    }
    for i := 0 to |bytes|
      invariant forall k :: 0 <= k < i ==> dst[k] == bytes[k]
      invariant forall k :: i <= k < dst.Length ==> dst[k] == old(dst[k])
    {
      dst[i] := bytes[i];
    }
    assert dst[..] == bytes + old(dst[..])[|bytes|..];
    return None;
  }

  class UsbDevice {
    /** Not backed by a libusb_device. */
    const emulated: bool
    /** The context has G_USB_CONTEXT_FLAGS_SAVE_EVENTS. */
    const saveEvents: bool
    /** The context has G_USB_CONTEXT_FLAGS_AUTO_OPEN_DEVICES. */
    const autoOpen: bool
    /** priv->handle is set. */
    var open: bool

    var events: seq<V.UsbDeviceEvent>
    var eventIdx: nat

    ghost function Log(): seq<V.Event>
      reads this`events, events
    {
      EventViews(events)
    }

    // ---- the event log ----

    method LoadEvent(id: string) returns (event: V.UsbDeviceEvent?)
      modifies this`eventIdx
      ensures var found := Search(IdsOf(Log()), old(eventIdx), id);
              eventIdx == found.cursor &&
              event == (match found.at case Some(i) => events[i] case None => null)
    {
      hide FirstMatch;
      ghost var ids := IdsOf(Log());
      assert |ids| == |events| && forall k :: 0 <= k < |ids| ==> ids[k] == events[k].id;
      if eventIdx >= |events| {
        eventIdx := 0;
      }
      for i := eventIdx to |events|
        invariant eventIdx == Start(ids, old(eventIdx))
        invariant forall k :: eventIdx <= k < i ==> ids[k] != Some(id)
      {
        if events[i].id == Some(id) {
          IsFirst(ids, id, eventIdx, i);
          eventIdx := i + 1;
          return events[i];
        }
      }
      IsNone(ids, id, eventIdx);
      for i := 0 to |events|
        invariant eventIdx == Start(ids, old(eventIdx))
        invariant forall k :: 0 <= k < i ==> ids[k] != Some(id)
      {
        if events[i].id == Some(id) {
          IsFirst(ids, id, 0, i);
          eventIdx := i + 1;
          return events[i];
        }
      }
      IsNone(ids, id, 0);
      return null;
    }

    method SaveEvent(id: string) returns (event: V.UsbDeviceEvent)
      modifies this`events
      ensures fresh(event) && events == old(events) + [event]
      ensures event.View() == V.BLANK.(id := Some(id))
    {
      event := new V.UsbDeviceEvent(Some(id));
      events := events + [event];
    }

    method ClearEvents()
      modifies this`events, this`eventIdx
      ensures events == [] && eventIdx == 0
    {
      eventIdx := 0;
      events := [];
    }

    method AddEvent(event: V.UsbDeviceEvent)
      modifies this`events
      ensures events == old(events) + [event]
    {
      events := events + [event];
    }

    // ---- transfers ----

    method EmulatedTransfer(req: Request, data: array<Byte>) returns (result: Result)
      requires emulated && req.Transfer() && req.data == data[..]
      modifies this`eventIdx, data
      ensures Outcome(result, data[..]) == Answered(Log(), old(eventIdx), req)
      ensures eventIdx == Search(IdsOf(Log()), old(eventIdx), Key(req)).cursor
    {
      hide Key, Search;
      var event := LoadEvent(Key(req));
      if event == null {
        return Failed(NoMatchingEvent(Key(req)));
      }
      if ErrorOf(event.rc).Some? {
        return Failed(ErrorOf(event.rc).value);
      }
      if StatusError(event.status).Some? {
        return Failed(StatusError(event.status).value);
      }
      if event.bytes.None? {
        return Failed(NoMatchingData(Key(req)));
      }
      var error := MemcpyBytesSafe(data, event.bytes.value);
      if error.Some? {
        return Failed(error.value);
      }
      return Result.Length(|event.bytes.value|);
    }

    /** The event is appended before the transfer is handed to libusb, which answers rc. */
    method SubmitTransfer(req: Request, data: array<Byte>, rc: V.Int32)
      returns (pending: PendingTransfer?, failure: Option<GError>)
      requires !emulated && req.Transfer()
      modifies this`events
      ensures pending == null <==> failure.Some?
      ensures !open ==> failure == Some(DeviceNotOpen)
      ensures open && rc < 0 ==> failure == ErrorOf(rc)
      ensures open && rc >= 0 ==> failure == None
      ensures open && saveEvents ==>
                |events| == |old(events)| + 1 && events[..|old(events)|] == old(events) &&
                fresh(events[|old(events)|]) &&
                Log() == old(Log()) + [F.Submitted(req, rc)]
      ensures !(open && saveEvents) ==> events == old(events)
      ensures pending != null ==>
                pending.control == req.ControlTransfer? && pending.data == data &&
                pending.event == (if saveEvents then events[|old(events)|] else null)
    {
      hide Key;
      if !open {
        return null, Some(DeviceNotOpen);
      }
      var event: V.UsbDeviceEvent? := null;
      if saveEvents {
        event := SaveEvent(Key(req));
      }
      if rc < 0 {
        if event != null {
          event.SetRc(rc);
        }
        return null, ErrorOf(rc);
      }
      pending := new PendingTransfer(req.ControlTransfer?, data, event);
      return pending, None;
    }

    /** g_usb_device_control_transfer_cb: the device worked on a copy of the caller's buffer. */
    method ControlTransferCb(pending: PendingTransfer, resp: Response, ghost t: nat) returns (result: Result)
      requires resp.Completed? && |resp.buffer| == pending.data.Length && resp.actual <= |resp.buffer|
      requires pending.event != null ==> Distinct(events) && t < |events| && events[t] == pending.event
      modifies pending.data, pending.event
      ensures result == (match StatusError(resp.status) case Some(e) => Failed(e) case None => Result.Length(resp.actual))
      ensures pending.data[..] == if resp.status == V.TRANSFER_COMPLETED then
                                    Copied(old(pending.data[..]), resp.buffer[..resp.actual])
                                  else old(pending.data[..])
      ensures pending.event != null ==> Log() == old(Log())[t := F.Filled(old(Log())[t], resp)]
    {
      if StatusError(resp.status).Some? {
        if pending.event != null {
          pending.event.SetStatus(resp.status);
        }
        return Failed(StatusError(resp.status).value);
      }
      for i := 0 to resp.actual
        invariant forall k :: 0 <= k < i ==> pending.data[k] == resp.buffer[k]
        invariant forall k :: i <= k < pending.data.Length ==> pending.data[k] == old(pending.data[k])
        modifies pending.data
      {
        pending.data[i] := resp.buffer[i];
      }
      assert pending.data[..] == Copied(old(pending.data[..]), resp.buffer[..resp.actual]);
      if pending.event != null {
        pending.event.SetBytesRaw(resp.buffer[..resp.actual]);
      }
      return Result.Length(resp.actual);
    }

    /** g_usb_device_async_transfer_cb: libusb has written the caller's buffer in place. */
    method AsyncTransferCb(pending: PendingTransfer, resp: Response, ghost t: nat) returns (result: Result)
      requires resp.Completed? && |resp.buffer| == pending.data.Length && resp.actual <= |resp.buffer|
      requires pending.event != null ==> Distinct(events) && t < |events| && events[t] == pending.event
      modifies pending.data, pending.event
      ensures result == (match StatusError(resp.status) case Some(e) => Failed(e) case None => Result.Length(resp.actual))
      ensures pending.data[..] == resp.buffer
      ensures pending.event != null ==> Log() == old(Log())[t := F.Filled(old(Log())[t], resp)]
    {
      forall i | 0 <= i < pending.data.Length {
        pending.data[i] := resp.buffer[i];
      }
      assert pending.data[..] == resp.buffer;
      if StatusError(resp.status).Some? {
        if pending.event != null {
          pending.event.SetStatus(resp.status);
        }
        return Failed(StatusError(resp.status).value);
      }
      if pending.event != null {
        pending.event.SetBytesRaw(pending.data[..resp.actual]);
      }
      return Result.Length(resp.actual);
    }

    /** A transfer on an open device, waited for: the outcome and the log entry of the model. */
    method TransferAndWait(req: Request, data: array<Byte>, resp: Response) returns (result: Result)
      requires !emulated && open && req.Transfer() && req.data == data[..] && Fits(req, resp)
      requires Distinct(events)
      modifies this`events, data
      ensures Outcome(result, data[..]) == Live(req, resp)
      ensures Distinct(events)
      ensures Log() == old(Log()) + if saveEvents then [Recorded(req, resp).value] else []
    {
      hide Key;
      ghost var t := |events|;
      var rc := if resp.SubmitFailed? then resp.rc else V.SUCCESS;
      var pending, failure := SubmitTransfer(req, data, rc);
      if pending == null {
        return Failed(failure.value);
      }
      if pending.control {
        result := ControlTransferCb(pending, resp, t);
      } else {
        result := AsyncTransferCb(pending, resp, t);
      }
    }

    // ---- queries ----

    /** A saving context logs an answered query as a finished event. */
    method RecordAnswer(key: string, bytes: Bytes)
      modifies this`events
      ensures Log() == old(Log()) + if saveEvents then [V.BLANK.(id := Some(key), bytes := Some(bytes))] else []
    {
      if saveEvents {
        var event := SaveEvent(key);
        event.SetBytesRaw(bytes);
      }
    }


    /** The first interface of the given kind decides, even with index 0. */
    static method FindHead(heads: seq<Head>, classId: Byte, subclassId: Byte, protocolId: Byte) returns (index: Byte)
      ensures index == CustomIndex(heads, classId, subclassId, protocolId)
      ensures || (exists i: nat :: FirstOfKind(heads, i, classId, subclassId, protocolId) && index == heads[i].index)
              || (NoneOfKind(heads, classId, subclassId, protocolId) && index == 0)
    {
      CustomIndexIsFirst(heads, classId, subclassId, protocolId);
      for i := 0 to |heads|
        invariant forall k :: 0 <= k < i ==>
                    heads[k].classId != classId || heads[k].subclassId != subclassId || heads[k].protocolId != protocolId
      {
        var head := heads[i];
        if head.classId != classId || head.subclassId != subclassId || head.protocolId != protocolId {
          continue;
        }
        assert FirstOfKind(heads, i, classId, subclassId, protocolId);
        return head.index;
      }
      return 0;
    }

    method GetCustomIndex(classId: Byte, subclassId: Byte, protocolId: Byte, resp: Response) returns (result: Result)
      requires !emulated ==> Fits(Request.GetCustomIndex(classId, subclassId, protocolId), resp)
      modifies this`events, this`eventIdx
      ensures var req := Request.GetCustomIndex(classId, subclassId, protocolId);
              emulated ==>
                Outcome(result, []) == Answered(Log(), old(eventIdx), req) && events == old(events) &&
                eventIdx == Search(IdsOf(Log()), old(eventIdx), Key(req)).cursor
      ensures var req := Request.GetCustomIndex(classId, subclassId, protocolId);
              !emulated ==>
                Outcome(result, []) == Live(req, resp) && eventIdx == old(eventIdx) &&
                Log() == old(Log()) + if saveEvents && Recorded(req, resp).Some? then [Recorded(req, resp).value] else []
      ensures !emulated && resp.Config? ==>
                && (NoneOfKind(resp.heads, classId, subclassId, protocolId) ==> result == Failed(NoVendorDescriptor))
                && forall i: nat :: FirstOfKind(resp.heads, i, classId, subclassId, protocolId) ==>
                     result == if resp.heads[i].index == 0 then Failed(NoVendorDescriptor) else Index(resp.heads[i].index)
    {
      hide Key, Search, FirstOfKind, NoneOfKind;
      if resp.Config? {
        CustomIndexIsFirst(resp.heads, classId, subclassId, protocolId);
      }
      var req := Request.GetCustomIndex(classId, subclassId, protocolId);
      if emulated {
        var event := LoadEvent(Key(req));
        if event == null {
          return Failed(NoMatchingEvent(Key(req)));
        }
        if ErrorOf(event.rc).Some? {
          return Failed(ErrorOf(event.rc).value);
        }
        if event.bytes.None? || |event.bytes.value| != 1 {
          return Failed(NoMatchingData(Key(req)));
        }
        return Index(event.bytes.value[0]);
      }
      if resp.QueryFailed? {
        return Failed(ErrorOf(resp.rc).value);
      }
      var index := FindHead(resp.heads, classId, subclassId, protocolId);
      if index == 0 {
        return Failed(NoVendorDescriptor);
      }
      RecordAnswer(Key(req), [index]);
      return Index(index);
    }

    method GetStringDescriptor(descIndex: Byte, resp: Response) returns (result: Result)
      requires !emulated ==> Fits(Request.GetStringDescriptor(descIndex), resp)
      modifies this`events, this`eventIdx
      ensures var req := Request.GetStringDescriptor(descIndex);
              emulated ==>
                Outcome(result, []) == Answered(Log(), old(eventIdx), req) && events == old(events) &&
                eventIdx == Search(IdsOf(Log()), old(eventIdx), Key(req)).cursor
      ensures var req := Request.GetStringDescriptor(descIndex);
              !emulated && open ==>
                Outcome(result, []) == Live(req, resp) && eventIdx == old(eventIdx) &&
                Log() == old(Log()) + if saveEvents && Recorded(req, resp).Some? then [Recorded(req, resp).value] else []
      ensures !emulated && !open ==> result == Failed(DeviceNotOpen) && events == old(events) && eventIdx == old(eventIdx)
    {
      hide Key, Search;
      var req := Request.GetStringDescriptor(descIndex);
      if emulated {
        var event := LoadEvent(Key(req));
        if event == null {
          return Failed(NoMatchingEvent(Key(req)));
        }
        if ErrorOf(event.rc).Some? {
          return Failed(ErrorOf(event.rc).value);
        }
        if event.bytes.None? {
          return Failed(NoMatchingData(Key(req)));
        }
        return Answer(CString(event.bytes.value));
      }
      if !open {
        return Failed(DeviceNotOpen);
      }
      if resp.QueryFailed? {
        return Failed(ErrorOf(resp.rc).value);
      }
      RecordAnswer(Key(req), resp.buf);
      return Answer(CString(resp.buf));
    }

    method GetStringDescriptorBytes(descIndex: Byte, langid: Word, length: nat, resp: Response) returns (result: Result)
      requires !emulated ==> Fits(Request.GetStringDescriptorBytes(descIndex, langid, length), resp)
      modifies this`events, this`eventIdx
      ensures var req := Request.GetStringDescriptorBytes(descIndex, langid, length);
              emulated ==>
                Outcome(result, []) == Answered(Log(), old(eventIdx), req) && events == old(events) &&
                eventIdx == Search(IdsOf(Log()), old(eventIdx), Key(req)).cursor
      ensures var req := Request.GetStringDescriptorBytes(descIndex, langid, length);
              !emulated && open ==>
                Outcome(result, []) == Live(req, resp) && eventIdx == old(eventIdx) &&
                Log() == old(Log()) + if saveEvents && Recorded(req, resp).Some? then [Recorded(req, resp).value] else []
      ensures !emulated && !open ==> result == Failed(DeviceNotOpen) && events == old(events) && eventIdx == old(eventIdx)
    {
      hide Key, Search;
      var req := Request.GetStringDescriptorBytes(descIndex, langid, length);
      if emulated {
        var event := LoadEvent(Key(req));
        if event == null {
          return Failed(NoMatchingEvent(Key(req)));
        }
        if ErrorOf(event.rc).Some? {
          return Failed(ErrorOf(event.rc).value);
        }
        if event.bytes.None? {
          return Failed(NoMatchingData(Key(req)));
        }
        return Answer(event.bytes.value);
      }
      if !open {
        return Failed(DeviceNotOpen);
      }
      if resp.QueryFailed? {
        return Failed(ErrorOf(resp.rc).value);
      }
      RecordAnswer(Key(req), resp.bytes);
      return Answer(resp.bytes);
    }

    method GetConfigurationIndex(resp: Response) returns (result: Result)
      requires !emulated ==> Fits(Request.GetConfigurationIndex, resp)
      modifies this`events, this`eventIdx
      ensures var req := Request.GetConfigurationIndex;
              emulated ==>
                Outcome(result, []) == Answered(Log(), old(eventIdx), req) && events == old(events) &&
                eventIdx == Search(IdsOf(Log()), old(eventIdx), Key(req)).cursor
      ensures var req := Request.GetConfigurationIndex;
              !emulated ==>
                Outcome(result, []) == Live(req, resp) && eventIdx == old(eventIdx) &&
                Log() == old(Log()) + if saveEvents && Recorded(req, resp).Some? then [Recorded(req, resp).value] else []
    {
      hide Key, Search;
      var req := Request.GetConfigurationIndex;
      if emulated {
        var event := LoadEvent(Key(req));
        if event == null || event.bytes.None? || event.bytes.value == [] {
          return Index(0);
        }
        return Index(event.bytes.value[0]);
      }
      if resp.QueryFailed? {
        return Index(0);
      }
      RecordAnswer(Key(req), [resp.configuration]);
      return Index(resp.configuration);
    }

    // ---- the descriptor tree ----

    var platformId: Option<string>
    var created: int
    var desc: D.Desc
    var tags: seq<string>
    var interfacesValid: bool
    var bosValid: bool
    var hidValid: bool
    var interfaces: seq<I.Iface>
    var bosDescriptors: seq<B.Bos>
    var hidDescriptors: seq<Bytes>

    ghost function View(): D.Tree
      reads this, events
    {
      D.Tree(platformId, created, tags, desc, bosDescriptors, hidDescriptors, interfaces, Log())
    }

    /** g_object_new without a libusb_device, at the time now. */
    constructor Emulated(now: int, saveEvents: bool)
      ensures emulated && this.saveEvents == saveEvents && !open
      ensures View() == D.Blank(now) && eventIdx == 0
      ensures InterfaceCache() == C.Empty() && BosCache() == C.Empty() && HidCache() == C.Empty()
    {
      emulated, this.saveEvents, autoOpen, open := true, saveEvents, false, false;
      events, eventIdx := [], 0;
      platformId, created, desc, tags := None, now, D.Blank(now).desc, [];
      interfacesValid, bosValid, hidValid := false, false, false;
      interfaces, bosDescriptors, hidDescriptors := [], [], [];
    }

    /** _g_usb_device_new, given the descriptor that libusb read. */
    constructor Real(bus: Byte, dev: P.Topology, desc: D.Desc, now: int, saveEvents: bool, autoOpen: bool)
      ensures !emulated && this.saveEvents == saveEvents && this.autoOpen == autoOpen && !open
      ensures View() == D.Blank(now).(platformId := Some(P.Print(bus, dev)), desc := desc) && eventIdx == 0
      ensures InterfaceCache() == C.Empty() && BosCache() == C.Empty() && HidCache() == C.Empty()
    {
      emulated, this.saveEvents, this.autoOpen, open := false, saveEvents, autoOpen, false;
      events, eventIdx := [], 0;
      created, this.desc, tags := now, desc, [];
      interfacesValid, bosValid, hidValid := false, false, false;
      interfaces, bosDescriptors, hidDescriptors := [], [], [];
      var id := P.BuildPlatformId(bus, dev);
      platformId := Some(id);
    }

    /** rc is what libusb_open returns. */
    method OpenInternal(rc: V.Int32) returns (error: Option<GError>)
      modifies this`open
      ensures error == if emulated then None else if old(open) then Some(DeviceAlreadyOpen) else ErrorOf(rc)
      ensures open == (old(open) || (!emulated && rc == V.SUCCESS))
    {
      if emulated {
        return None;
      }
      if open {
        return Some(DeviceAlreadyOpen);
      }
      open := rc == V.SUCCESS;
      return ErrorOf(rc);
    }

    /** Nothing to do where the context opens its devices itself. */
    method Open(rc: V.Int32) returns (error: Option<GError>)
      modifies this`open
      ensures error == if emulated || autoOpen then None else if old(open) then Some(DeviceAlreadyOpen) else ErrorOf(rc)
      ensures open == (old(open) || (!emulated && !autoOpen && rc == V.SUCCESS))
    {
      if emulated || autoOpen {
        return None;
      }
      error := OpenInternal(rc);
    }

    method Close() returns (error: Option<GError>)
      modifies this`open
      ensures error == if emulated || autoOpen || old(open) then None else Some(DeviceNotOpen)
      ensures open == (old(open) && (emulated || autoOpen))
    {
      if emulated || autoOpen {
        return None;
      }
      if !open {
        return Some(DeviceNotOpen);
      }
      open := false;
      return None;
    }

    method HasTag(tag: string) returns (has: bool)
      ensures has <==> tag in tags
    {
      for i := 0 to |tags|
        invariant tag !in tags[..i]
      {
        if tags[i] == tag {
          return true;
        }
      }
      return false;
    }

    /** A tag that is there already is not added again. */
    method AddTag(tag: string)
      modifies this`tags
      ensures tags == if tag in old(tags) then old(tags) else old(tags) + [tag]
      ensures old(Distinct(tags)) ==> Distinct(tags)
    {
      var has := HasTag(tag);
      if !has {
        tags := tags + [tag];
      }
    }

    // ---- the descriptor caches ----

    ghost function InterfaceCache(): C.Cache<I.Iface>
      reads this
    {
      C.Cache(interfacesValid, interfaces)
    }

    ghost function HidCache(): C.Cache<Bytes>
      reads this`hidValid, this`hidDescriptors
    {
      C.Cache(hidValid, hidDescriptors)
    }

    ghost function BosCache(): C.Cache<B.Bos>
      reads this
    {
      C.Cache(bosValid, bosDescriptors)
    }

    /** config is the active configuration, altsetting by altsetting, if libusb can read it. */
    method GetInterfaces(config: Option<seq<seq<I.Iface>>>) returns (ok: bool)
      requires config.Some? ==>
                 forall i, j :: 0 <= i < |config.value| && 0 <= j < |config.value[i]| ==>
                   config.value[i][j].endpoints.Some? && config.value[i][j].extra.Some?
      modifies this`interfaces, this`interfacesValid
      ensures InterfaceCache() ==
              C.AfterQuery(old(InterfaceCache()), if emulated then None else Configured(config))
      ensures ok <==> interfacesValid
      ensures old(!interfacesValid && interfaces == []) && !emulated && config.Some? ==>
                interfacesValid && HoldsAltsettings(interfaces, config.value)
    {
      hide HoldsAltsettings;
      if config.Some? {
        FlattenHolds(config.value);
      }
      if interfacesValid {
        return true;
      }
      if emulated || config.None? {
        return false;
      }
      var s := config.value;
      ghost var was := interfaces;
      for i := 0 to |s|
        invariant !interfacesValid && interfaces == was + Flatten(s[..i])
      {
        for j := 0 to |s[i]|
          invariant !interfacesValid && interfaces == was + Flatten(s[..i]) + s[i][..j]
        {
          var iface := new I.UsbInterface.FromDescriptor(s[i][j]);
          interfaces := interfaces + [iface.desc];
          assert s[i][..j + 1] == s[i][..j] + [s[i][j]];
        }
        assert s[i][..|s[i]|] == s[i];
        assert s[..i + 1][..i] == s[..i];
      }
      assert s[..|s|] == s;
      assert was == [] ==> interfaces == Flatten(s);
      interfacesValid := true;
      return true;
    }

    /** Only an open device above USB 2.0 is asked. */
    ghost function BosAnswer(caps: Option<seq<(Byte, Bytes)>>): Option<seq<B.Bos>>
      reads this`open, this`desc
    {
      if emulated || !open || desc.bcdUsb <= 0x0200 || caps.None? then None else Some(Map(caps.value, Capability))
    }

    /** caps is what libusb_get_bos_descriptor returns, if it succeeds. */
    method GetBosDescriptors(caps: Option<seq<(Byte, Bytes)>>) returns (ok: bool)
      modifies this`bosDescriptors, this`bosValid
      ensures BosCache() == C.AfterQuery(old(BosCache()), BosAnswer(caps))
      ensures ok <==> bosValid
      ensures old(!bosValid && bosDescriptors == []) && !emulated && open && desc.bcdUsb > 0x0200 && caps.Some? ==>
                bosValid && |bosDescriptors| == |caps.value| &&
                forall i :: 0 <= i < |caps.value| ==> bosDescriptors[i] == B.Bos(caps.value[i].0, Some(caps.value[i].1))
      ensures old(!bosValid) && (emulated || !open || desc.bcdUsb <= 0x0200 || caps.None?) ==>
                !bosValid && bosDescriptors == old(bosDescriptors)
    {
      if bosValid {
        return true;
      }
      if emulated || !open || desc.bcdUsb <= 0x0200 || caps.None? {
        return false;
      }
      var s := caps.value;
      ghost var was := bosDescriptors;
      for i := 0 to |s|
        invariant !bosValid && bosDescriptors == was + Map(s[..i], Capability)
      {
        var bos := new B.UsbBosDescriptor.FromCapability(s[i].0, s[i].1);
        bosDescriptors := bosDescriptors + [bos.desc];
        assert Map(s[..i + 1], Capability) == Map(s[..i], Capability) + [bos.desc];
      }
      assert s[..|s|] == s;
      bosValid := true;
      return true;
    }

    /** One transfer, waited for, into a new buffer. */
    method GetHidDescriptorForInterface(intf: I.Iface, i: nat, hardware: H.Hardware)
      returns (blob: Option<Bytes>)
      requires !emulated && open && Distinct(events) && H.Obeys(hardware)
      modifies this`events
      ensures Distinct(events)
      ensures match H.Size(intf.extra)
              case None => blob == None && Log() == old(Log())
              case Some(size) =>
                var req := H.Ask(intf, size);
                var resp := hardware(i, req);
                blob == H.Blob(req, resp) &&
                Log() == old(Log()) + if saveEvents then [Recorded(req, resp).value] else []
    {
      var size := H.Size(intf.extra);
      if size.None? {
        return None;
      }
      var data := new Byte[size.value](_ => 0);
      assert data[..] == H.Zeros(size.value);
      var req := H.Ask(intf, size.value);
      var resp := hardware(i, req);
      hide H.Ask;
      var result := TransferAndWait(req, data, resp);
      if !result.Length? || result.n < size.value {
        return None;
      }
      return Some(data[..result.n]);
    }

    /** config and hardware are what the device answers; what was read before a failure is kept. */
    method GetHidDescriptors(config: Option<seq<seq<I.Iface>>>, hardware: H.Hardware) returns (ok: bool)
      requires Distinct(events) && H.Obeys(hardware)
      requires config.Some? ==>
                 forall i, j :: 0 <= i < |config.value| && 0 <= j < |config.value[i]| ==>
                   config.value[i][j].endpoints.Some? && config.value[i][j].extra.Some?
      modifies this`events, this`interfaces, this`interfacesValid, this`hidDescriptors, this`hidValid
      ensures Distinct(events) && (ok <==> hidValid)
      ensures InterfaceCache() ==
              if old(hidValid) || emulated || !open then old(InterfaceCache())
              else C.AfterQuery(old(InterfaceCache()), Configured(config))
      ensures var reading := if !old(hidValid) && !emulated && open && interfacesValid
                             then H.Read(interfaces, 0, hardware) else H.Reading([], [], false);
              && HidCache() == C.AfterHid(old(HidCache()), C.Ask(reading.blobs, reading.complete))
              && Log() == old(Log()) + if saveEvents then reading.log else []
    {
      if hidValid {
        return true;
      }
      if emulated || !open {
        return false;
      }
      var found := GetInterfaces(config);
      if !found {
        return false;
      }
      hidValid := ReadHidDescriptors(interfaces, hardware);
      return hidValid;
    }

    /** The loop over the interfaces. */
    method ReadHidDescriptors(ifaces: seq<I.Iface>, hardware: H.Hardware) returns (complete: bool)
      requires !emulated && open && Distinct(events) && H.Obeys(hardware)
      modifies this`events, this`hidDescriptors
      ensures Distinct(events)
      ensures var reading := H.Read(ifaces, 0, hardware);
              && complete == reading.complete && hidDescriptors == old(hidDescriptors) + reading.blobs
              && Log() == old(Log()) + if saveEvents then reading.log else []
    {
      hide H.Size, H.Blob, H.Ask, H.Obeys, EventViews, Distinct;
      ghost var reading := H.Read(ifaces, 0, hardware);
      for i := 0 to |ifaces|
        invariant Distinct(events)
        invariant hidDescriptors + H.Read(ifaces, i, hardware).blobs == old(hidDescriptors) + reading.blobs
        invariant Log() + (if saveEvents then H.Read(ifaces, i, hardware).log else []) ==
                  old(Log()) + if saveEvents then reading.log else []
        invariant H.Read(ifaces, i, hardware).complete == reading.complete
      {
        if ifaces[i].class_ != H.CLASS_HID {
          continue;
        }
        var blob := GetHidDescriptorForInterface(ifaces[i], i, hardware);
        if blob.None? {
          return false;
        }
        hidDescriptors := hidDescriptors + [blob.value];
      }
      return true;
    }

    /** The HID array is emptied too, but stays marked as valid. */
    method Invalidate()
      modifies this`interfaces, this`interfacesValid, this`bosDescriptors, this`bosValid, this`hidDescriptors
      ensures InterfaceCache() == C.Empty() && BosCache() == C.Empty()
      ensures HidCache() == C.AfterHid(old(HidCache()), C.Forget)
    {
      interfacesValid := false;
      bosValid := false;
      interfaces := [];
      bosDescriptors := [];
      hidDescriptors := [];
    }

    // ---- saving ----

    /** The last three arguments are what the device answers if asked; an array whose cache is not valid is left out. */
    method Save(builder: JsonBuilder, config: Option<seq<seq<I.Iface>>>, caps: Option<seq<(Byte, Bytes)>>,
                hardware: H.Hardware)
      requires Distinct(events) && H.Obeys(hardware)
      requires builder.state.WellNested() && builder.state.AwaitsValue()
      requires config.Some? ==>
                 forall i, j :: 0 <= i < |config.value| && 0 <= j < |config.value[i]| ==>
                   config.value[i][j].endpoints.Some? && config.value[i][j].extra.Some?
      modifies builder, this`interfaces, this`interfacesValid, this`bosDescriptors, this`bosValid,
               this`hidDescriptors, this`hidValid, this`events
      ensures builder.state == old(builder.state).Put(D.DeviceNode(
                D.Tree(platformId, created, tags, desc, if bosValid then bosDescriptors else [],
                       if hidValid then hidDescriptors else [], if interfacesValid then interfaces else [], Log())))
      ensures builder.state.WellNested() && Distinct(events)
      ensures InterfaceCache() == C.AfterQuery(old(InterfaceCache()), if emulated then None else Configured(config))
      ensures BosCache() == C.AfterQuery(old(BosCache()), BosAnswer(caps))
      ensures var reading := if !old(hidValid) && !emulated && open && interfacesValid
                             then H.Read(interfaces, 0, hardware) else H.Reading([], [], false);
              && HidCache() == C.AfterHid(old(HidCache()), C.Ask(reading.blobs, reading.complete))
              && Log() == old(Log()) + if saveEvents then reading.log else []
    {
      hide D.DeviceNode, EventViews, H.Read, H.Obeys, Distinct, C.AfterQuery, C.AfterHid, Configured, BosAnswer;
      var hasBos, hasHid, hasInterfaces := AskForDescriptors(config, caps, hardware);
      SaveDevice(
        D.Tree(platformId, created, tags, desc, if hasBos then bosDescriptors else [],
               if hasHid then hidDescriptors else [], if hasInterfaces then interfaces else [], []),
        events, builder);
    }

    /** The three queries of a save, in its order. */
    method AskForDescriptors(config: Option<seq<seq<I.Iface>>>, caps: Option<seq<(Byte, Bytes)>>, hardware: H.Hardware)
      returns (hasBos: bool, hasHid: bool, hasInterfaces: bool)
      requires Distinct(events) && H.Obeys(hardware)
      requires config.Some? ==>
                 forall i, j :: 0 <= i < |config.value| && 0 <= j < |config.value[i]| ==>
                   config.value[i][j].endpoints.Some? && config.value[i][j].extra.Some?
      modifies this`interfaces, this`interfacesValid, this`bosDescriptors, this`bosValid,
               this`hidDescriptors, this`hidValid, this`events
      ensures Distinct(events) && hasBos == bosValid && hasHid == hidValid && hasInterfaces == interfacesValid
      ensures InterfaceCache() == C.AfterQuery(old(InterfaceCache()), if emulated then None else Configured(config))
      ensures BosCache() == C.AfterQuery(old(BosCache()), BosAnswer(caps))
      ensures var reading := if !old(hidValid) && !emulated && open && interfacesValid
                             then H.Read(interfaces, 0, hardware) else H.Reading([], [], false);
              && HidCache() == C.AfterHid(old(HidCache()), C.Ask(reading.blobs, reading.complete))
              && Log() == old(Log()) + if saveEvents then reading.log else []
    {
      hide Flatten, EventViews, H.Read, H.Obeys, Distinct, C.AfterQuery, C.AfterHid, Configured, BosAnswer;
      C.AskedTwice(InterfaceCache(), if emulated then None else Configured(config));
      hasBos := GetBosDescriptors(caps);
      hasHid := GetHidDescriptors(config, hardware);
      hasInterfaces := GetInterfaces(config);
    }

    // ---- loading ----

    /** A load that fails, on a date or a nested object that cannot be read, leaves what it had read so far. */
    method Load(members: Members) returns (ok: bool)
      modifies this
      ensures (ok, View()) == D.LoadInto(old(View()), members)
      ensures ok <==> D.DeviceOver(old(View()), members).Some?
      ensures ok ==> Some(View()) == D.DeviceOver(old(View()), members)
      ensures ok ==> interfacesValid && bosValid && hidValid && eventIdx == 0
      ensures !ok ==> interfacesValid == old(interfacesValid) && bosValid == old(bosValid) &&
                      hidValid == old(hidValid) && eventIdx == old(eventIdx)
    {
      D.LoadIntoIsDeviceOver(View(), members);
      hide D.DeviceOver, D.HeadInto, D.ArraysInto, EventViews;
      ok := LoadHead(members);
      if !ok {
        return;
      }
      ok := LoadArrays(members);
      if !ok {
        return;
      }
      interfacesValid, bosValid, hidValid, eventIdx := true, true, true, 0;
    }

    method LoadArrays(members: Members) returns (ok: bool)
      modifies this`bosDescriptors, this`hidDescriptors, this`interfaces, this`events, this`tags
      ensures (ok, View()) == D.ArraysInto(old(View()), members)
    {
      hide D.BosInto, D.HidInto, D.InterfacesInto, D.EventsInto, D.TagsInto;
      ok := LoadBosArray(members);
      if !ok {
        return;
      }
      LoadHidArray(members);
      ok := LoadInterfaceArray(members);
      if !ok {
        return;
      }
      ok := LoadEventArray(members);
      if !ok {
        return;
      }
      LoadTagArray(members);
    }

    method LoadHead(members: Members) returns (ok: bool)
      modifies this`platformId, this`created, this`desc
      ensures (ok, View()) == D.HeadInto(old(View()), members)
    {
      hide D.CreatedOver, D.DescOf;
      platformId := Keep(GetString(members, PlatformId), platformId);
      var time := D.CreatedOver(created, members);
      if time.None? {
        return false;
      }
      created, desc := time.value, D.DescOf(members);
      return true;
    }

    method LoadBosArray(members: Members) returns (ok: bool)
      modifies this`bosDescriptors
      ensures (ok, View()) == D.BosInto(old(View()), members)
    {
      hide B.LoadBos;
      var loaded;
      loaded, ok := LoadBos(GetItems(members, UsbBosDescriptors));
      bosDescriptors := bosDescriptors + loaded;
    }

    method LoadHidArray(members: Members)
      modifies this`hidDescriptors
      ensures View() == D.HidInto(old(View()), members)
    {
      var blobs := LoadHid(GetItems(members, UsbHidDescriptors));
      hidDescriptors := hidDescriptors + blobs;
    }

    method LoadInterfaceArray(members: Members) returns (ok: bool)
      modifies this`interfaces
      ensures (ok, View()) == D.InterfacesInto(old(View()), members)
    {
      hide I.LoadInterface;
      var loaded;
      loaded, ok := LoadInterfaces(GetItems(members, UsbInterfaces));
      interfaces := interfaces + loaded;
    }

    method LoadEventArray(members: Members) returns (ok: bool)
      modifies this`events
      ensures (ok, View()) == D.EventsInto(old(View()), members)
    {
      hide V.LoadEvent;
      var log;
      log, ok := LoadEvents(GetItems(members, UsbEvents));
      AppendEvents(log);
    }

    method LoadTagArray(members: Members)
      modifies this`tags
      ensures View() == D.TagsInto(old(View()), members)
    {
      var used := LoadTags(GetItems(members, Tags));
      tags := tags + used;
    }

    method AppendEvents(log: seq<V.UsbDeviceEvent>)
      modifies this`events
      ensures Log() == old(Log()) + EventViews(log)
    {
      assert EventViews(events + log) == EventViews(events) + EventViews(log);
      events := events + log;
    }
  }

  function Configured(config: Option<seq<seq<I.Iface>>>): Option<seq<I.Iface>> {
    match config case Some(s) => Some(Flatten(s)) case None => None
  }

  /** The altsettings of a configuration, interface after interface. */
  function Flatten(config: seq<seq<I.Iface>>): seq<I.Iface> {
    if config == [] then [] else Flatten(config[..|config| - 1]) + config[|config| - 1]
  }

  /** How many altsettings the interfaces before interface i have. */
  function Offset(config: seq<seq<I.Iface>>, i: nat): nat
    requires i <= |config|
  {
    if i == 0 then 0 else Offset(config, i - 1) + |config[i - 1]|
  }

  /** Every altsetting of every interface, at its place. */
  ghost predicate HoldsAltsettings(s: seq<I.Iface>, config: seq<seq<I.Iface>>) {
    && |s| == Offset(config, |config|)
    && forall i: nat, j: nat :: i < |config| && j < |config[i]| ==> StandsAt(s, config, i, j)
  }

  ghost predicate StandsAt(s: seq<I.Iface>, config: seq<seq<I.Iface>>, i: nat, j: nat)
    requires i < |config| && j < |config[i]|
  {
    Offset(config, i) + j < |s| && s[Offset(config, i) + j] == config[i][j]
  }

  lemma {:induction false} SameOffset(a: seq<seq<I.Iface>>, b: seq<seq<I.Iface>>, i: nat)
    requires i <= |a| <= |b| && a == b[..|a|]
    ensures Offset(a, i) == Offset(b, i)
  {
    if i > 0 {
      SameOffset(a, b, i - 1);
    }
  }

  lemma {:induction false} FlattenHolds(config: seq<seq<I.Iface>>)
    ensures HoldsAltsettings(Flatten(config), config)
  {
    if config != [] {
      var n := |config| - 1;
      FlattenHolds(config[..n]);
      FlattenMore(config[..n], config[n]);
      assert config == config[..n] + [config[n]];
    }
  }

  /** One more interface leaves the altsettings before it where they are. */
  lemma {:induction false} FlattenMore(init: seq<seq<I.Iface>>, last: seq<I.Iface>)
    requires HoldsAltsettings(Flatten(init), init)
    ensures HoldsAltsettings(Flatten(init + [last]), init + [last])
  {
    var config, n := init + [last], |init|;
    assert config[..n] == init;
    SameOffset(init, config, n);
    var s := Flatten(init);
    assert Flatten(config) == s + last && Offset(config, n + 1) == |s| + |last|;
    hide Flatten, Offset;
    forall i: nat, j: nat | i < |config| && j < |config[i]|
      ensures StandsAt(s + last, config, i, j)
    {
      if i < n {
        SameOffset(init, config, i);
        assert StandsAt(s, init, i, j);
      } else {
        assert (s + last)[|s| + j] == last[j];
      }
    }
  }

  function Capability(cap: (Byte, Bytes)): B.Bos { B.Bos(cap.0, Some(cap.1)) }

  method LoadBos(items: seq<Json>) returns (loaded: seq<B.Bos>, ok: bool)
    ensures loaded == Prefix(items, B.LoadBos) && (ok <==> |loaded| == |items|)
  {
    hide Base64.Decode, Prefix;
    loaded := [];
    for i := 0 to |items|
      invariant |loaded| == i
      invariant forall k :: 0 <= k < i ==> B.LoadBos(items[k]) == Some(loaded[k])
    {
      var bos := new B.UsbBosDescriptor();
      if !items[i].Obj? {
        IsPrefix(items, B.LoadBos, loaded);
        return loaded, false;
      }
      bos.Load(items[i].members);
      loaded := loaded + [bos.desc];
    }
    IsPrefix(items, B.LoadBos, loaded);
    return loaded, true;
  }

  method LoadHid(items: seq<Json>) returns (blobs: seq<Bytes>)
    ensures blobs == Map(D.Texts(items), Base64.Decode)
  {
    hide Base64.Decode;
    blobs := [];
    for i := 0 to |items|
      invariant blobs == Map(D.Texts(items[..i]), Base64.Decode)
    {
      assert items[..i + 1][..i] == items[..i];
      if items[i].Str? {
        blobs := blobs + [Base64.Decode(items[i].text)];
      }
    }
    assert items[..|items|] == items;
  }

  method LoadInterfaces(items: seq<Json>) returns (loaded: seq<I.Iface>, ok: bool)
    ensures loaded == Prefix(items, I.LoadInterface) && (ok <==> |loaded| == |items|)
  {
    hide I.InterfaceOver, Prefix;
    loaded := [];
    for i := 0 to |items|
      invariant |loaded| == i
      invariant forall k :: 0 <= k < i ==> I.LoadInterface(items[k]) == Some(loaded[k])
    {
      var iface := new I.UsbInterface();
      ok := false;
      if items[i].Obj? {
        ok := iface.Load(items[i].members);
      }
      if !ok {
        IsPrefix(items, I.LoadInterface, loaded);
        return loaded, false;
      }
      loaded := loaded + [iface.desc];
    }
    IsPrefix(items, I.LoadInterface, loaded);
    return loaded, true;
  }

  /** Events stay objects: a transfer in flight still writes to its own. */
  method LoadEvents(items: seq<Json>) returns (loaded: seq<V.UsbDeviceEvent>, ok: bool)
    ensures fresh(loaded)
    ensures EventViews(loaded) == Prefix(items, V.LoadEvent) && (ok <==> |loaded| == |items|)
  {
    hide Base64.Decode, Prefix;
    loaded := [];
    for i := 0 to |items|
      invariant |loaded| == i && fresh(loaded)
      invariant forall k :: 0 <= k < i ==> V.LoadEvent(items[k]) == Some(loaded[k].View())
    {
      var event := new V.UsbDeviceEvent(None);
      if !items[i].Obj? {
        IsPrefix(items, V.LoadEvent, EventViews(loaded));
        return loaded, false;
      }
      event.Load(items[i].members);
      loaded := loaded + [event];
    }
    IsPrefix(items, V.LoadEvent, EventViews(loaded));
    return loaded, true;
  }

  method LoadTags(items: seq<Json>) returns (used: seq<string>)
    ensures used == D.UsedTags(D.Texts(items))
  {
    used := [];
    for i := 0 to |items|
      invariant used == D.UsedTags(D.Texts(items[..i]))
    {
      assert items[..i + 1][..i] == items[..i];
      if items[i].Str? {
        var texts := D.Texts(items[..i]);
        assert (texts + [items[i].text])[..|texts|] == texts;
        if items[i].text != "" {
          used := used + [items[i].text];
        }
      }
    }
    assert items[..|items|] == items;
  }

  method SaveTagArray(s: seq<string>, builder: JsonBuilder, ghost record: Members) returns (ghost record': Members)
    requires builder.state.WellNested() && builder.state.AtMember()
    requires builder.state.members == Prune(record) && Tags !in record
    modifies builder
    ensures record' == record[Tags := Arr(Map(s, D.TextNode))]
    ensures builder.state == old(builder.state).(members := Prune(record'))
    ensures builder.state.WellNested()
  {
    ghost var values := s;
    record' := record[Tags := Arr(Map(values, D.TextNode))];
    PruneGrows(record, Tags, Arr(Map(values, D.TextNode)));
    hide Prune;
    if |s| > 0 {
      builder.SetMemberName(Tags);
      builder.BeginArray();
      ghost var outer := builder.state.below;
      for i := 0 to |s|
        invariant builder.state.WellNested()
        invariant builder.state == InArray(outer, Map(values[..i], D.TextNode))
      {
        builder.AddValue(Str(s[i]));
        assert Map(values[..i + 1], D.TextNode) == Map(values[..i], D.TextNode) + [D.TextNode(values[i])];
      }
      assert values[..|s|] == values;
      builder.EndArray();
    }
  }

  method SaveBosArray(s: seq<B.Bos>, builder: JsonBuilder, ghost record: Members) returns (ghost record': Members)
    requires builder.state.WellNested() && builder.state.AtMember()
    requires builder.state.members == Prune(record) && UsbBosDescriptors !in record
    modifies builder
    ensures record' == record[UsbBosDescriptors := Arr(Map(s, B.BosNode))]
    ensures builder.state == old(builder.state).(members := Prune(record'))
    ensures builder.state.WellNested()
  {
    hide B.BosNode;
    ghost var values := s;
    record' := record[UsbBosDescriptors := Arr(Map(values, B.BosNode))];
    PruneGrows(record, UsbBosDescriptors, Arr(Map(values, B.BosNode)));
    hide Prune;
    if |s| > 0 {
      builder.SetMemberName(UsbBosDescriptors);
      builder.BeginArray();
      ghost var outer := builder.state.below;
      for i := 0 to |s|
        invariant builder.state.WellNested()
        invariant builder.state == InArray(outer, Map(values[..i], B.BosNode))
      {
        B.SaveBos(s[i], builder);
        assert Map(values[..i + 1], B.BosNode) == Map(values[..i], B.BosNode) + [B.BosNode(values[i])];
      }
      assert values[..|s|] == values;
      builder.EndArray();
    }
  }

  method SaveHidArray(s: seq<Bytes>, builder: JsonBuilder, ghost record: Members) returns (ghost record': Members)
    requires builder.state.WellNested() && builder.state.AtMember()
    requires builder.state.members == Prune(record) && UsbHidDescriptors !in record
    modifies builder
    ensures record' == record[UsbHidDescriptors := Arr(Map(s, D.BlobNode))]
    ensures builder.state == old(builder.state).(members := Prune(record'))
    ensures builder.state.WellNested()
  {
    hide D.BlobNode;
    ghost var values := s;
    record' := record[UsbHidDescriptors := Arr(Map(values, D.BlobNode))];
    PruneGrows(record, UsbHidDescriptors, Arr(Map(values, D.BlobNode)));
    hide Prune;
    if |s| > 0 {
      builder.SetMemberName(UsbHidDescriptors);
      builder.BeginArray();
      ghost var outer := builder.state.below;
      for i := 0 to |s|
        invariant builder.state.WellNested()
        invariant builder.state == InArray(outer, Map(values[..i], D.BlobNode))
      {
        builder.AddValue(D.BlobNode(s[i]));
        assert Map(values[..i + 1], D.BlobNode) == Map(values[..i], D.BlobNode) + [D.BlobNode(values[i])];
      }
      assert values[..|s|] == values;
      builder.EndArray();
    }
  }

  method SaveInterfaceArray(s: seq<I.Iface>, builder: JsonBuilder, ghost record: Members) returns (ghost record': Members)
    requires builder.state.WellNested() && builder.state.AtMember()
    requires builder.state.members == Prune(record) && UsbInterfaces !in record
    modifies builder
    ensures record' == record[UsbInterfaces := Arr(Map(s, I.InterfaceNode))]
    ensures builder.state == old(builder.state).(members := Prune(record'))
    ensures builder.state.WellNested()
  {
    hide I.InterfaceNode;
    ghost var values := s;
    record' := record[UsbInterfaces := Arr(Map(values, I.InterfaceNode))];
    PruneGrows(record, UsbInterfaces, Arr(Map(values, I.InterfaceNode)));
    hide Prune;
    if |s| > 0 {
      builder.SetMemberName(UsbInterfaces);
      builder.BeginArray();
      ghost var outer := builder.state.below;
      for i := 0 to |s|
        invariant builder.state.WellNested()
        invariant builder.state == InArray(outer, Map(values[..i], I.InterfaceNode))
      {
        I.SaveInterface(s[i], builder);
        assert Map(values[..i + 1], I.InterfaceNode) == Map(values[..i], I.InterfaceNode) + [I.InterfaceNode(values[i])];
      }
      assert values[..|s|] == values;
      builder.EndArray();
    }
  }

  method SaveEventArray(s: seq<V.UsbDeviceEvent>, builder: JsonBuilder, ghost record: Members)
    returns (ghost record': Members)
    requires builder.state.WellNested() && builder.state.AtMember()
    requires builder.state.members == Prune(record) && UsbEvents !in record
    modifies builder
    ensures record' == record[UsbEvents := Arr(Map(EventViews(s), V.EventNode))]
    ensures builder.state == old(builder.state).(members := Prune(record'))
    ensures builder.state.WellNested()
  {
    hide V.EventNode;
    ghost var values := EventViews(s);
    record' := record[UsbEvents := Arr(Map(values, V.EventNode))];
    PruneGrows(record, UsbEvents, Arr(Map(values, V.EventNode)));
    hide Prune;
    if |s| > 0 {
      builder.SetMemberName(UsbEvents);
      builder.BeginArray();
      ghost var outer := builder.state.below;
      for i := 0 to |s|
        invariant builder.state.WellNested()
        invariant builder.state == InArray(outer, Map(values[..i], V.EventNode))
      {
        s[i].Save(builder);
        assert Map(values[..i + 1], V.EventNode) == Map(values[..i], V.EventNode) + [V.EventNode(values[i])];
      }
      assert values[..|s|] == values;
      builder.EndArray();
    }
  }

  method SaveHead(platformId: Option<string>, created: int, tags: seq<string>, builder: JsonBuilder)
    returns (ghost record: Members)
    requires builder.state.WellNested() && builder.state.AtMember() && builder.state.members == map[]
    modifies builder
    ensures record == map[PlatformId := StringNode(platformId), Created := Date(created),
                          Tags := Arr(Map(tags, D.TextNode))]
    ensures builder.state == old(builder.state).(members := Prune(record))
    ensures builder.state.WellNested()
  {
    record := map[];
    record := builder.AddMember(PlatformId, StringNode(platformId), record);
    record := builder.AddMember(Created, Date(created), record);
    record := SaveTagArray(tags, builder, record);
  }

  method SaveIds(d: D.Desc, builder: JsonBuilder, ghost head: Members) returns (ghost record: Members)
    requires builder.state.WellNested() && builder.state.AtMember() && builder.state.members == Prune(head)
    requires head.Keys !! {IdVendor, IdProduct, Name.Device, USB, Manufacturer}
    modifies builder
    ensures record == D.IdRecord(d, head)
    ensures record.Keys <= head.Keys + {IdVendor, IdProduct, Name.Device, USB, Manufacturer}
    ensures builder.state == old(builder.state).(members := Prune(record))
    ensures builder.state.WellNested()
  {
    hide Prune;
    record := head;
    record := builder.AddMember(IdVendor, Int(d.idVendor), record);
    record := builder.AddMember(IdProduct, Int(d.idProduct), record);
    record := builder.AddMember(Name.Device, Int(d.bcdDevice), record);
    record := builder.AddMember(USB, Int(d.bcdUsb), record);
    record := builder.AddMember(Manufacturer, Int(d.manufacturer), record);
  }

  method SaveClasses(d: D.Desc, builder: JsonBuilder, ghost head: Members) returns (ghost record: Members)
    requires builder.state.WellNested() && builder.state.AtMember() && builder.state.members == Prune(head)
    requires head.Keys !! {DeviceClass, DeviceSubClass, DeviceProtocol, Product, SerialNumber}
    modifies builder
    ensures record == D.ClassRecord(d, head)
    ensures record.Keys <= head.Keys + {DeviceClass, DeviceSubClass, DeviceProtocol, Product, SerialNumber}
    ensures builder.state == old(builder.state).(members := Prune(record))
    ensures builder.state.WellNested()
  {
    hide Prune;
    record := head;
    record := builder.AddMember(DeviceClass, Int(d.class_), record);
    record := builder.AddMember(DeviceSubClass, Int(d.subclass), record);
    record := builder.AddMember(DeviceProtocol, Int(d.protocol), record);
    record := builder.AddMember(Product, Int(d.product), record);
    record := builder.AddMember(SerialNumber, Int(d.serial), record);
  }

  method SaveDesc(d: D.Desc, builder: JsonBuilder, ghost head: Members) returns (ghost record: Members)
    requires builder.state.WellNested() && builder.state.AtMember() && builder.state.members == Prune(head)
    requires head.Keys <= {PlatformId, Created, Tags}
    modifies builder
    ensures record == D.DescRecord(d, head)
    ensures record.Keys !! {UsbBosDescriptors, UsbHidDescriptors, UsbInterfaces, UsbEvents}
    ensures builder.state == old(builder.state).(members := Prune(record))
    ensures builder.state.WellNested()
  {
    hide Prune, D.IdRecord, D.ClassRecord;
    record := SaveIds(d, builder, head);
    record := SaveClasses(d, builder, record);
  }

  /** The members of a device, in the order they are written; its events are given as objects. */
  method SaveMembers(d: D.Tree, events: seq<V.UsbDeviceEvent>, builder: JsonBuilder) returns (ghost record: Members)
    requires builder.state.WellNested() && builder.state.AtMember() && builder.state.members == map[]
    modifies builder
    ensures record == D.DeviceRecord(d.(events := EventViews(events)))
    ensures builder.state == old(builder.state).(members := Prune(record))
    ensures builder.state.WellNested()
  {
    hide Prune, D.DescRecord, EventViews;
    record := SaveHead(d.platformId, d.created, d.tags, builder);
    record := SaveDesc(d.desc, builder, record);
    record := SaveBosArray(d.bos, builder, record);
    record := SaveHidArray(d.hid, builder, record);
    record := SaveInterfaceArray(d.interfaces, builder, record);
    record := SaveEventArray(events, builder, record);
  }

  method SaveDevice(d: D.Tree, events: seq<V.UsbDeviceEvent>, builder: JsonBuilder)
    requires builder.state.WellNested() && builder.state.AwaitsValue()
    modifies builder
    ensures builder.state == old(builder.state).Put(D.DeviceNode(d.(events := EventViews(events))))
    ensures builder.state.WellNested()
  {
    hide D.DeviceRecord, EventViews;
    assert Prune(map[]) == map[];
    hide Prune;
    builder.BeginObject();
    ghost var record := SaveMembers(d, events, builder);
    builder.EndObject();
  }
}
