/**
 * gusb-device.c: what a request returns and records on a real device, and what it returns from
 * a recorded event on an emulated one.
 */
module Transfer {
  import opened Basics
  import opened EventKey
  import opened EventLog
  import opened V = DeviceEvent

  /** G_USB_DEVICE_ERROR_* */
  datatype ErrorCode =
    | Internal | Io | TimedOut | NotSupported | NoDevice | NotOpen
    | AlreadyOpen | Cancelled | Failure | PermissionDenied | Busy

  /** A GError: its domain and code, and the values its message is made of. */
  datatype GError =
    | DeviceError(code: ErrorCode, rc: Int32)
    | TransferError(code: ErrorCode, status: Int32)
    | DeviceNotOpen
    | DeviceAlreadyOpen
    | NoVendorDescriptor
    | NoMatchingEvent(key: string)
    | NoMatchingData(key: string)
    | CannotCopy(size: nat, room: nat)

  /** g_usb_device_libusb_error_to_gerror, for the codes of enum libusb_error */
  function ErrorOf(rc: Int32): (error: Option<GError>)
    ensures error.None? <==> rc == SUCCESS
    ensures error.Some? ==> error.value.DeviceError?
  {
    if rc == SUCCESS then None
    else if rc in {-1, -8, -9} then Some(DeviceError(Io, rc))
    else if rc == -3 then Some(DeviceError(PermissionDenied, rc))
    else if rc == -4 then Some(DeviceError(NoDevice, rc))
    else if rc == -6 then Some(DeviceError(Busy, rc))
    else if rc == -7 then Some(DeviceError(TimedOut, rc))
    else if rc == -12 then Some(DeviceError(NotSupported, rc))
    else Some(DeviceError(Internal, rc))
  }

  /** g_usb_device_libusb_status_to_gerror, for the codes of enum libusb_transfer_status */
  function StatusError(status: Int32): (error: Option<GError>)
    ensures error.None? <==> status == TRANSFER_COMPLETED
    ensures error.Some? ==> error.value.TransferError?
  {
    if status == TRANSFER_COMPLETED then None
    else if status == 1 then Some(TransferError(Failure, status))
    else if status == 2 then Some(TransferError(TimedOut, status))
    else if status == 3 then Some(TransferError(Cancelled, status))
    else if status == 4 then Some(TransferError(NotSupported, status))
    else if status == 5 then Some(TransferError(NoDevice, status))
    else Some(TransferError(Internal, status))
  }

  datatype Result =
    | Length(n: nat)
    | Index(i: Byte)
    | Answer(bytes: Bytes)
    | Failed(error: GError)

  /** What the caller sees: the result, and its buffer after the call. */
  datatype Outcome = Outcome(result: Result, buffer: Bytes)

  /** altsetting[0] of an interface: class, subclass, protocol and string index */
  datatype Head = Head(classId: Byte, subclassId: Byte, protocolId: Byte, index: Byte)

  /** What libusb and the hardware do with a request. */
  datatype Response =
    | SubmitFailed(rc: Int32)
    | Completed(status: Int32, buffer: Bytes, actual: nat)
    | QueryFailed(rc: Int32)
    | Text(buf: Bytes)
    | Raw(bytes: Bytes)
    | Config(heads: seq<Head>, configuration: Byte)

  const TEXT_SIZE := 128

  /** What libusb guarantees of its answers, for an open device. */
  predicate Fits(req: Request, resp: Response) {
    match req
    case GetCustomIndex(_, _, _) => resp.Config? || (resp.QueryFailed? && resp.rc != SUCCESS)
    case GetStringDescriptor(_) =>
      (resp.Text? && |resp.buf| == TEXT_SIZE && 0 in resp.buf) || (resp.QueryFailed? && resp.rc < 0)
    case GetStringDescriptorBytes(_, _, length) =>
      (resp.Raw? && |resp.bytes| <= length) || (resp.QueryFailed? && resp.rc < 0)
    case GetConfigurationIndex => resp.Config? || (resp.QueryFailed? && resp.rc != SUCCESS)
    case _ =>
      (resp.Completed? && |resp.buffer| == |req.data| && resp.actual <= |req.data|) ||
      (resp.SubmitFailed? && resp.rc < 0)
  }

  /** The bytes of a C string. */
  function CString(buf: Bytes): Bytes {
    if buf == [] || buf[0] == 0 then [] else [buf[0]] + CString(buf[1..])
  }

  /** The string index of the first interface of the given kind; 0 if there is none. */
  function CustomIndex(heads: seq<Head>, classId: Byte, subclassId: Byte, protocolId: Byte): Byte {
    if heads == [] then 0
    else if heads[0].classId == classId && heads[0].subclassId == subclassId && heads[0].protocolId == protocolId then
      heads[0].index
    else CustomIndex(heads[1..], classId, subclassId, protocolId)
  }

  function LookUp(req: Request, resp: Response): Byte
    requires req.GetCustomIndex? && resp.Config?
  {
    CustomIndex(resp.heads, req.classId, req.subclassId, req.protocolId)
  }

  // ---- a real device ----

  /** The caller's buffer once a transfer has completed. */
  function BufferAfter(req: Request, resp: Response): Bytes
    requires req.Transfer() && resp.Completed? && Fits(req, resp)
  {
    if !req.ControlTransfer? then resp.buffer  // written in place
    else if resp.status != TRANSFER_COMPLETED then req.data
    else resp.buffer[..resp.actual] + req.data[resp.actual..]
  }

  function Live(req: Request, resp: Response): Outcome
    requires Fits(req, resp)
  {
    match resp
    case SubmitFailed(rc) => Outcome(Failed(ErrorOf(rc).value), req.data)
    case Completed(status, buffer, actual) =>
      var result := match StatusError(status) case Some(e) => Failed(e) case None => Length(actual);
      Outcome(result, BufferAfter(req, resp))
    case QueryFailed(rc) =>
      Outcome(if req.GetConfigurationIndex? then Index(0) else Failed(ErrorOf(rc).value), [])
    case Text(buf) => Outcome(Answer(CString(buf)), [])
    case Raw(bytes) => Outcome(Answer(bytes), [])
    case Config(_, configuration) =>
      if req.GetConfigurationIndex? then Outcome(Index(configuration), [])
      else if LookUp(req, resp) == 0 then Outcome(Failed(NoVendorDescriptor), [])
      else Outcome(Index(LookUp(req, resp)), [])
  }

  /** The event a saving context adds to the log; a query that fails adds none. */
  function Recorded(req: Request, resp: Response): Option<Event>
    requires Fits(req, resp)
  {
    var event := Event(Some(Key(req)), TRANSFER_COMPLETED, SUCCESS, None);
    match resp
    case SubmitFailed(rc) => Some(event.(rc := rc))
    case Completed(status, buffer, actual) =>
      Some(if status == TRANSFER_COMPLETED then event.(bytes := Some(buffer[..actual])) else event.(status := status))
    case QueryFailed(rc) => None
    case Text(buf) => Some(event.(bytes := Some(buf)))
    case Raw(bytes) => Some(event.(bytes := Some(bytes)))
    case Config(_, configuration) =>
      if req.GetConfigurationIndex? then Some(event.(bytes := Some([configuration])))
      else if LookUp(req, resp) == 0 then None
      else Some(event.(bytes := Some([LookUp(req, resp)])))
  }

  // ---- an emulated device ----

  /** gusb_memcpy_bytes_safe */
  function Copied(data: Bytes, bytes: Bytes): Bytes
    requires |bytes| <= |data|
  {
    bytes + data[|bytes|..]
  }

  function ReplayedTransfer(req: Request, e: Event): Outcome
    requires req.Transfer()
  {
    if ErrorOf(e.rc).Some? then Outcome(Failed(ErrorOf(e.rc).value), req.data)
    else if StatusError(e.status).Some? then Outcome(Failed(StatusError(e.status).value), req.data)
    else match e.bytes
      case None => Outcome(Failed(NoMatchingData(Key(req))), req.data)
      case Some(bytes) =>
        if |req.data| < |bytes| then Outcome(Failed(CannotCopy(|bytes|, |req.data|)), req.data)
        else Outcome(Length(|bytes|), Copied(req.data, bytes))
  }

  function ReplayedQuery(req: Request, e: Event): Result
    requires !req.Transfer()
  {
    if req.GetConfigurationIndex? then
      Index(if e.bytes.Some? && e.bytes.value != [] then e.bytes.value[0] else 0)
    else if ErrorOf(e.rc).Some? then Failed(ErrorOf(e.rc).value)
    else match e.bytes
      case None => Failed(NoMatchingData(Key(req)))
      case Some(bytes) =>
        if req.GetStringDescriptor? then Answer(CString(bytes))
        else if req.GetStringDescriptorBytes? then Answer(bytes)
        else if |bytes| == 1 then Index(bytes[0])
        else Failed(NoMatchingData(Key(req)))
  }

  /** The outcome given the event the search found, if any. */
  function Replayed(req: Request, found: Option<Event>): Outcome {
    match found
    case None => Outcome(if req.GetConfigurationIndex? then Index(0) else Failed(NoMatchingEvent(Key(req))), req.Buffer())
    case Some(e) => if req.Transfer() then ReplayedTransfer(req, e) else Outcome(ReplayedQuery(req, e), [])
  }

  function IdsOf(events: seq<Event>): (ids: Ids)
    ensures |ids| == |events| && forall i :: 0 <= i < |ids| ==> ids[i] == events[i].id
  {
    seq(|events|, i requires 0 <= i < |events| => events[i].id)
  }

  /** The answer of an emulated device whose cursor stands where the search leaves it. */
  function Answered(events: seq<Event>, cursor: nat, req: Request): Outcome {
    match Search(IdsOf(events), cursor, Key(req)).at
    case Some(i) => Replayed(req, Some(events[i]))
    case None => Replayed(req, None)
  }

  // ---- the two compared ----

  /**
   * A response that a replay reproduces from its own event. A query must have succeeded. A bulk or interrupt
   * transfer must have written no more of the caller's buffer than the bytes it reports.
   */
  predicate Replayable(req: Request, resp: Response)
    requires Fits(req, resp)
  {
    match req
    case ControlTransfer(_, _, _, _, _, _, _) => true
    case GetCustomIndex(_, _, _) => resp.Config? && LookUp(req, resp) != 0
    case GetStringDescriptor(_) => resp.Text?
    case GetStringDescriptorBytes(_, _, _) => resp.Raw?
    case GetConfigurationIndex => resp.Config?
    case _ =>
      resp.SubmitFailed? ||
      var reported := if resp.status == TRANSFER_COMPLETED then resp.actual else 0;
      resp.buffer[reported..] == req.data[reported..]
  }

  /** A recorded step replays from its own event exactly when its response is replayable. */
  lemma {:induction false} StepReplays(req: Request, resp: Response)
    requires Fits(req, resp) && Recorded(req, resp).Some?
    ensures Replayed(req, Recorded(req, resp)) == Live(req, resp) <==> Replayable(req, resp)
  {
    hide Key;
    if req.Transfer() && resp.Completed? {
      CompletedReplays(req, resp);
    }
  }

  lemma {:induction false} CompletedReplays(req: Request, resp: Response)
    requires req.Transfer() && resp.Completed? && Fits(req, resp)
    ensures Replayed(req, Recorded(req, resp)) == Live(req, resp) <==> Replayable(req, resp)
  {
    hide Key;
    var live, data, buffer := Live(req, resp), req.data, resp.buffer;
    if resp.status == TRANSFER_COMPLETED {
      var n := resp.actual;
      assert Replayed(req, Recorded(req, resp)).buffer == buffer[..n] + data[n..];
      assert (buffer[..n] + data[n..])[n..] == data[n..];
      assert buffer == buffer[..n] + buffer[n..];
    } else {
      assert buffer[0..] == buffer && data[0..] == data;
    }
  }

  /** A step that is not recorded has no event of its own to be replayed from. */
  lemma {:induction false} UnrecordedIsNotReplayable(req: Request, resp: Response)
    requires Fits(req, resp)
    ensures Recorded(req, resp).None? ==> !Replayable(req, resp)
    ensures Recorded(req, resp).Some? ==> Recorded(req, resp).value.id == Some(Key(req))
  {
    hide Key;
  }

  // ---- the same, case by case ----

  /** enum libusb_error */
  const LIBUSB_ERRORS: map<Int32, ErrorCode> := map[
    -1 := Io, -2 := Internal, -3 := PermissionDenied, -4 := NoDevice, -5 := Internal, -6 := Busy, -7 := TimedOut,
    -8 := Io, -9 := Io, -10 := Internal, -11 := Internal, -12 := NotSupported, -99 := Internal]

  /** enum libusb_transfer_status, from TRANSFER_COMPLETED on */
  const LIBUSB_STATUSES: seq<Option<ErrorCode>> := [
    None, Some(Failure), Some(TimedOut), Some(Cancelled), Some(NotSupported), Some(NoDevice), Some(Internal)]

  /** Every code of libusb becomes the library's, and any other counts as internal. */
  lemma {:induction false} ErrorTable(rc: Int32)
    ensures rc == 0 <==> ErrorOf(rc) == None
    ensures rc in LIBUSB_ERRORS ==> ErrorOf(rc) == Some(DeviceError(LIBUSB_ERRORS[rc], rc))
    ensures rc != 0 && rc !in LIBUSB_ERRORS ==> ErrorOf(rc) == Some(DeviceError(Internal, rc))
  {
  }

  lemma {:induction false} StatusTable(status: Int32)
    ensures 0 <= status < 7 ==>
              StatusError(status) ==
              match LIBUSB_STATUSES[status] case Some(code) => Some(TransferError(code, status)) case None => None
    ensures !(0 <= status < 7) ==> StatusError(status) == Some(TransferError(Internal, status))
  {
  }

  /** The bytes before the first that is zero. */
  lemma {:induction false} CStringStops(buf: Bytes) returns (n: nat)
    ensures n <= |buf| && CString(buf) == buf[..n]
    ensures forall k :: 0 <= k < n ==> buf[k] != 0
    ensures n < |buf| ==> buf[n] == 0
  {
    if buf == [] || buf[0] == 0 {
      n := 0;
    } else {
      n := CStringStops(buf[1..]);
      n := n + 1;
      assert buf[..n] == [buf[0]] + buf[1..][..n - 1];
    }
  }

  /** The first interface of the class, subclass and protocol. */
  ghost predicate FirstOfKind(heads: seq<Head>, i: nat, classId: Byte, subclassId: Byte, protocolId: Byte) {
    && i < |heads|
    && heads[i].classId == classId && heads[i].subclassId == subclassId && heads[i].protocolId == protocolId
    && forall k :: 0 <= k < i ==>
         heads[k].classId != classId || heads[k].subclassId != subclassId || heads[k].protocolId != protocolId
  }

  ghost predicate NoneOfKind(heads: seq<Head>, classId: Byte, subclassId: Byte, protocolId: Byte) {
    forall k :: 0 <= k < |heads| ==>
      heads[k].classId != classId || heads[k].subclassId != subclassId || heads[k].protocolId != protocolId
  }

  lemma {:induction false} CustomIndexIsFirst(heads: seq<Head>, classId: Byte, subclassId: Byte, protocolId: Byte)
    ensures NoneOfKind(heads, classId, subclassId, protocolId) ==> CustomIndex(heads, classId, subclassId, protocolId) == 0
    ensures forall i: nat :: FirstOfKind(heads, i, classId, subclassId, protocolId) ==>
              CustomIndex(heads, classId, subclassId, protocolId) == heads[i].index
  {
    if heads != [] {
      CustomIndexIsFirst(heads[1..], classId, subclassId, protocolId);
      forall i: nat | FirstOfKind(heads, i, classId, subclassId, protocolId)
        ensures CustomIndex(heads, classId, subclassId, protocolId) == heads[i].index
      {
        if i > 0 {
          assert FirstOfKind(heads[1..], i - 1, classId, subclassId, protocolId);
        }
      }
    }
  }

  /** What a query returns, and the event it leaves. */
  lemma {:induction false} QueryTells(req: Request, resp: Response)
    requires !req.Transfer() && Fits(req, resp)
    ensures resp.QueryFailed? && !req.GetConfigurationIndex? ==>
              Live(req, resp) == Outcome(Failed(ErrorOf(resp.rc).value), []) && Recorded(req, resp) == None
    ensures resp.QueryFailed? && req.GetConfigurationIndex? ==>
              Live(req, resp) == Outcome(Index(0), []) && Recorded(req, resp) == None
    ensures resp.Text? ==>
              Live(req, resp) == Outcome(Answer(CString(resp.buf)), []) &&
              Recorded(req, resp) == Some(Event(Some(Key(req)), 0, 0, Some(resp.buf)))
    ensures resp.Raw? ==>
              Live(req, resp) == Outcome(Answer(resp.bytes), []) &&
              Recorded(req, resp) == Some(Event(Some(Key(req)), 0, 0, Some(resp.bytes)))
    ensures resp.Config? && req.GetConfigurationIndex? ==>
              Live(req, resp) == Outcome(Index(resp.configuration), []) &&
              Recorded(req, resp) == Some(Event(Some(Key(req)), 0, 0, Some([resp.configuration])))
  {
    hide Key, CString;
  }

  /** The string index of the first interface of the kind; a missing one and index 0 are failures and not logged. */
  lemma {:induction false} CustomIndexTells(classId: Byte, subclassId: Byte, protocolId: Byte, resp: Response)
    requires resp.Config?
    ensures var req := GetCustomIndex(classId, subclassId, protocolId);
            forall i: nat :: FirstOfKind(resp.heads, i, classId, subclassId, protocolId) ==>
              var index := resp.heads[i].index;
              if index == 0 then Live(req, resp) == Outcome(Failed(NoVendorDescriptor), []) && Recorded(req, resp) == None
              else Live(req, resp) == Outcome(Index(index), []) &&
                   Recorded(req, resp) == Some(Event(Some(Key(req)), 0, 0, Some([index])))
    ensures var req := GetCustomIndex(classId, subclassId, protocolId);
            NoneOfKind(resp.heads, classId, subclassId, protocolId) ==>
              Live(req, resp) == Outcome(Failed(NoVendorDescriptor), []) && Recorded(req, resp) == None
  {
    hide Key, FirstOfKind, NoneOfKind, CustomIndex;
    CustomIndexIsFirst(resp.heads, classId, subclassId, protocolId);
  }

  /** What a transfer returns and leaves in the buffer, and the event it leaves. */
  lemma {:induction false} TransferTells(req: Request, resp: Response)
    requires req.Transfer() && Fits(req, resp)
    ensures resp.SubmitFailed? ==>
              Live(req, resp) == Outcome(Failed(ErrorOf(resp.rc).value), req.data) &&
              Recorded(req, resp) == Some(Event(Some(Key(req)), 0, resp.rc, None))
    ensures resp.Completed? && resp.status != 0 ==>
              Live(req, resp).result == Failed(StatusError(resp.status).value) &&
              Recorded(req, resp) == Some(Event(Some(Key(req)), resp.status, 0, None))
    ensures resp.Completed? && resp.status == 0 ==>
              Live(req, resp).result == Length(resp.actual) &&
              Recorded(req, resp) == Some(Event(Some(Key(req)), 0, 0, Some(resp.buffer[..resp.actual])))
    ensures resp.Completed? ==>
              |Live(req, resp).buffer| == |req.data| &&
              forall k :: 0 <= k < |req.data| ==>
                Live(req, resp).buffer[k] ==
                if !req.ControlTransfer? || (resp.status == 0 && k < resp.actual) then resp.buffer[k] else req.data[k]
  {
    hide Key;
  }

  /** What an emulated transfer makes of any event, or of none. */
  lemma {:induction false} ReplayedTransferTells(req: Request, e: Event)
    requires req.Transfer()
    ensures Replayed(req, None) == Outcome(Failed(NoMatchingEvent(Key(req))), req.data)
    ensures e.rc != 0 ==> Replayed(req, Some(e)) == Outcome(Failed(ErrorOf(e.rc).value), req.data)
    ensures e.rc == 0 && e.status != 0 ==> Replayed(req, Some(e)) == Outcome(Failed(StatusError(e.status).value), req.data)
    ensures e.rc == 0 && e.status == 0 && e.bytes.None? ==>
              Replayed(req, Some(e)) == Outcome(Failed(NoMatchingData(Key(req))), req.data)
    ensures e.rc == 0 && e.status == 0 && e.bytes.Some? && |e.bytes.value| > |req.data| ==>
              Replayed(req, Some(e)) == Outcome(Failed(CannotCopy(|e.bytes.value|, |req.data|)), req.data)
    ensures e.rc == 0 && e.status == 0 && e.bytes.Some? && |e.bytes.value| <= |req.data| ==>
              var again := Replayed(req, Some(e));
              && again.result == Length(|e.bytes.value|) && |again.buffer| == |req.data|
              && forall k :: 0 <= k < |req.data| ==>
                   again.buffer[k] == if k < |e.bytes.value| then e.bytes.value[k] else req.data[k]
  {
    hide Key;
  }

  /** What an emulated query makes of any event, or of none. */
  lemma {:induction false} ReplayedQueryTells(req: Request, e: Event)
    requires !req.Transfer() && !req.GetConfigurationIndex?
    ensures Replayed(req, None) == Outcome(Failed(NoMatchingEvent(Key(req))), [])
    ensures e.rc != 0 ==> Replayed(req, Some(e)) == Outcome(Failed(ErrorOf(e.rc).value), [])
    ensures e.rc == 0 && e.bytes.None? ==> Replayed(req, Some(e)) == Outcome(Failed(NoMatchingData(Key(req))), [])
    ensures e.rc == 0 && e.bytes.Some? && req.GetStringDescriptor? ==>
              Replayed(req, Some(e)) == Outcome(Answer(CString(e.bytes.value)), [])
    ensures e.rc == 0 && e.bytes.Some? && req.GetStringDescriptorBytes? ==>
              Replayed(req, Some(e)) == Outcome(Answer(e.bytes.value), [])
    ensures e.rc == 0 && e.bytes.Some? && req.GetCustomIndex? ==>
              Replayed(req, Some(e)) ==
              Outcome(if |e.bytes.value| == 1 then Index(e.bytes.value[0]) else Failed(NoMatchingData(Key(req))), [])
  {
    hide Key, CString;
  }

  /** The configuration query takes the first byte it finds, and 0 for want of one. */
  lemma {:induction false} ReplayedConfigurationTells(e: Event)
    ensures Replayed(GetConfigurationIndex, None) == Outcome(Index(0), [])
    ensures e.bytes.Some? && |e.bytes.value| > 0 ==>
              Replayed(GetConfigurationIndex, Some(e)) == Outcome(Index(e.bytes.value[0]), [])
    ensures e.bytes.None? || |e.bytes.value| == 0 ==> Replayed(GetConfigurationIndex, Some(e)) == Outcome(Index(0), [])
  {
    hide Key;
  }
}
