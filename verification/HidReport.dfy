/** gusb-device.c: reading the report descriptor of each HID interface of a real device. */
module HidReport {
  import opened Basics
  import opened EventKey
  import opened Transfer
  import I = Interface
  import V = DeviceEvent

  const CLASS_HID: Byte := 0x03
  const DT_HID: Byte := 0x21

  function LittleEndian(low: int, high: int): nat
    requires 0 <= low && 0 <= high
  {
    low + 0x100 * high
  }

  /** The size the HID descriptor among the extra bytes announces, if there is one and it is not 0. */
  function Size(extra: Option<Bytes>): Option<nat> {
    match extra
    case None => None
    case Some(buf) =>
      if |buf| < 9 || buf[1] != DT_HID || LittleEndian(buf[7], buf[8]) == 0 then None
      else Some(LittleEndian(buf[7], buf[8]))
  }

  function Zeros(size: nat): Bytes { seq(size, _ => 0) }

  /** Device to host, standard, to the interface: GET_DESCRIPTOR of the report. */
  function Ask(intf: I.Iface, size: nat): Request {
    ControlTransfer(0, 0, 1, 0x06, 0x2200, intf.number, Zeros(size))
  }

  /** What the hardware answers to each request made for the interface at a position. */
  type Hardware = (nat, Request) -> Response

  ghost predicate Obeys(hardware: Hardware) {
    forall i: nat, req: Request :: req.Transfer() ==> Fits(req, hardware(i, req))
  }

  /** The blob, unless the descriptor is missing or the transfer fails or falls short. */
  function Blob(req: Request, resp: Response): Option<Bytes> {
    if resp.Completed? && resp.status == V.TRANSFER_COMPLETED && req.Transfer() && resp.actual >= |req.data| &&
       resp.actual <= |resp.buffer|
    then Some(resp.buffer[..resp.actual])
    else None
  }

  datatype Reading = Reading(blobs: seq<Bytes>, log: seq<V.Event>, complete: bool)

  /** The descriptors of the interfaces from a position on, up to the first failure, and the transfers' events. */
  ghost function Read(ifaces: seq<I.Iface>, i: nat, hardware: Hardware): Reading
    requires i <= |ifaces| && Obeys(hardware)
    decreases |ifaces| - i
  {
    if i == |ifaces| then Reading([], [], true)
    else if ifaces[i].class_ != CLASS_HID then Read(ifaces, i + 1, hardware)
    else match Size(ifaces[i].extra)
      case None => Reading([], [], false)
      case Some(size) =>
        var req := Ask(ifaces[i], size);
        var resp := hardware(i, req);
        var event := Recorded(req, resp).value;
        match Blob(req, resp)
        case None => Reading([], [event], false)
        case Some(blob) =>
          var rest := Read(ifaces, i + 1, hardware);
          Reading([blob] + rest.blobs, [event] + rest.log, rest.complete)
  }

  /** A transfer that fills the buffer gives a blob of the announced size. */
  lemma {:induction false} FullBlob(intf: I.Iface, i: nat, hardware: Hardware)
    requires Obeys(hardware)
    ensures match Size(intf.extra)
            case None => true
            case Some(size) =>
              var req := Ask(intf, size);
              Blob(req, hardware(i, req)).Some? ==> |Blob(req, hardware(i, req)).value| == size
  {
  }

  /** A complete reading holds one descriptor for each HID interface, each of the size it announced. */
  lemma {:induction false} CompleteReading(ifaces: seq<I.Iface>, i: nat, hardware: Hardware)
    requires i <= |ifaces| && Obeys(hardware) && Read(ifaces, i, hardware).complete
    ensures |Read(ifaces, i, hardware).blobs| == |HidInterfaces(ifaces, i)| == |Read(ifaces, i, hardware).log|
    ensures forall k :: 0 <= k < |HidInterfaces(ifaces, i)| ==>
              Size(HidInterfaces(ifaces, i)[k].extra) == Some(|Read(ifaces, i, hardware).blobs[k]|)
    decreases |ifaces| - i
  {
    hide Obeys, Ask, Recorded, Size, Blob;
    if i < |ifaces| {
      CompleteReading(ifaces, i + 1, hardware);
      if ifaces[i].class_ == CLASS_HID {
        FullBlob(ifaces[i], i, hardware);
        var rest, others := Read(ifaces, i + 1, hardware), HidInterfaces(ifaces, i + 1);
        var read, all := Read(ifaces, i, hardware), HidInterfaces(ifaces, i);
        assert read.blobs == [read.blobs[0]] + rest.blobs && all == [ifaces[i]] + others;
        assert Size(ifaces[i].extra) == Some(|read.blobs[0]|);
        hide Read, HidInterfaces;
        forall k | 0 <= k < |all|
          ensures Size(all[k].extra) == Some(|read.blobs[k]|)
        {
          if k > 0 {
            assert all[k] == others[k - 1] && read.blobs[k] == rest.blobs[k - 1];
          }
        }
      }
    }
  }

  function HidInterfaces(ifaces: seq<I.Iface>, i: nat): seq<I.Iface>
    requires i <= |ifaces|
    decreases |ifaces| - i
  {
    if i == |ifaces| then []
    else (if ifaces[i].class_ == CLASS_HID then [ifaces[i]] else []) + HidInterfaces(ifaces, i + 1)
  }

  // ---- the same, byte by byte ----

  /** The size at bytes 7 and 8 of a HID descriptor of at least 9 bytes, unless it is 0. */
  lemma {:induction false} SizeTells(extra: Option<Bytes>)
    ensures Size(extra).Some? <==>
            extra.Some? && |extra.value| >= 9 && extra.value[1] == 0x21 && (extra.value[7] != 0 || extra.value[8] != 0)
    ensures Size(extra).Some? ==> Size(extra).value == (extra.value[7] as int) + 256 * (extra.value[8] as int)
  {
  }

  /** The interface's descriptor was asked for with a zeroed buffer of its size, which the device filled. */
  ghost predicate Gave(intf: I.Iface, i: nat, hardware: Hardware, blob: Bytes, event: V.Event) {
    && intf.extra.Some? && |intf.extra.value| >= 9 && intf.extra.value[1] == 0x21
    && |blob| == (intf.extra.value[7] as int) + 256 * (intf.extra.value[8] as int)
    && |blob| > 0
    && exists data: Bytes :: GaveInto(intf, i, hardware, data, blob, event)
  }

  ghost predicate GaveInto(intf: I.Iface, i: nat, hardware: Hardware, data: Bytes, blob: Bytes, event: V.Event) {
    var req := ControlTransfer(0, 0, 1, 6, 0x2200, intf.number, data);
    && |data| == |blob| && (forall k :: 0 <= k < |data| ==> data[k] == 0)
    && hardware(i, req) == Completed(0, blob, |blob|)
    && event == V.Event(Some(Key(req)), 0, 0, Some(blob))
  }

  /** The interface gave no descriptor. */
  ghost predicate Refused(intf: I.Iface, i: nat, hardware: Hardware) {
    forall blob, event :: !Gave(intf, i, hardware, blob, event)
  }

  lemma {:induction false} GaveIsBlob(intf: I.Iface, i: nat, hardware: Hardware, blob: Bytes, event: V.Event)
    requires Gave(intf, i, hardware, blob, event)
    ensures Size(intf.extra) == Some(|blob|)
    ensures Blob(Ask(intf, |blob|), hardware(i, Ask(intf, |blob|))).Some?
  {
    hide Key;
    SizeTells(intf.extra);
    var data: Bytes :| GaveInto(intf, i, hardware, data, blob, event);
    assert data == Zeros(|blob|);
  }

  lemma {:induction false} NoBlobIsRefused(intf: I.Iface, i: nat, hardware: Hardware)
    requires Size(intf.extra).None? ||
             Blob(Ask(intf, Size(intf.extra).value), hardware(i, Ask(intf, Size(intf.extra).value))).None?
    ensures Refused(intf, i, hardware)
  {
    hide Gave, Size, Blob, Ask;
    forall blob, event ensures !Gave(intf, i, hardware, blob, event) {
      if Gave(intf, i, hardware, blob, event) {
        GaveIsBlob(intf, i, hardware, blob, event);
      }
    }
  }

  lemma {:induction false} BlobGave(intf: I.Iface, i: nat, hardware: Hardware)
    requires Obeys(hardware) && Size(intf.extra).Some?
    ensures var req := Ask(intf, Size(intf.extra).value);
            var resp := hardware(i, req);
            Fits(req, resp) && Recorded(req, resp).Some? &&
            (Blob(req, resp).Some? ==> Gave(intf, i, hardware, Blob(req, resp).value, Recorded(req, resp).value))
  {
    hide Key;
    SizeTells(intf.extra);
    var size := Size(intf.extra).value;
    var req := Ask(intf, size);
    var resp := hardware(i, req);
    assert Fits(req, resp);
    if Blob(req, resp).Some? {
      assert resp.buffer[..resp.actual] == resp.buffer;
      assert GaveInto(intf, i, hardware, Zeros(size), resp.buffer, Recorded(req, resp).value);
    }
  }

  /** The positions of the HID interfaces from a position on. */
  ghost predicate HidPositions(ifaces: seq<I.Iface>, i: nat, at: seq<nat>) {
    && Ascending(at, |ifaces|)
    && forall k: nat :: k < |ifaces| ==> (k in at <==> i <= k && ifaces[k].class_ == 3)
  }

  /** The blobs are those of the HID interfaces in order, up to the first that did not give its own. */
  ghost predicate ReadsFrom(r: Reading, ifaces: seq<I.Iface>, at: seq<nat>, hardware: Hardware)
    requires Ascending(at, |ifaces|)
  {
    && |r.blobs| <= |at| && |r.blobs| <= |r.log| && (r.complete <==> |r.blobs| == |at|)
    && (r.complete ==> |r.log| == |r.blobs|)
    && (!r.complete ==> |r.blobs| < |at| && Refused(ifaces[at[|r.blobs|]], at[|r.blobs|], hardware))
    && forall k :: 0 <= k < |r.blobs| ==> Gave(ifaces[at[k]], at[k], hardware, r.blobs[k], r.log[k])
  }

  lemma {:induction false} ReadsOneMore(
    r: Reading, ifaces: seq<I.Iface>, i: nat, rest: seq<nat>, hardware: Hardware, blob: Bytes, event: V.Event)
    requires Ascending(rest, |ifaces|) && Ascending([i] + rest, |ifaces|) && ReadsFrom(r, ifaces, rest, hardware)
    requires i < |ifaces| && Gave(ifaces[i], i, hardware, blob, event)
    ensures ReadsFrom(Reading([blob] + r.blobs, [event] + r.log, r.complete), ifaces, [i] + rest, hardware)
  {
    hide Gave, Refused;
  }

  lemma {:induction false} ReadTells(ifaces: seq<I.Iface>, i: nat, hardware: Hardware) returns (at: seq<nat>)
    requires i <= |ifaces| && Obeys(hardware)
    ensures HidPositions(ifaces, i, at) && ReadsFrom(Read(ifaces, i, hardware), ifaces, at, hardware)
    decreases |ifaces| - i
  {
    hide Gave, Obeys, Ask, Blob, Size, Recorded, Refused;
    if i == |ifaces| {
      at := [];
    } else {
      var rest := ReadTells(ifaces, i + 1, hardware);
      if ifaces[i].class_ != CLASS_HID {
        at := rest;
      } else {
        at := [i] + rest;
        FirstPosition(ifaces, i, rest);
        hide HidPositions, Ascending;
        if Size(ifaces[i].extra).None? ||
           Blob(Ask(ifaces[i], Size(ifaces[i].extra).value), hardware(i, Ask(ifaces[i], Size(ifaces[i].extra).value))).None?
        {
          NoBlobIsRefused(ifaces[i], i, hardware);
        }
        if Size(ifaces[i].extra).Some? {
          BlobGave(ifaces[i], i, hardware);
          var req := Ask(ifaces[i], Size(ifaces[i].extra).value);
          var resp := hardware(i, req);
          if Blob(req, resp).Some? {
            ReadsOneMore(Read(ifaces, i + 1, hardware), ifaces, i, rest, hardware,
                         Blob(req, resp).value, Recorded(req, resp).value);
          }
        }
      }
    }
  }

  lemma {:induction false} FirstPosition(ifaces: seq<I.Iface>, i: nat, rest: seq<nat>)
    requires i < |ifaces| && ifaces[i].class_ == 3 && HidPositions(ifaces, i + 1, rest)
    ensures HidPositions(ifaces, i, [i] + rest) && Ascending([i] + rest, |ifaces|) && Ascending(rest, |ifaces|)
  {
    forall k | 0 <= k < |rest| ensures rest[k] > i {
      assert rest[k] in rest;
    }
  }
}
