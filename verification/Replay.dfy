/**
 * Recording a session with a real device, saving the device to JSON, loading it as an emulated
 * device and running the same client again.
 */
module Replay {
  import opened Basics
  import opened EventKey
  import opened Transfer
  import opened EventLog
  import V = DeviceEvent
  import D = Device
  import H = HidReport
  import I = Interface

  /** A client chooses its next request from all it has seen, or stops. */
  type Client = seq<Outcome> -> Option<Request>

  /** The hardware may answer as it likes. */
  type Hardware = (seq<Outcome>, Request) -> Response

  ghost predicate Obeys(hardware: Hardware) {
    forall past: seq<Outcome>, req: Request :: Fits(req, hardware(past, req))
  }

  datatype Session = Session(trace: seq<Outcome>, log: seq<V.Event>)

  /** The first n steps of the client on a real device whose context saves events. */
  ghost function LiveRun(client: Client, hardware: Hardware, n: nat): Session
    requires Obeys(hardware)
  {
    if n == 0 then Session([], [])
    else
      var s := LiveRun(client, hardware, n - 1);
      match client(s.trace)
      case None => s
      case Some(req) =>
        var resp := hardware(s.trace, req);
        Session(s.trace + [Live(req, resp)],
                match Recorded(req, resp) case Some(e) => s.log + [e] case None => s.log)
  }

  datatype Emulation = Emulation(trace: seq<Outcome>, cursor: nat)

  /** The first n steps of the client on an emulated device. */
  ghost function ReplayRun(client: Client, events: seq<V.Event>, cursor: nat, n: nat): Emulation {
    if n == 0 then Emulation([], cursor)
    else
      var s := ReplayRun(client, events, cursor, n - 1);
      match client(s.trace)
      case None => s
      case Some(req) =>
        Emulation(s.trace + [Answered(events, s.cursor, req)],
                  Search(IdsOf(events), s.cursor, Key(req)).cursor)
  }

  /** The query for the configuration index that fails returns 0 and records nothing. */
  predicate Unanswered(req: Request, resp: Response) {
    req.GetConfigurationIndex? && resp.QueryFailed?
  }

  /**
   * The response of step m, if there is one, is replayable: from its own event, or, for a configuration that
   * could not be read, because no event of the session has its id and a replay answers 0 too.
   */
  ghost predicate ReplayableStep(client: Client, hardware: Hardware, events: seq<V.Event>, m: nat)
    requires Obeys(hardware)
  {
    var past := LiveRun(client, hardware, m).trace;
    match client(past)
    case None => true
    case Some(req) =>
      Replayable(req, hardware(past, req)) ||
      (Unanswered(req, hardware(past, req)) && Some(Key(req)) !in IdsOf(events))
  }

  lemma {:induction false} LiveRunGrows(client: Client, hardware: Hardware, m: nat, n: nat)
    requires Obeys(hardware) && m <= n
    ensures LiveRun(client, hardware, m).trace <= LiveRun(client, hardware, n).trace
    ensures LiveRun(client, hardware, m).log <= LiveRun(client, hardware, n).log
  {
    hide Live, Recorded, Fits;
    if m < n {
      LiveRunGrows(client, hardware, m, n - 1);
    }
  }

  lemma {:induction false} ReplayRunGrows(client: Client, events: seq<V.Event>, cursor: nat, m: nat, n: nat)
    requires m <= n
    ensures ReplayRun(client, events, cursor, m).trace <= ReplayRun(client, events, cursor, n).trace
  {
    hide Answered, Search, Key, IdsOf;
    if m < n {
      ReplayRunGrows(client, events, cursor, m, n - 1);
    }
  }

  /** An event some step recorded. */
  ghost predicate Genuine(e: V.Event) {
    exists req: Request, resp: Response :: Fits(req, resp) && Recorded(req, resp) == Some(e)
  }

  lemma {:induction false} LogIsGenuine(client: Client, hardware: Hardware, n: nat)
    requires Obeys(hardware)
    ensures forall e :: e in LiveRun(client, hardware, n).log ==> Genuine(e)
  {
    hide Live, Recorded, Fits;
    if n > 0 {
      LogIsGenuine(client, hardware, n - 1);
    }
  }

  /** The event at the cursor is found when it has the id asked for. */
  lemma {:induction false} FoundAtCursor(events: seq<V.Event>, cursor: nat, i: nat, req: Request)
    requires i < |events| && events[i].id == Some(Key(req))
    requires cursor == i || (i == 0 && cursor == |events|)
    ensures Answered(events, cursor, req) == Replayed(req, Some(events[i]))
    ensures Search(IdsOf(events), cursor, Key(req)).cursor == i + 1
  {
    hide Key, Replayed;
    assert FirstMatch(IdsOf(events), Key(req), i) == Some(i);
  }

  /** Where a replay may start: at the beginning, at the end, or where one left off before what a save appended. */
  ghost predicate StartsAt(cursor: nat, logged: nat, events: seq<V.Event>)
    requires logged <= |events|
  {
    || cursor == 0 || cursor == |events|
    || (cursor == logged && (logged == 0 || events[0].id !in IdsOf(events[logged..])))
  }

  /** The cursor stands at event i, or where a search for event i ends up there. */
  ghost predicate StandsAt(cursor: nat, i: nat, logged: nat, events: seq<V.Event>)
    requires logged <= |events|
  {
    cursor == i || (i == 0 && StartsAt(cursor, logged, events)) || (i == |events| && cursor == 0)
  }

  /** A search from there finds event i. */
  lemma {:induction false} FoundWhereItStands(
    events: seq<V.Event>, cursor: nat, i: nat, logged: nat, req: Request)
    requires i < logged <= |events| && events[i].id == Some(Key(req)) && StandsAt(cursor, i, logged, events)
    ensures Answered(events, cursor, req) == Replayed(req, Some(events[i]))
    ensures Search(IdsOf(events), cursor, Key(req)).cursor == i + 1
  {
    hide Key, Replayed;
    if cursor == i || cursor == |events| {
      FoundAtCursor(events, cursor, i, req);
    } else {
      var ids := IdsOf(events);
      if i == 0 && cursor == logged {
        assert forall k :: logged <= k < |events| ==> ids[k] == IdsOf(events[logged..])[k - logged];
        IsNone(ids, Key(req), logged);
      }
      IsFirst(ids, Key(req), 0, 0);
    }
  }

  /** While every response is replayable, the replay keeps step: same trace, cursor at the next event. */
  lemma {:induction false} InStep(
    client: Client, hardware: Hardware, events: seq<V.Event>, cursor: nat, m: nat, n: nat)
    requires Obeys(hardware) && m <= n && LiveRun(client, hardware, n).log <= events
    requires StartsAt(cursor, |LiveRun(client, hardware, n).log|, events)
    requires forall k :: 0 <= k < m ==> ReplayableStep(client, hardware, events, k)
    ensures var live, again := LiveRun(client, hardware, m), ReplayRun(client, events, cursor, m);
            again.trace == live.trace &&
            StandsAt(again.cursor, |live.log|, |LiveRun(client, hardware, n).log|, events)
  {
    hide Live, Recorded, Fits, Replayable, Unanswered, Answered, Search, Key, IdsOf, StartsAt;
    if m > 0 {
      var live := LiveRun(client, hardware, m - 1);
      LiveRunGrows(client, hardware, m - 1, m);
      LiveRunGrows(client, hardware, m, n);
      InStep(client, hardware, events, cursor, m - 1, n);
      assert ReplayableStep(client, hardware, events, m - 1);
      if client(live.trace).Some? {
        var req := client(live.trace).value;
        var again := ReplayRun(client, events, cursor, m - 1);
        OneStep(req, hardware(live.trace, req), events, again.cursor, live.log, LiveRun(client, hardware, n).log);
      }
    }
  }

  lemma {:induction false} OneStep(
    req: Request, resp: Response, events: seq<V.Event>, cursor: nat, log: seq<V.Event>, all: seq<V.Event>)
    requires Fits(req, resp) && log <= all <= events && StandsAt(cursor, |log|, |all|, events)
    requires Recorded(req, resp).Some? ==> log + [Recorded(req, resp).value] <= all
    ensures Recorded(req, resp).Some? ==>
              Search(IdsOf(events), cursor, Key(req)).cursor == |log| + 1 &&
              (Answered(events, cursor, req) == Live(req, resp) <==> Replayable(req, resp))
    ensures Recorded(req, resp).None? ==> !Replayable(req, resp)
    ensures Unanswered(req, resp) && Some(Key(req)) !in IdsOf(events) ==>
              Recorded(req, resp).None? && Answered(events, cursor, req) == Live(req, resp) &&
              StandsAt(Search(IdsOf(events), cursor, Key(req)).cursor, |log|, |all|, events)
  {
    UnrecordedIsNotReplayable(req, resp);
    if Recorded(req, resp).Some? {
      hide Key, Live, Replayed, Replayable, Recorded, Fits, Answered, Search;
      assert events[|log|] == Recorded(req, resp).value;
      FoundWhereItStands(events, cursor, |log|, |all|, req);
      StepReplays(req, resp);
      AnsweredIsRecorded(req, resp);
    } else if Unanswered(req, resp) && Some(Key(req)) !in IdsOf(events) {
      hide Key, IdsOf;
      SearchIsRotation(IdsOf(events), cursor, Key(req));
    }
  }

  lemma {:induction false} AnsweredIsRecorded(req: Request, resp: Response)
    requires Fits(req, resp)
    ensures Recorded(req, resp).Some? ==> !Unanswered(req, resp)
  {
    hide Key;
  }

  /** A query that failed live with an error is never reproduced: no recorded event gives that error. */
  lemma {:induction false} FailedQueryDiffers(req: Request, resp: Response, events: seq<V.Event>, cursor: nat)
    requires Fits(req, resp) && Recorded(req, resp).None? && !Unanswered(req, resp)
    requires forall e :: e in events ==> Genuine(e)
    ensures Answered(events, cursor, req) != Live(req, resp)
  {
    hide Key;
    var found := Search(IdsOf(events), cursor, Key(req)).at;
    if found.Some? {
      var e := events[found.value];
      assert e in events;
      var req', resp' :| Fits(req', resp') && Recorded(req', resp') == Some(e);
      UnrecordedIsNotReplayable(req', resp');
      KeyInjective(req, req');
    }
  }

  /** A configuration that could not be read is replayed as 0 unless an event with another answer is found. */
  lemma {:induction false} UnansweredReplays(req: Request, resp: Response, events: seq<V.Event>, cursor: nat)
    requires Fits(req, resp) && Unanswered(req, resp)
    requires forall e :: e in events ==> Genuine(e)
    ensures var found := Search(IdsOf(events), cursor, Key(req)).at;
            Answered(events, cursor, req) == Live(req, resp) <==>
            found.None? || events[found.value].bytes == Some([0])
  {
    hide Key;
    var found := Search(IdsOf(events), cursor, Key(req)).at;
    if found.Some? {
      var e := events[found.value];
      assert e in events;
      var req', resp' :| Fits(req', resp') && Recorded(req', resp') == Some(e);
      UnrecordedIsNotReplayable(req', resp');
      KeyInjective(req, req');
    }
  }

  /** A configuration query of the session failed although another one was answered with index 0. */
  ghost predicate Blurred(client: Client, hardware: Hardware, n: nat)
    requires Obeys(hardware)
  {
    && (exists e :: e in LiveRun(client, hardware, n).log &&
                    e.id == Some(Key(GetConfigurationIndex)) && e.bytes == Some([0]))
    && exists k :: 0 <= k < n && UnansweredStep(client, hardware, k)
  }

  ghost predicate UnansweredStep(client: Client, hardware: Hardware, k: nat)
    requires Obeys(hardware)
  {
    var past := LiveRun(client, hardware, k).trace;
    client(past).Some? && Unanswered(client(past).value, hardware(past, client(past).value))
  }

  // ---- what a save appends ----

  /** Events of transfers; a save of an open device may record some before it writes the log. */
  ghost predicate Appended(tail: seq<V.Event>) {
    forall e :: e in tail ==>
      exists req: Request, resp: Response :: req.Transfer() && Fits(req, resp) && Recorded(req, resp) == Some(e)
  }

  lemma {:induction false} AppendedIsGenuine(tail: seq<V.Event>)
    requires Appended(tail)
    ensures forall e :: e in tail ==> Genuine(e) && e.id != Some(Key(GetConfigurationIndex))
  {
    hide Key, Recorded, Fits;
    forall e | e in tail ensures Genuine(e) && e.id != Some(Key(GetConfigurationIndex)) {
      var req: Request, resp: Response :| req.Transfer() && Fits(req, resp) && Recorded(req, resp) == Some(e);
      UnrecordedIsNotReplayable(req, resp);
      KeyInjective(req, GetConfigurationIndex);
    }
  }

  /** The transfers by which a save reads HID descriptors. */
  lemma {:induction false} HidReadingIsAppended(ifaces: seq<I.Iface>, i: nat, hardware: H.Hardware)
    requires i <= |ifaces| && H.Obeys(hardware)
    ensures Appended(H.Read(ifaces, i, hardware).log)
    decreases |ifaces| - i
  {
    hide Recorded, H.Blob, H.Size;
    if i < |ifaces| {
      HidReadingIsAppended(ifaces, i + 1, hardware);
      if ifaces[i].class_ == H.CLASS_HID && H.Size(ifaces[i].extra).Some? {
        var req := H.Ask(ifaces[i], H.Size(ifaces[i].extra).value);
        assert Fits(req, hardware(i, req));
        TransferIsRecorded(req, hardware(i, req));
        assert req.Transfer() && Recorded(req, hardware(i, req)) == Some(Recorded(req, hardware(i, req)).value);
      }
    }
  }

  lemma {:induction false} TransferIsRecorded(req: Request, resp: Response)
    requires req.Transfer() && Fits(req, resp)
    ensures Recorded(req, resp).Some?
  {
    hide Key;
  }

  /** What is appended bears no id of a configuration query. */
  lemma {:induction false} SameSteps(client: Client, hardware: Hardware, log: seq<V.Event>, tail: seq<V.Event>, k: nat)
    requires Obeys(hardware) && Appended(tail)
    ensures ReplayableStep(client, hardware, log, k) <==> ReplayableStep(client, hardware, log + tail, k)
  {
    hide Key, Appended, Replayable, LiveRun, Genuine;
    AppendedIsGenuine(tail);
    var id := Some(Key(GetConfigurationIndex));
    assert IdsOf(log + tail) == IdsOf(log) + IdsOf(tail);
    assert forall i :: 0 <= i < |tail| ==> IdsOf(tail)[i] == tail[i].id && tail[i] in tail;
    assert id !in IdsOf(tail);
    assert id in IdsOf(log + tail) <==> id in IdsOf(log);
  }

  /** At the first response that is not replayable the two runs part. */
  lemma {:induction false} OutOfStep(client: Client, hardware: Hardware, tail: seq<V.Event>, n: nat, m: nat)
    requires Obeys(hardware) && Appended(tail) && m < n && !Blurred(client, hardware, n)
    requires var events := LiveRun(client, hardware, n).log + tail;
             && (forall k :: 0 <= k < m ==> ReplayableStep(client, hardware, events, k))
             && !ReplayableStep(client, hardware, events, m)
    ensures ReplayRun(client, LiveRun(client, hardware, n).log + tail, 0, n).trace != LiveRun(client, hardware, n).trace
  {
    hide Live, Recorded, Fits, Replayable, Answered, Search, Key, Unanswered, IdsOf, Appended, Blurred;
    var events := LiveRun(client, hardware, n).log + tail;
    var live := LiveRun(client, hardware, m);
    LiveRunGrows(client, hardware, m, n);
    LiveRunGrows(client, hardware, m + 1, n);
    InStep(client, hardware, events, 0, m, n);
    ReplayRunGrows(client, events, 0, m + 1, n);
    var req := client(live.trace).value;
    var resp := hardware(live.trace, req);
    var cursor := ReplayRun(client, events, 0, m).cursor;
    Parts(client, hardware, tail, n, m, req, resp, cursor);
    var at := |live.trace|;
    assert LiveRun(client, hardware, m + 1).trace[at] == Live(req, resp);
    assert ReplayRun(client, events, 0, m + 1).trace[at] == Answered(events, cursor, req);
  }

  lemma {:induction false} Parts(
    client: Client, hardware: Hardware, tail: seq<V.Event>, n: nat, m: nat, req: Request, resp: Response, cursor: nat)
    requires Obeys(hardware) && Appended(tail) && m < n && !Blurred(client, hardware, n)
    requires LiveRun(client, hardware, m + 1).log <= LiveRun(client, hardware, n).log
    requires var past, all := LiveRun(client, hardware, m), LiveRun(client, hardware, n).log;
             && past.log <= all && StandsAt(cursor, |past.log|, |all|, all + tail)
             && client(past.trace) == Some(req) && hardware(past.trace, req) == resp
             && !ReplayableStep(client, hardware, all + tail, m)
    ensures Answered(LiveRun(client, hardware, n).log + tail, cursor, req) != Live(req, resp)
  {
    hide Live, Recorded, Fits, Replayable, Answered, Search, Key, IdsOf, Appended, Genuine, StandsAt;
    var past, all := LiveRun(client, hardware, m), LiveRun(client, hardware, n).log;
    var events := all + tail;
    LogIsGenuine(client, hardware, n);
    AppendedIsGenuine(tail);
    OneStep(req, resp, events, cursor, past.log, all);
    assert forall e :: e in events ==> e in all || e in tail;
    if Unanswered(req, resp) {
      assert UnansweredStep(client, hardware, m);
      UnansweredReplays(req, resp, events, cursor);
      FoundHasId(events, cursor, req);
    } else if Recorded(req, resp).None? {
      FailedQueryDiffers(req, resp, events, cursor);
    }
  }

  lemma {:induction false} FoundHasId(events: seq<V.Event>, cursor: nat, req: Request)
    ensures match Search(IdsOf(events), cursor, Key(req)).at
            case Some(i) => i < |events| && events[i] in events && events[i].id == Some(Key(req))
            case None => Some(Key(req)) !in IdsOf(events)
  {
    hide Key;
  }

  lemma {:induction false} FirstFailure(client: Client, hardware: Hardware, events: seq<V.Event>, n: nat) returns (m: nat)
    requires Obeys(hardware)
    requires exists k :: 0 <= k < n && !ReplayableStep(client, hardware, events, k)
    ensures m < n && !ReplayableStep(client, hardware, events, m)
    ensures forall k :: 0 <= k < m ==> ReplayableStep(client, hardware, events, k)
  {
    hide ReplayableStep, Obeys;
    m := 0;
    while ReplayableStep(client, hardware, events, m)
      invariant m < n
      invariant forall k :: 0 <= k < m ==> ReplayableStep(client, hardware, events, k)
      invariant exists k :: m <= k < n && !ReplayableStep(client, hardware, events, k)
      decreases n - m
    {
      m := m + 1;
    }
  }

  /**
   * For every client and all hardware, over any number of steps: the run on the device loaded
   * from the JSON of the recorded one, with whatever transfers the save appended to the log, gives
   * the same results, errors and buffers at every step if every response of the hardware was
   * replayable, and only then unless the session holds both a failed configuration query and one
   * answered with index 0, which no replay can tell apart.
   */
  lemma {:induction false} ReplayReproducesLive(
    client: Client, hardware: Hardware, n: nat, device: D.Tree, tail: seq<V.Event>, now: int)
    requires Obeys(hardware) && Appended(tail)
    ensures var live := LiveRun(client, hardware, n);
            var loaded := D.LoadDevice(D.DeviceNode(device.(events := live.log + tail)), now);
            && loaded.Some?
            && ((forall k :: 0 <= k < n ==> ReplayableStep(client, hardware, live.log, k)) ==>
                ReplayRun(client, loaded.value.events, 0, n).trace == live.trace)
            && (!Blurred(client, hardware, n) ==>
                (ReplayRun(client, loaded.value.events, 0, n).trace == live.trace <==>
                 forall k :: 0 <= k < n ==> ReplayableStep(client, hardware, live.log, k)))
  {
    var live := LiveRun(client, hardware, n);
    var events := live.log + tail;
    D.DeviceRoundTrip(device.(events := events), now);
    hide D.LoadDevice, D.DeviceNode, Blurred, Appended, ReplayableStep;
    forall k | 0 <= k < n
      ensures ReplayableStep(client, hardware, live.log, k) <==> ReplayableStep(client, hardware, events, k)
    {
      SameSteps(client, hardware, live.log, tail, k);
    }
    if forall k :: 0 <= k < n ==> ReplayableStep(client, hardware, live.log, k) {
      InStep(client, hardware, events, 0, n, n);
    } else if !Blurred(client, hardware, n) {
      var m := FirstFailure(client, hardware, events, n);
      OutOfStep(client, hardware, tail, n, m);
    }
  }

  /** In particular with the transfers by which the save itself read the HID descriptors. */
  lemma {:induction false} SavedSessionReplays(
    client: Client, hardware: Hardware, n: nat, device: D.Tree, ifaces: seq<I.Iface>, hid: H.Hardware, now: int)
    requires Obeys(hardware) && H.Obeys(hid)
    requires forall k :: 0 <= k < n ==> ReplayableStep(client, hardware, LiveRun(client, hardware, n).log, k)
    ensures var live := LiveRun(client, hardware, n);
            var saved := device.(events := live.log + H.Read(ifaces, 0, hid).log);
            var loaded := D.LoadDevice(D.DeviceNode(saved), now);
            loaded.Some? && ReplayRun(client, loaded.value.events, 0, n).trace == live.trace
  {
    hide D.LoadDevice, D.DeviceNode, Blurred, Appended, ReplayableStep, H.Read, H.Obeys;
    HidReadingIsAppended(ifaces, 0, hid);
    ReplayReproducesLive(client, hardware, n, device, H.Read(ifaces, 0, hid).log, now);
  }
}
