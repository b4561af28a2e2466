/** Running the session on the emulated device a second time, where the first run left the cursor. */
module ReplayAgain {
  import opened Basics
  import opened EventKey
  import opened Transfer
  import opened EventLog
  import opened Replay
  import opened ReplayLookup
  import H = HidReport
  import I = Interface
  import V = DeviceEvent

  /** The first event of the session is not among those the save appended. */
  ghost predicate Clear(log: seq<V.Event>, tail: seq<V.Event>) {
    log == [] || log[0].id !in IdsOf(tail)
  }

  lemma {:induction false} TailIds(log: seq<V.Event>, tail: seq<V.Event>)
    ensures IdsOf((log + tail)[|log|..]) == IdsOf(tail)
  {
    assert (log + tail)[|log|..] == tail;
  }

  /**
   * The session can be run again from the beginning, from the end and, if the save appended no event with the
   * id of its first one, from where the last run ended; and it ends at such a place again, so any number of
   * times.
   */
  lemma {:induction false} AgainAndAgain(
    client: Client, hardware: Hardware, tail: seq<V.Event>, cursor: nat, n: nat)
    requires Obeys(hardware) && Appended(tail)
    requires forall k :: 0 <= k < n ==> ReplayableStep(client, hardware, LiveRun(client, hardware, n).log, k)
    requires var log := LiveRun(client, hardware, n).log;
             Clear(log, tail) && cursor in {0, |log|, |log + tail|}
    ensures var live := LiveRun(client, hardware, n);
            var again := ReplayRun(client, live.log + tail, cursor, n);
            again.trace == live.trace && again.cursor in {0, |live.log|, |live.log + tail|}
  {
    hide LiveRun, ReplayRun, ReplayableStep, Appended, IdsOf;
    var log := LiveRun(client, hardware, n).log;
    TailIds(log, tail);
    assert StartsAt(cursor, |log|, log + tail);
    forall k | 0 <= k < n ensures ReplayableStep(client, hardware, log + tail, k) {
      SameSteps(client, hardware, log, tail, k);
    }
    InStep(client, hardware, log + tail, cursor, n, n);
  }

  // ---- when the save appended the id of the first event ----

  /** The step that records the first event; those before it record nothing. */
  lemma {:induction false} FirstRecorded(client: Client, hardware: Hardware, n: nat) returns (m: nat)
    requires Obeys(hardware) && LiveRun(client, hardware, n).log != []
    ensures m < n && LiveRun(client, hardware, m).log == []
    ensures |LiveRun(client, hardware, m + 1).log| == 1
    ensures LiveRun(client, hardware, m + 1).log[0] == LiveRun(client, hardware, n).log[0]
  {
    hide Live, Recorded, Fits, Obeys;
    if LiveRun(client, hardware, n - 1).log == [] {
      m := n - 1;
    } else {
      LiveRunGrows(client, hardware, n - 1, n);
      m := FirstRecorded(client, hardware, n - 1);
    }
  }

  /** Before its first event is looked up the cursor stays. */
  lemma {:induction false} CursorStays(
    client: Client, hardware: Hardware, events: seq<V.Event>, cursor: nat, m: nat)
    requires Obeys(hardware) && LiveRun(client, hardware, m).log == [] && cursor < |events|
    requires forall k :: 0 <= k < m ==> ReplayableStep(client, hardware, events, k)
    ensures CursorAfter(client, hardware, events, cursor, m) == cursor
  {
    hide Live, Fits, Replayable, Search, Key, IdsOf;
    if m > 0 {
      LiveRunGrows(client, hardware, m - 1, m);
      CursorStays(client, hardware, events, cursor, m - 1);
      var past := LiveRun(client, hardware, m - 1).trace;
      assert ReplayableStep(client, hardware, events, m - 1);
      if client(past).Some? {
        var req := client(past).value;
        UnrecordedIsNotReplayable(req, hardware(past, req));
        SearchIsRotation(IdsOf(events), cursor, Key(req));
      }
    }
  }

  /** The first event with an id. */
  ghost predicate FirstWith(tail: seq<V.Event>, id: Option<string>, j: nat) {
    j < |tail| && tail[j].id == id && forall i :: 0 <= i < j ==> tail[i].id != id
  }

  lemma {:induction false} SomeFirst(tail: seq<V.Event>, id: Option<string>) returns (j: nat)
    requires id in IdsOf(tail)
    ensures FirstWith(tail, id, j)
  {
    var ids := IdsOf(tail);
    var last :| 0 <= last < |ids| && ids[last] == id;
    j := 0;
    while tail[j].id != id
      invariant j <= last
      invariant forall i :: 0 <= i < j ==> tail[i].id != id
      decreases last - j
    {
      assert ids[last] == tail[last].id;
      j := j + 1;
    }
  }

  lemma {:induction false} FoundInTail(log: seq<V.Event>, tail: seq<V.Event>, key: string, j: nat)
    requires FirstWith(tail, Some(key), j)
    ensures Search(IdsOf(log + tail), |log|, key).at == Some(|log| + j)
  {
    var ids := IdsOf(log + tail);
    forall i | |log| <= i < |log| + j ensures ids[i] != Some(key) {
      assert (log + tail)[i] == tail[i - |log|];
    }
    assert (log + tail)[|log| + j] == tail[j];
    IsFirst(ids, key, |log|, |log| + j);
  }

  /** The second run meets the appended event first and parts there if it is another event. */
  lemma {:induction false} AgainParts(client: Client, hardware: Hardware, tail: seq<V.Event>, n: nat, j: nat)
    requires Obeys(hardware) && Appended(tail)
    requires forall k :: 0 <= k < n ==> ReplayableStep(client, hardware, LiveRun(client, hardware, n).log, k)
    requires var log := LiveRun(client, hardware, n).log;
             log != [] && FirstWith(tail, log[0].id, j) && tail[j] != log[0]
    ensures var live := LiveRun(client, hardware, n);
            ReplayRun(client, live.log + tail, |live.log|, n).trace != live.trace
  {
    hide Live, Recorded, Fits, Replayable, Search, Key, IdsOf, Appended, ReplayRun, ReplayableStep, Genuine, Unanswered;
    var log := LiveRun(client, hardware, n).log;
    var events := log + tail;
    forall k | 0 <= k < n ensures ReplayableStep(client, hardware, events, k) {
      SameSteps(client, hardware, log, tail, k);
    }
    LogIsGenuine(client, hardware, n);
    AppendedIsGenuine(tail);
    var m := FirstRecorded(client, hardware, n);
    CursorStays(client, hardware, events, |log|, m);
    var past := LiveRun(client, hardware, m).trace;
    var req := client(past).value;
    var resp := hardware(past, req);
    assert Recorded(req, resp) == Some(log[0]);
    UnrecordedIsNotReplayable(req, resp);
    FoundInTail(log, tail, Key(req), j);
    assert events[|log| + j] == tail[j];
    OnlyTransfersSay(tail, j, req, log[0]);
    assert !FindsItsOwn(client, hardware, events, |log|, m);
    ReplayIsLookup(client, hardware, events, |log|, n);
  }

  /** An appended event has the id of a transfer, so nothing but the same event says the same. */
  lemma {:induction false} OnlyTransfersSay(tail: seq<V.Event>, j: nat, req: Request, own: V.Event)
    requires Appended(tail) && j < |tail| && tail[j].id == Some(Key(req))
    ensures SaysTheSame(req, tail[j], own) <==> tail[j] == own
  {
    hide Key, Recorded, Fits;
    assert tail[j] in tail;
    var asked: Request, resp: Response :| asked.Transfer() && Fits(asked, resp) && Recorded(asked, resp) == Some(tail[j]);
    UnrecordedIsNotReplayable(asked, resp);
    KeyInjective(req, asked);
  }

  /** The first appended event with the id of the session's first event is that very event over again. */
  ghost predicate Repeated(log: seq<V.Event>, tail: seq<V.Event>) {
    log != [] && exists j: nat :: FirstWith(tail, log[0].id, j) && tail[j] == log[0]
  }

  /**
   * A second run, started where the first one ended, gives the same trace exactly when the save appended no
   * event with the id of the session's first one, unless it appended that very event first.
   */
  lemma {:induction false} SecondRun(client: Client, hardware: Hardware, tail: seq<V.Event>, n: nat)
    requires Obeys(hardware) && Appended(tail)
    requires forall k :: 0 <= k < n ==> ReplayableStep(client, hardware, LiveRun(client, hardware, n).log, k)
    requires !Repeated(LiveRun(client, hardware, n).log, tail)
    ensures var live := LiveRun(client, hardware, n);
            ReplayRun(client, live.log + tail, |live.log|, n).trace == live.trace <==> Clear(live.log, tail)
  {
    hide LiveRun, ReplayRun, ReplayableStep, Appended, IdsOf;
    var log := LiveRun(client, hardware, n).log;
    if Clear(log, tail) {
      AgainAndAgain(client, hardware, tail, |log|, n);
    } else {
      var j := SomeFirst(tail, log[0].id);
      AgainParts(client, hardware, tail, n, j);
    }
  }

  /** Without exception, by the events the session's ids lead to from there. */
  lemma {:induction false} SecondRunIsLookup(client: Client, hardware: Hardware, tail: seq<V.Event>, n: nat)
    requires Obeys(hardware) && Appended(tail)
    ensures var live := LiveRun(client, hardware, n);
            ReplayRun(client, live.log + tail, |live.log|, n).trace == live.trace <==>
            forall k :: 0 <= k < n ==> FindsItsOwn(client, hardware, live.log + tail, |live.log|, k)
  {
    hide LiveRun, ReplayRun, Appended, Genuine, FindsItsOwn;
    LogIsGenuine(client, hardware, n);
    AppendedIsGenuine(tail);
    ReplayIsLookup(client, hardware, LiveRun(client, hardware, n).log + tail, |LiveRun(client, hardware, n).log|, n);
  }

  // ---- a session that can be run once ----

  /** The HID interface whose report descriptor is one byte long. */
  function OneByteHid(): I.Iface {
    I.BLANK.(class_ := H.CLASS_HID, extra := Some([9, H.DT_HID, 0x11, 0x01, 0, 1, 0x22, 1, 0]))
  }

  /** The client asks for the report descriptor as a save would. */
  function AsksForReport(past: seq<Outcome>): Option<Request> {
    if past == [] then Some(H.Ask(OneByteHid(), 1)) else None
  }

  /** The device stalls. */
  function Stalls(past: seq<Outcome>, req: Request): Response {
    if req.Transfer() then Completed(4, req.data, 0) else QueryFailed(-1)
  }

  /** And answers when the device is saved. */
  function Answers(i: nat, req: Request): Response {
    if req.Transfer() then Completed(V.TRANSFER_COMPLETED, req.data, |req.data|) else QueryFailed(-1)
  }

  lemma {:induction false} BothObey()
    ensures Obeys(Stalls) && H.Obeys(Answers)
  {
  }

  lemma {:induction false} StalledLive()
    requires Obeys(Stalls)
    ensures var req := H.Ask(OneByteHid(), 1);
            && LiveRun(AsksForReport, Stalls, 1).log == [V.Event(Some(Key(req)), 4, V.SUCCESS, None)]
            && ReplayableStep(AsksForReport, Stalls, LiveRun(AsksForReport, Stalls, 1).log, 0)
  {
    hide Key, Obeys;
    var req := H.Ask(OneByteHid(), 1);
    assert LiveRun(AsksForReport, Stalls, 0) == Session([], []);
    assert Stalls([], req) == Completed(4, req.data, 0);
  }

  lemma {:induction false} AnsweredTail()
    requires H.Obeys(Answers)
    ensures var req := H.Ask(OneByteHid(), 1);
            H.Read([OneByteHid()], 0, Answers).log == [V.Event(Some(Key(req)), V.TRANSFER_COMPLETED, V.SUCCESS, Some([0]))]
  {
    hide Key, H.Obeys;
    var req := H.Ask(OneByteHid(), 1);
    assert H.Size(OneByteHid().extra) == Some(1);
    assert req.data == [0];
    assert req.data[..1] == [0];
    assert H.Blob(req, Answers(0, req)) == Some([0]);
    assert H.Read([OneByteHid()], 1, Answers) == H.Reading([], [], true);
  }

  lemma {:induction false} FirstRunAgrees(tail: seq<V.Event>)
    requires Obeys(Stalls) && Appended(tail) && |LiveRun(AsksForReport, Stalls, 1).log| == 1 && tail != []
    requires ReplayableStep(AsksForReport, Stalls, LiveRun(AsksForReport, Stalls, 1).log, 0)
    ensures var live := LiveRun(AsksForReport, Stalls, 1);
            ReplayRun(AsksForReport, live.log + tail, 0, 1) == Emulation(live.trace, 1)
  {
    hide LiveRun, ReplayRun, Key, ReplayableStep, Appended, Obeys, IdsOf;
    var log := LiveRun(AsksForReport, Stalls, 1).log;
    SameSteps(AsksForReport, Stalls, log, tail, 0);
    InStep(AsksForReport, Stalls, log + tail, 0, 1, 1);
  }

  lemma {:induction false} OtherEventParts(tail: seq<V.Event>)
    requires Obeys(Stalls) && Appended(tail) && |LiveRun(AsksForReport, Stalls, 1).log| == 1 && tail != []
    requires ReplayableStep(AsksForReport, Stalls, LiveRun(AsksForReport, Stalls, 1).log, 0)
    requires var own := LiveRun(AsksForReport, Stalls, 1).log[0]; tail[0].id == own.id && tail[0] != own
    ensures var live := LiveRun(AsksForReport, Stalls, 1);
            ReplayRun(AsksForReport, live.log + tail, 1, 1).trace != live.trace
  {
    hide LiveRun, ReplayRun, Key, ReplayableStep, Appended, Obeys, IdsOf;
    AgainParts(AsksForReport, Stalls, tail, 1, 0);
  }

  /** The save's own transfer has the id of the stalled one: the first run sees the stall, the second does not. */
  lemma {:induction false} RunsOnce()
    ensures Obeys(Stalls) && H.Obeys(Answers)
    ensures var live := LiveRun(AsksForReport, Stalls, 1);
            var events := live.log + H.Read([OneByteHid()], 0, Answers).log;
            && ReplayRun(AsksForReport, events, 0, 1) == Emulation(live.trace, 1)
            && ReplayRun(AsksForReport, events, 1, 1).trace != live.trace
  {
    BothObey();
    StalledLive();
    AnsweredTail();
    HidReadingIsAppended([OneByteHid()], 0, Answers);
    hide *;
    var tail := H.Read([OneByteHid()], 0, Answers).log;
    FirstRunAgrees(tail);
    OtherEventParts(tail);
  }
}
