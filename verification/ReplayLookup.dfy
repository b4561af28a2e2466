/** Which sessions a log replays, from any cursor, told by the events their own ids lead to. */
module ReplayLookup {
  import opened Basics
  import opened EventKey
  import opened Transfer
  import opened EventLog
  import opened Replay
  import V = DeviceEvent

  /** Where the cursor stands after the ids of the first m requests of the session are looked up in order. */
  ghost function CursorAfter(client: Client, hardware: Hardware, events: seq<V.Event>, cursor: nat, m: nat): nat
    requires Obeys(hardware)
  {
    if m == 0 then cursor
    else
      var before := CursorAfter(client, hardware, events, cursor, m - 1);
      match client(LiveRun(client, hardware, m - 1).trace)
      case None => before
      case Some(req) => Search(IdsOf(events), before, Key(req)).cursor
  }

  // ---- when one event answers for another ----

  /** The same event, or a text that is the same up to its end. */
  predicate SaysTheSame(req: Request, e: V.Event, own: V.Event) {
    e == own ||
    (req.GetStringDescriptor? && e.bytes.Some? && own.bytes.Some? && CString(e.bytes.value) == CString(own.bytes.value))
  }

  /** The bytes copied over the head of a buffer can be told from the result. */
  lemma {:induction false} CopiedTells(data: Bytes, mine: Bytes, its: Bytes)
    requires |mine| == |its| <= |data|
    ensures Copied(data, mine) == Copied(data, its) <==> mine == its
  {
    assert Copied(data, mine)[..|mine|] == mine;
    assert Copied(data, its)[..|its|] == its;
  }

  lemma {:induction false} TransferSays(req: Request, resp: Response, other: Response)
    requires req.Transfer() && Fits(req, resp) && Fits(req, other)
    requires Recorded(req, resp).Some? && Recorded(req, other).Some?
    ensures Replayed(req, Recorded(req, other)) == Live(req, resp) <==>
            Replayable(req, resp) && Recorded(req, other) == Recorded(req, resp)
  {
    hide Key;
    StepReplays(req, resp);
    StepReplays(req, other);
    if resp.Completed? && other.Completed? && resp.status == other.status == V.TRANSFER_COMPLETED {
      if resp.actual == other.actual {
        CopiedTells(req.data, resp.buffer[..resp.actual], other.buffer[..other.actual]);
        LiveTells(req, resp);
      }
    }
  }

  /** What a completed transfer leaves in the buffer begins with the bytes it reports. */
  lemma {:induction false} LiveTells(req: Request, resp: Response)
    requires req.Transfer() && resp.Completed? && Fits(req, resp) && resp.status == V.TRANSFER_COMPLETED
    ensures Live(req, resp).buffer == Copied(req.data, resp.buffer[..resp.actual]) <==> Replayable(req, resp)
    ensures Live(req, resp).buffer[..resp.actual] == resp.buffer[..resp.actual]
    ensures Live(req, resp).result == Length(resp.actual)
  {
    hide Key;
    var buffer := Live(req, resp).buffer;
    assert buffer == buffer[..resp.actual] + buffer[resp.actual..];
    assert Copied(req.data, resp.buffer[..resp.actual])[resp.actual..] == req.data[resp.actual..];
  }

  lemma {:induction false} QuerySays(req: Request, resp: Response, asked: Request, other: Response)
    requires !req.Transfer() && SameKey(req, asked) && Fits(req, resp) && Fits(asked, other)
    requires Recorded(req, resp).Some? && Recorded(asked, other).Some? && Key(req) == Key(asked)
    ensures Replayed(req, Recorded(asked, other)) == Live(req, resp) <==>
            Replayable(req, resp) && SaysTheSame(req, Recorded(asked, other).value, Recorded(req, resp).value)
  {
    hide Key;
  }

  /** A recorded event replays as a response that was recorded exactly when it says the same as its own event. */
  lemma {:induction false} Reproduces(req: Request, resp: Response, e: V.Event)
    requires Fits(req, resp) && Recorded(req, resp).Some? && Genuine(e) && e.id == Some(Key(req))
    ensures Replayed(req, Some(e)) == Live(req, resp) <==>
            Replayable(req, resp) && SaysTheSame(req, e, Recorded(req, resp).value)
  {
    hide Key, Replayed, Live, Recorded, Fits, Replayable;
    var asked, other :| Fits(asked, other) && Recorded(asked, other) == Some(e);
    UnrecordedIsNotReplayable(asked, other);
    KeyInjective(req, asked);
    if req.Transfer() {
      TransferSays(req, resp, other);
    } else {
      QuerySays(req, resp, asked, other);
    }
  }

  /**
   * What looking up the id of request m leads to: for a recorded request whose response is replayable, an
   * event that says the same as its own; for a configuration that could not be read, no event or one that
   * answers 0.
   */
  ghost predicate FindsItsOwn(client: Client, hardware: Hardware, events: seq<V.Event>, cursor: nat, m: nat)
    requires Obeys(hardware)
  {
    var past := LiveRun(client, hardware, m).trace;
    match client(past)
    case None => true
    case Some(req) =>
      var resp := hardware(past, req);
      var found := Search(IdsOf(events), CursorAfter(client, hardware, events, cursor, m), Key(req)).at;
      match Recorded(req, resp)
      case Some(own) => Replayable(req, resp) && found.Some? && SaysTheSame(req, events[found.value], own)
      case None => Unanswered(req, resp) && (found.None? || events[found.value].bytes == Some([0]))
  }

  /** The event found for a request of the session replays as it was answered exactly under that condition. */
  lemma {:induction false} OwnIsAnswer(
    client: Client, hardware: Hardware, events: seq<V.Event>, cursor: nat, m: nat, req: Request, resp: Response)
    requires Obeys(hardware) && LiveRun(client, hardware, m + 1).log <= events && forall e :: e in events ==> Genuine(e)
    requires var past := LiveRun(client, hardware, m).trace; client(past) == Some(req) && hardware(past, req) == resp
    ensures Answered(events, CursorAfter(client, hardware, events, cursor, m), req) == Live(req, resp) <==>
            FindsItsOwn(client, hardware, events, cursor, m)
  {
    hide Key, Live, Replayed, Fits, Replayable, Recorded, Search, SaysTheSame, CursorAfter, Genuine;
    var at := CursorAfter(client, hardware, events, cursor, m);
    FoundHasId(events, at, req);
    UnrecordedIsNotReplayable(req, resp);
    AnsweredIsRecorded(req, resp);
    if Recorded(req, resp).Some? {
      OwnIsThere(client, hardware, events, m, req, resp);
      var found := Search(IdsOf(events), at, Key(req)).at;
      Reproduces(req, resp, events[found.value]);
    } else if Unanswered(req, resp) {
      UnansweredReplays(req, resp, events, at);
    } else {
      FailedQueryDiffers(req, resp, events, at);
    }
  }

  lemma {:induction false} OwnIsThere(
    client: Client, hardware: Hardware, events: seq<V.Event>, m: nat, req: Request, resp: Response)
    requires Obeys(hardware) && LiveRun(client, hardware, m + 1).log <= events
    requires var past := LiveRun(client, hardware, m).trace; client(past) == Some(req) && hardware(past, req) == resp
    requires Recorded(req, resp).Some?
    ensures Some(Key(req)) in IdsOf(events)
  {
    hide Key, Live, Fits, Recorded;
    UnrecordedIsNotReplayable(req, resp);
    var i := |LiveRun(client, hardware, m).log|;
    assert events[i] == Recorded(req, resp).value;
    assert IdsOf(events)[i] == Some(Key(req));
  }

  // ---- the whole session ----

  /** A run that is shorter than its steps has stopped. */
  lemma {:induction false} RunLengths(client: Client, hardware: Hardware, events: seq<V.Event>, cursor: nat, n: nat)
    requires Obeys(hardware)
    ensures var trace := LiveRun(client, hardware, n).trace; |trace| <= n && (|trace| < n ==> client(trace).None?)
    ensures var trace := ReplayRun(client, events, cursor, n).trace; |trace| <= n && (|trace| < n ==> client(trace).None?)
  {
    hide Live, Recorded, Fits, Answered, Search, Key, IdsOf;
    if n > 0 {
      RunLengths(client, hardware, events, cursor, n - 1);
    }
  }

  /** If the runs agree after a step they agreed before it. */
  lemma {:induction false} AgreedBefore(client: Client, hardware: Hardware, events: seq<V.Event>, cursor: nat, m: nat)
    requires Obeys(hardware)
    requires ReplayRun(client, events, cursor, m + 1).trace == LiveRun(client, hardware, m + 1).trace
    ensures ReplayRun(client, events, cursor, m).trace == LiveRun(client, hardware, m).trace
  {
    hide Live, Recorded, Fits, Answered, Search, Key, IdsOf;
    RunLengths(client, hardware, events, cursor, m);
    LiveRunGrows(client, hardware, m, m + 1);
    ReplayRunGrows(client, events, cursor, m, m + 1);
  }

  lemma {:induction false} SameStep(client: Client, hardware: Hardware, events: seq<V.Event>, cursor: nat, m: nat)
    requires Obeys(hardware) && LiveRun(client, hardware, m + 1).log <= events && forall e :: e in events ==> Genuine(e)
    requires ReplayRun(client, events, cursor, m) ==
             Emulation(LiveRun(client, hardware, m).trace, CursorAfter(client, hardware, events, cursor, m))
    ensures ReplayRun(client, events, cursor, m + 1).trace == LiveRun(client, hardware, m + 1).trace <==>
            FindsItsOwn(client, hardware, events, cursor, m)
    ensures ReplayRun(client, events, cursor, m + 1).cursor == CursorAfter(client, hardware, events, cursor, m + 1)
  {
    hide Live, Recorded, Fits, Answered, Search, Key, IdsOf, Genuine, Replayable, SaysTheSame, Unanswered;
    var past := LiveRun(client, hardware, m).trace;
    if client(past).Some? {
      var req := client(past).value;
      var resp := hardware(past, req);
      var again := Answered(events, CursorAfter(client, hardware, events, cursor, m), req);
      OwnIsAnswer(client, hardware, events, cursor, m, req, resp);
      assert (past + [again])[|past|] == again;
      assert (past + [Live(req, resp)])[|past|] == Live(req, resp);
    }
  }

  /**
   * From any cursor, in any log of recorded events that begins with the session's own: a replay sees what was
   * seen live exactly when the session's ids, looked up in order, lead to events that say the same.
   */
  lemma {:induction false} ReplayIsLookup(
    client: Client, hardware: Hardware, events: seq<V.Event>, cursor: nat, n: nat)
    requires Obeys(hardware) && LiveRun(client, hardware, n).log <= events && forall e :: e in events ==> Genuine(e)
    ensures var same := ReplayRun(client, events, cursor, n).trace == LiveRun(client, hardware, n).trace;
            && (same <==> forall k :: 0 <= k < n ==> FindsItsOwn(client, hardware, events, cursor, k))
            && (same ==> ReplayRun(client, events, cursor, n).cursor == CursorAfter(client, hardware, events, cursor, n))
  {
    hide Live, Recorded, Fits, Answered, Search, Key, IdsOf, Genuine, FindsItsOwn;
    if n > 0 {
      var m := n - 1;
      var live, again := LiveRun(client, hardware, m), ReplayRun(client, events, cursor, m);
      LiveRunGrows(client, hardware, m, n);
      ReplayIsLookup(client, hardware, events, cursor, m);
      if again.trace == live.trace {
        SameStep(client, hardware, events, cursor, m);
      } else if ReplayRun(client, events, cursor, n).trace == LiveRun(client, hardware, n).trace {
        AgreedBefore(client, hardware, events, cursor, m);
      }
    }
  }

  // ---- a session whose steps are not all replayable and which is reproduced all the same ----

  function AsksTwice(past: seq<Outcome>): Option<Request> {
    if |past| < 2 then Some(GetConfigurationIndex) else None
  }

  /** The configuration cannot be read at first; then it has no string. */
  function ReadyLater(past: seq<Outcome>, req: Request): Response {
    if req.Transfer() then SubmitFailed(-1)
    else if req.GetConfigurationIndex? && past != [] then Config([], 0)
    else QueryFailed(-1)
  }

  lemma {:induction false} ReadyLaterObeys()
    ensures Obeys(ReadyLater)
  {
  }

  /** The event of a configuration answered with index 0. */
  ghost function ZeroEvent(): V.Event {
    V.Event(Some(Key(GetConfigurationIndex)), V.TRANSFER_COMPLETED, V.SUCCESS, Some([0]))
  }

  lemma {:induction false} BlurredLive()
    requires Obeys(ReadyLater)
    ensures var zero := Outcome(Index(0), []);
            && LiveRun(AsksTwice, ReadyLater, 0) == Session([], [])
            && LiveRun(AsksTwice, ReadyLater, 1) == Session([zero], [])
            && LiveRun(AsksTwice, ReadyLater, 2) == Session([zero, zero], [ZeroEvent()])
  {
    hide Key, Obeys;
    var zero := Outcome(Index(0), []);
    assert LiveRun(AsksTwice, ReadyLater, 1) == Session([zero], []);
  }

  lemma {:induction false} BlurredReplay()
    ensures ReplayRun(AsksTwice, [ZeroEvent()], 0, 2).trace == [Outcome(Index(0), []), Outcome(Index(0), [])]
  {
    hide Key, Search, Answered;
    var events, zero := [ZeroEvent()], Outcome(Index(0), []);
    FoundAtCursor(events, 0, 0, GetConfigurationIndex);
    FoundAtCursor(events, 1, 0, GetConfigurationIndex);
    assert ReplayRun(AsksTwice, events, 0, 1) == Emulation([zero], 1);
  }

  lemma {:induction false} BlurredSession()
    ensures Obeys(ReadyLater) && Blurred(AsksTwice, ReadyLater, 2)
    ensures var live := LiveRun(AsksTwice, ReadyLater, 2);
            && ReplayRun(AsksTwice, live.log, 0, 2).trace == live.trace
            && !ReplayableStep(AsksTwice, ReadyLater, live.log, 0)
  {
    ReadyLaterObeys();
    BlurredLive();
    BlurredReplay();
    hide Key, Obeys, LiveRun, ReplayRun;
    var events := [ZeroEvent()];
    assert UnansweredStep(AsksTwice, ReadyLater, 0);
    assert events[0] in events;
    assert IdsOf(events)[0] == Some(Key(GetConfigurationIndex));
  }
}
