/**
 * gusb-device.c: asynchronous transfers. A submission appends an event to the log at once; the
 * completion callback fills that event in later, in whatever order transfers finish.
 */
module InFlight {
  import opened Basics
  import opened EventKey
  import opened EventLog
  import opened Transfer
  import opened V = DeviceEvent

  /** A transfer is known by the position of its event. A query logs a finished event. */
  datatype Action =
    | Submit(req: Request, rc: Int32)
    | Query(event: Event)
    | Complete(t: nat, resp: Response)

  datatype State = State(log: seq<Event>, inFlight: set<nat>)

  const START := State([], {})

  /** The event as the submission leaves it. */
  function Submitted(req: Request, rc: Int32): Event {
    Event(Some(Key(req)), TRANSFER_COMPLETED, if rc < 0 then rc else SUCCESS, None)
  }

  /** The event as the completion callback leaves it. */
  function Filled(e: Event, resp: Response): Event
    requires resp.Completed? && resp.actual <= |resp.buffer|
  {
    if resp.status == TRANSFER_COMPLETED then e.(bytes := Some(resp.buffer[..resp.actual]))
    else e.(status := resp.status)
  }

  ghost predicate Enabled(s: State, a: Action) {
    match a
    case Submit(req, rc) => req.Transfer()
    case Query(_) => true
    case Complete(t, resp) => t in s.inFlight && t < |s.log| && resp.Completed? && resp.actual <= |resp.buffer|
  }

  ghost function Step(s: State, a: Action): State
    requires Enabled(s, a)
  {
    match a
    case Submit(req, rc) =>
      State(s.log + [Submitted(req, rc)], if rc < 0 then s.inFlight else s.inFlight + {|s.log|})
    case Query(event) => State(s.log + [event], s.inFlight)
    case Complete(t, resp) => State(s.log[t := Filled(s.log[t], resp)], s.inFlight - {t})
  }

  /** The state after a schedule; None if an action was not possible when its turn came. */
  ghost function Run(schedule: seq<Action>): Option<State> {
    if schedule == [] then Some(START)
    else
      var n := |schedule| - 1;
      match Run(schedule[..n])
      case None => None
      case Some(s) => if Enabled(s, schedule[n]) then Some(Step(s, schedule[n])) else None
  }

  /** The submissions and queries of a schedule, in order. */
  ghost function Appends(schedule: seq<Action>): seq<Action> {
    if schedule == [] then []
    else
      var n := |schedule| - 1;
      if schedule[n].Complete? then Appends(schedule[..n]) else Appends(schedule[..n]) + [schedule[n]]
  }

  /** The answer to transfer t, if its completion is in the schedule. */
  ghost function AnswerTo(schedule: seq<Action>, t: nat): Option<Response> {
    if schedule == [] then None
    else
      var n := |schedule| - 1;
      if schedule[n].Complete? && schedule[n].t == t then Some(schedule[n].resp)
      else AnswerTo(schedule[..n], t)
  }

  /** What event i holds, by the action that appended it and the answer to that action alone. */
  ghost function OwnEvent(a: Action, answer: Option<Response>): Event
    requires !a.Complete?
  {
    match a
    case Query(event) => event
    case Submit(req, rc) =>
      if answer.Some? && answer.value.Completed? && answer.value.actual <= |answer.value.buffer| then
        Filled(Submitted(req, rc), answer.value)
      else
        Submitted(req, rc)
  }

  /** Each event was appended by its own action and holds no other transfer's outcome. */
  ghost predicate Accounted(schedule: seq<Action>, s: State) {
    var appends := Appends(schedule);
    && |s.log| == |appends|
    && (forall i :: 0 <= i < |appends| ==> !appends[i].Complete?)
    && (forall i :: 0 <= i < |s.log| ==> s.log[i] == OwnEvent(appends[i], AnswerTo(schedule, i)))
    && (forall i :: 0 <= i < |s.log| ==>
          (i in s.inFlight <==> appends[i].Submit? && appends[i].rc >= 0 && AnswerTo(schedule, i).None?))
    && (forall i: nat :: AnswerTo(schedule, i).Some? ==>
          i < |s.log| && appends[i].Submit? && appends[i].rc >= 0 && AnswerTo(schedule, i).value.Completed? &&
          AnswerTo(schedule, i).value.actual <= |AnswerTo(schedule, i).value.buffer|)
    && (forall i :: i in s.inFlight ==> i < |s.log|)
  }

  lemma {:induction false} AccountedStep(schedule: seq<Action>, s: State, a: Action)
    requires Accounted(schedule, s) && Enabled(s, a)
    ensures Accounted(schedule + [a], Step(s, a))
  {
    hide Submitted, Filled;
    var longer, next := schedule + [a], Step(s, a);
    assert longer[..|schedule|] == schedule && longer[|schedule|] == a;
    var appends := Appends(schedule);
    forall i: nat
      ensures AnswerTo(longer, i) == if a.Complete? && a.t == i then Some(a.resp) else AnswerTo(schedule, i)
    {
    }
    hide AnswerTo;
    if a.Complete? {
      assert Appends(longer) == appends;
      assert AnswerTo(schedule, a.t).None?;
    } else {
      assert Appends(longer) == appends + [a];
      assert AnswerTo(schedule, |s.log|).None?;
    }
  }

  /** In every schedule the log is in submission order and each event holds its own outcome. */
  lemma {:induction false} OwnOutcomes(schedule: seq<Action>)
    requires Run(schedule).Some?
    ensures Accounted(schedule, Run(schedule).value)
  {
    hide Step, Enabled;
    if schedule == [] {
      hide OwnEvent;
    } else {
      var n := |schedule| - 1;
      OwnOutcomes(schedule[..n]);
      hide Accounted;
      AccountedStep(schedule[..n], Run(schedule[..n]).value, schedule[n]);
      assert schedule[..n] + [schedule[n]] == schedule;
    }
  }

  /** The action has its turn: what it completes was submitted, and has not been answered. */
  ghost predicate Possible(before: seq<Action>, a: Action) {
    match a
    case Submit(req, _) => req.Transfer()
    case Query(_) => true
    case Complete(t, resp) =>
      && t < |Appends(before)| && Appends(before)[t].Submit? && Appends(before)[t].rc >= 0 && AnswerTo(before, t).None?
      && resp.Completed? && resp.actual <= |resp.buffer|
  }

  ghost predicate AllPossible(schedule: seq<Action>) {
    forall n :: 0 <= n < |schedule| ==> Possible(schedule[..n], schedule[n])
  }

  lemma {:induction false} LastPossible(init: seq<Action>, last: Action)
    ensures AllPossible(init + [last]) <==> AllPossible(init) && Possible(init, last)
  {
    hide Possible;
    var schedule := init + [last];
    forall k | 0 <= k <= |init| ensures schedule[..k] == init[..k] {
    }
    assert init[..|init|] == init;
    if AllPossible(schedule) {
      assert Possible(schedule[..|init|], schedule[|init|]);
      forall k | 0 <= k < |init| ensures Possible(init[..k], init[k]) {
        assert Possible(schedule[..k], schedule[k]);
      }
    }
  }

  /** A schedule runs exactly when each action is possible in its turn. */
  lemma {:induction false} RunsWhen(schedule: seq<Action>)
    ensures Run(schedule).Some? <==> AllPossible(schedule)
    ensures schedule == [] ==> Run(schedule) == Some(State([], {}))
  {
    hide Possible, Enabled, Step, Accounted;
    if schedule != [] {
      var n := |schedule| - 1;
      var init := schedule[..n];
      RunsWhen(init);
      assert schedule == init + [schedule[n]];
      LastPossible(init, schedule[n]);
      hide AllPossible;
      if Run(init).Some? {
        OwnOutcomes(init);
        PossibleIsEnabled(init, Run(init).value, schedule[n]);
      }
    }
  }

  lemma {:induction false} PossibleIsEnabled(before: seq<Action>, s: State, a: Action)
    requires Accounted(before, s)
    ensures Possible(before, a) <==> Enabled(s, a)
  {
    hide Appends, AnswerTo, OwnEvent;
  }

  /** Once nothing is in flight every transfer that was submitted has its answer. */
  ghost predicate Finished(schedule: seq<Action>) {
    Run(schedule).Some? && Run(schedule).value.inFlight == {}
  }

  lemma {:induction false} AnswerIsInSchedule(schedule: seq<Action>, t: nat)
    ensures AnswerTo(schedule, t).Some? ==> Complete(t, AnswerTo(schedule, t).value) in schedule
  {
    if schedule != [] {
      AnswerIsInSchedule(schedule[..|schedule| - 1], t);
    }
  }

  lemma {:induction false} NotAnsweredYet(before: seq<Action>, last: Action)
    requires Run(before + [last]).Some?
    ensures Run(before).Some? && (last.Complete? ==> AnswerTo(before, last.t).None?)
  {
    assert (before + [last])[..|before|] == before;
    OwnOutcomes(before);
  }

  /** A transfer completes at most once. */
  lemma {:induction false} OnlyAnswer(schedule: seq<Action>, t: nat, resp: Response)
    requires Run(schedule).Some? && Complete(t, resp) in schedule
    ensures AnswerTo(schedule, t) == Some(resp)
  {
    hide Run;
    var n := |schedule| - 1;
    var before, last := schedule[..n], schedule[n];
    assert schedule == before + [last];
    NotAnsweredYet(before, last);
    if Complete(t, resp) in before {
      OnlyAnswer(before, t, resp);
    }
  }

  /**
   * Completion order does not matter: two schedules of the same submissions and the same
   * completions, in any order, end with the same log once all transfers have finished.
   */
  lemma {:induction false} CompletionOrderIrrelevant(a: seq<Action>, b: seq<Action>)
    requires Run(a).Some? && Run(b).Some?
    requires Appends(a) == Appends(b) && multiset(a) == multiset(b)
    ensures Run(a).value == Run(b).value
  {
    var s, t := Run(a).value, Run(b).value;
    OwnOutcomes(a);
    OwnOutcomes(b);
    forall i: nat ensures AnswerTo(a, i) == AnswerTo(b, i) {
      AnswerIsInSchedule(a, i);
      AnswerIsInSchedule(b, i);
      if AnswerTo(a, i).Some? {
        var c := Complete(i, AnswerTo(a, i).value);
        assert c in multiset(a);
        assert c in multiset(b);
        OnlyAnswer(b, i, c.resp);
      } else if AnswerTo(b, i).Some? {
        var c := Complete(i, AnswerTo(b, i).value);
        assert c in multiset(b);
        assert c in multiset(a);
        OnlyAnswer(a, i, c.resp);
      }
    }
    hide Run, Appends, AnswerTo, OwnEvent;
    assert s.log == t.log;
    assert s.inFlight == t.inFlight;
  }

  /** The response a transfer got, seen as one call that waits for it. */
  ghost function ResponseOf(a: Action, answer: Option<Response>): Option<Response>
    requires a.Submit?
  {
    if a.rc < 0 then Some(SubmitFailed(a.rc)) else answer
  }

  /**
   * Once all have finished, the log is the one that the same transfers would have left had each
   * been waited for before the next was submitted.
   */
  lemma {:induction false} SameAsWaiting(schedule: seq<Action>, i: nat)
    requires Finished(schedule) && i < |Appends(schedule)| && Appends(schedule)[i].Submit?
    ensures i < |Run(schedule).value.log|
    ensures var a := Appends(schedule)[i];
            var resp := ResponseOf(a, AnswerTo(schedule, i));
            resp.Some? && (a.rc >= 0 ==> resp == AnswerTo(schedule, i)) &&
            (Fits(a.req, resp.value) ==> Recorded(a.req, resp.value) == Some(Run(schedule).value.log[i]))
  {
    OwnOutcomes(schedule);
    hide Run, Appends, AnswerTo, Key;
  }

  /** The ids of a log, to be asked for in order. */
  function KeysOf(log: seq<Event>): (keys: seq<string>)
    requires forall k :: 0 <= k < |log| ==> log[k].id.Some?
    ensures |keys| == |log| && forall k :: 0 <= k < |log| ==> log[k].id == Some(keys[k])
  {
    seq(|log|, k requires 0 <= k < |log| && log[k].id.Some? => log[k].id.value)
  }

  /**
   * Transfers that overlapped, asked for again in the order of their submission: each request leads to its own
   * event, whatever the order of completions was, and has its own live outcome exactly when its response is
   * replayable.
   */
  lemma {:induction false} OverlapReplays(schedule: seq<Action>, i: nat)
    requires Finished(schedule) && forall e :: e in Run(schedule).value.log ==> e.id.Some?
    requires i < |Appends(schedule)| && Appends(schedule)[i].Submit?
    requires var a := Appends(schedule)[i];
             var resp := ResponseOf(a, AnswerTo(schedule, i));
             resp.Some? ==> Fits(a.req, resp.value)
    ensures var a, log := Appends(schedule)[i], Run(schedule).value.log;
            var resp := ResponseOf(a, AnswerTo(schedule, i));
            && resp.Some? && i < |log| && log[i].id == Some(Key(a.req))
            && Asks(IdsOf(log), 0, KeysOf(log))[i] == Some(i)
            && (Replayed(a.req, Some(log[i])) == Live(a.req, resp.value) <==> Replayable(a.req, resp.value))
  {
    SameAsWaiting(schedule, i);
    hide Run, Appends, AnswerTo, Asks, Recorded, Replayed, Replayable, Live, Fits, ResponseOf, Finished, Key;
    var log := Run(schedule).value.log;
    var a := Appends(schedule)[i];
    UnrecordedIsNotReplayable(a.req, ResponseOf(a, AnswerTo(schedule, i)).value);
    StepReplays(a.req, ResponseOf(a, AnswerTo(schedule, i)).value);
    OneRound(IdsOf(log), KeysOf(log), 0);
    assert KeysOf(log)[0..] == KeysOf(log);
  }
}
