/** gusb-context.c: hotplug events on their way from the libusb thread to the main loop. */
module Hotplug {
  import opened Basics
  import opened Registry
  import opened SignalLog
  import Polling

  type Event = Polling.Event

  datatype Thread = LibusbThread | MainThread

  /** Where g_usb_context_hotplug_cb is. */
  datatype Callback = Outside | Entered(event: Event) | Appended | SourceAdded | Leaving

  /** Where g_usb_context_idle_hotplug_cb is; batch is what it has still to run. */
  datatype Drainer =
    | Idle
    | Called
    | Holding
    | Copied(batch: seq<Event>)
    | Emptied(batch: seq<Event>)
    | ResetId(batch: seq<Event>)
    | Running(batch: seq<Event>)

  /** sources counts the idle sources attached to the main loop and not dispatched yet. */
  datatype State = State(
    lock: Option<Thread>, queue: seq<Event>, idleEventsId: bool, sources: nat,
    callback: Callback, drainer: Drainer, registry: Registry,
    accepted: seq<Event>, handled: seq<Event>, history: seq<Step>)

  datatype Move =
    | LibusbCalls(event: Event)
    | LibusbChecks
    | LibusbAddsSource
    | LibusbSetsId
    | LibusbUnlocks
    | MainDispatches
    | MainLocks
    | MainCopies
    | MainEmpties
    | MainResetsId
    | MainUnlocks
    | MainHandles
    | MainReturns
    | MainDoes(step: Step)

  predicate Libusb(m: Move) {
    m.LibusbCalls? || m.LibusbChecks? || m.LibusbAddsSource? || m.LibusbSetsId? || m.LibusbUnlocks?
  }

  function Start(saving: bool): State {
    State(None, [], false, 0, Outside, Idle, Init(saving), [], [], [])
  }

  predicate Enabled(s: State, m: Move) {
    match m
    case LibusbCalls(_) => s.callback.Outside? && s.lock.None?
    case LibusbChecks => s.callback.Entered?
    case LibusbAddsSource => s.callback.Appended?
    case LibusbSetsId => s.callback.SourceAdded?
    case LibusbUnlocks => s.callback.Leaving?
    case MainDispatches => s.drainer.Idle? && s.sources > 0
    case MainLocks => s.drainer.Called? && s.lock.None?
    case MainCopies => s.drainer.Holding?
    case MainEmpties => s.drainer.Copied?
    case MainResetsId => s.drainer.Emptied?
    case MainUnlocks => s.drainer.ResetId?
    case MainHandles => s.drainer.Running? && s.drainer.batch != []
    case MainReturns => s.drainer.Running? && s.drainer.batch == []
    case MainDoes(step) => s.drainer.Idle? && !step.Arrived? && !step.Left?
  }

  function AsStep(event: Event): Step {
    match event case Arrives(hw) => Arrived(hw) case Leaves(hw) => Left(hw)
  }

  function LibusbMoves(s: State, m: Move): State
    requires Enabled(s, m) && Libusb(m)
  {
    match m
    case LibusbCalls(event) => s.(lock := Some(LibusbThread), callback := Entered(event))
    case LibusbChecks =>
      if s.registry.done then
        s.(queue := s.queue + [s.callback.event], accepted := s.accepted + [s.callback.event], callback := Appended)
      else s.(callback := Leaving)
    case LibusbAddsSource =>
      if s.idleEventsId then s.(callback := Leaving) else s.(sources := s.sources + 1, callback := SourceAdded)
    case LibusbSetsId => s.(idleEventsId := true, callback := Leaving)
    case LibusbUnlocks => s.(lock := None, callback := Outside)
  }

  function MainMoves(s: State, m: Move): State
    requires Enabled(s, m) && !Libusb(m)
  {
    match m
    case MainDispatches => s.(sources := s.sources - 1, drainer := Called)
    case MainLocks => s.(lock := Some(MainThread), drainer := Holding)
    case MainCopies => s.(drainer := Copied(s.queue))
    case MainEmpties => s.(queue := [], drainer := Emptied(s.drainer.batch))
    case MainResetsId => s.(idleEventsId := false, drainer := ResetId(s.drainer.batch))
    case MainUnlocks => s.(lock := None, drainer := Running(s.drainer.batch))
    case MainHandles =>
      var event := s.drainer.batch[0];
      s.(registry := Polling.Handle(s.registry, event), drainer := Running(s.drainer.batch[1..]),
         handled := s.handled + [event], history := s.history + [AsStep(event)])
    case MainReturns => s.(drainer := Idle)
    case MainDoes(step) => s.(registry := Apply(s.registry, step), history := s.history + [step])
  }

  function Do(s: State, m: Move): State
    requires Enabled(s, m)
  {
    if Libusb(m) then LibusbMoves(s, m)
    else MainMoves(s, m)
  }

  // ---- what every interleaving keeps ----

  /** The batch taken from the queue and not run yet; a copied batch is still in the queue too. */
  function InFlight(d: Drainer): seq<Event> {
    if d.Emptied? || d.ResetId? || d.Running? then d.batch else []
  }

  /** The mutex has one owner. */
  predicate Locking(s: State) {
    && (s.lock == Some(LibusbThread) <==> !s.callback.Outside?)
    && (s.lock == Some(MainThread) <==>
        s.drainer.Holding? || s.drainer.Copied? || s.drainer.Emptied? || s.drainer.ResetId?)
  }

  /** The idle sources that will still empty the queue: attached, or dispatched and not past the reset of the id. */
  function Wakeups(s: State): nat {
    s.sources + if s.drainer.Called? || s.drainer.Holding? || s.drainer.Copied? || s.drainer.Emptied? then 1 else 0
  }

  predicate Waking(s: State) {
    && Wakeups(s) == (if s.idleEventsId || s.callback.SourceAdded? then 1 else 0)
    && (s.callback.SourceAdded? ==> !s.idleEventsId)
    && (s.drainer.Copied? ==> s.drainer.batch == s.queue)
    && (s.drainer.Emptied? || s.drainer.ResetId? ==> s.queue == [])
    && (s.callback.Appended? || s.callback.SourceAdded? ==> s.queue != [])
    && (!s.callback.Appended? && !s.callback.SourceAdded? && !s.drainer.Emptied? ==>
          (s.queue != [] <==> s.idleEventsId))
  }

  /** Nothing lost, doubled or put out of order. */
  ghost predicate Conserved(s: State) {
    && s.handled + InFlight(s.drainer) + s.queue == s.accepted
    && (!s.registry.done ==> s.accepted == [])
  }

  ghost predicate Inv(s: State) {
    Locking(s) && Waking(s) && Conserved(s)
  }

  lemma {:induction false} LibusbKeepsInv(s: State, m: Move)
    requires Inv(s) && Enabled(s, m)
    requires Libusb(m)
    ensures Inv(Do(s, m))
  {
  }

  // ---- the main loop's moves ----

  lemma {:induction false} HandledInOrder(s: State)
    requires Inv(s) && Enabled(s, MainHandles)
    ensures Inv(Do(s, MainHandles)) && s.registry.done
    ensures Polling.Handle(s.registry, s.drainer.batch[0]) == Apply(s.registry, AsStep(s.drainer.batch[0]))
  {
    var b := s.drainer.batch;
    assert s.handled + b + s.queue == (s.handled + [b[0]]) + b[1..] + s.queue;
    assert s.accepted != [];
    DoneStays(s.registry, AsStep(b[0]));
  }

  lemma {:induction false} MainKeepsInv(s: State, m: Move)
    requires Inv(s) && Enabled(s, m)
    requires !Libusb(m) && !m.MainHandles? && !m.MainDoes?
    ensures Inv(Do(s, m))
  {
  }

  lemma {:induction false} MainDoesKeepsInv(s: State, m: Move)
    requires Inv(s) && Enabled(s, m) && m.MainDoes?
    ensures Inv(Do(s, m))
  {
    DoneStays(s.registry, m.step);
  }

  lemma {:induction false} MoveKeepsInv(s: State, m: Move)
    requires Inv(s) && Enabled(s, m)
    ensures Inv(Do(s, m))
  {
    hide Inv, Do, Enabled;
    if m.MainHandles? {
      HandledInOrder(s);
    } else if m.MainDoes? {
      MainDoesKeepsInv(s, m);
    } else if Libusb(m) {
      LibusbKeepsInv(s, m);
    } else {
      MainKeepsInv(s, m);
    }
  }

  // ---- every interleaving ----

  ghost predicate Runs(s: State, moves: seq<Move>, s': State)
    decreases moves
  {
    if moves == [] then s' == s else Enabled(s, moves[0]) && Runs(Do(s, moves[0]), moves[1..], s')
  }

  /** The hotplug events among the steps of the main thread. */
  function Hotplugs(history: seq<Step>): seq<Event> {
    if history == [] then []
    else
      var n := |history| - 1;
      Hotplugs(history[..n]) +
      match history[n]
      case Arrived(hw) => [Polling.Arrives(hw)]
      case Left(hw) => [Polling.Leaves(hw)]
      case _ => []
  }

  /** The registry is where the steps of the main thread, one after another, lead. */
  ghost predicate Sequential(s: State, saving: bool) {
    s.registry == Run(Init(saving), s.history) && s.handled == Hotplugs(s.history)
  }

  lemma {:induction false} RunOneMore(r: Registry, steps: seq<Step>, step: Step)
    ensures Run(r, steps + [step]) == Apply(Run(r, steps), step)
    decreases steps
  {
    hide Apply;
    if steps == [] {
      assert ([] + [step])[1..] == [];
    } else {
      assert (steps + [step])[1..] == steps[1..] + [step];
      RunOneMore(Apply(r, steps[0]), steps[1..], step);
    }
  }

  lemma {:induction false} HotplugsOneMore(history: seq<Step>, step: Step)
    ensures Hotplugs(history + [step]) == Hotplugs(history) +
            match step
            case Arrived(hw) => [Polling.Arrives(hw)]
            case Left(hw) => [Polling.Leaves(hw)]
            case _ => []
  {
    assert (history + [step])[..|history|] == history;
  }

  lemma {:induction false} MoveIsSequential(s: State, m: Move, saving: bool)
    requires Inv(s) && Enabled(s, m) && Sequential(s, saving)
    ensures Sequential(Do(s, m), saving)
  {
    hide Inv, Run, Apply, Hotplugs;
    if m.MainHandles? {
      hide Polling.Handle;
      HandledInOrder(s);
      RunOneMore(Init(saving), s.history, AsStep(s.drainer.batch[0]));
      HotplugsOneMore(s.history, AsStep(s.drainer.batch[0]));
    } else if m.MainDoes? {
      RunOneMore(Init(saving), s.history, m.step);
      HotplugsOneMore(s.history, m.step);
    }
  }

  lemma {:induction false} RunsKeep(s: State, moves: seq<Move>, s': State, saving: bool)
    requires Inv(s) && Sequential(s, saving) && Runs(s, moves, s')
    ensures Inv(s') && Sequential(s', saving)
    decreases moves
  {
    hide Inv, Sequential, Do, Enabled;
    if moves != [] {
      MoveKeepsInv(s, moves[0]);
      MoveIsSequential(s, moves[0], saving);
      RunsKeep(Do(s, moves[0]), moves[1..], s', saving);
    }
  }

  /**
   * Of the accepted events some are handled, then come those of the batch, then those of the queue. With
   * the mutex free the queue is empty exactly when no idle source is on its way, and there is never a second.
   */
  lemma {:induction false} NoEventLost(saving: bool, moves: seq<Move>, s: State)
    requires Runs(Start(saving), moves, s)
    ensures s.handled + InFlight(s.drainer) + s.queue == s.accepted
    ensures s.lock.None? ==> Wakeups(s) == if s.queue == [] then 0 else 1
    ensures s.lock.None? ==> (s.idleEventsId <==> s.queue != [])
  {
    RunsKeep(Start(saving), moves, s, saving);
  }

  /** Two threads end where one thread would, so the signals explain the list in every interleaving. */
  lemma {:induction false} ThreadsActAsOne(saving: bool, moves: seq<Move>, s: State)
    requires Runs(Start(saving), moves, s)
    ensures s.registry == Run(Init(saving), s.history) && s.handled == Hotplugs(s.history)
    ensures Legal(s.registry.log) && Present(s.registry.log) == Serials(s.registry.devices)
  {
    RunsKeep(Start(saving), moves, s, saving);
    hide Legal, Present, Run;
    LogExplainsList(saving, s.history);
  }

  // ---- nothing waits for ever ----

  /** How many moves the main loop needs to run every accepted event. */
  function Work(s: State): nat {
    var next := if s.queue == [] then 0 else |s.queue| + 7;
    match s.drainer
    case Idle => next
    case Called => |s.queue| + 6
    case Holding => |s.queue| + 5
    case Copied(_) => |s.queue| + 4
    case Emptied(batch) => |batch| + 3
    case ResetId(batch) => |batch| + 2
    case Running(batch) => |batch| + 1 + next
  }

  function NextMove(s: State): Move {
    match s.drainer
    case Idle => MainDispatches
    case Called => MainLocks
    case Holding => MainCopies
    case Copied(_) => MainEmpties
    case Emptied(_) => MainResetsId
    case ResetId(_) => MainUnlocks
    case Running(batch) => if batch == [] then MainReturns else MainHandles
  }

  lemma {:induction false} MainAdvances(s: State)
    requires Inv(s) && s.callback.Outside? && Work(s) > 0
    ensures Enabled(s, NextMove(s)) && !Libusb(NextMove(s)) && !NextMove(s).MainDoes?
    ensures var s' := Do(s, NextMove(s));
            Work(s') == Work(s) - 1 && s'.callback.Outside? && s'.accepted == s.accepted
  {
    hide Polling.Handle;
    match s.lock
    case Some(MainThread) =>
    case Some(LibusbThread) =>
    case None =>
  }

  /** Left alone, the main loop runs every accepted event, with the idle sources already attached. */
  lemma {:induction false} MainDrains(s: State) returns (moves: seq<Move>, s': State)
    requires Inv(s) && s.callback.Outside?
    ensures Runs(s, moves, s') && |moves| == Work(s)
    ensures forall i :: 0 <= i < |moves| ==> !Libusb(moves[i]) && !moves[i].MainDoes?
    ensures s'.handled == s.accepted && s'.queue == [] && s'.drainer.Idle?
    decreases Work(s)
  {
    if Work(s) == 0 {
      moves, s' := [], s;
    } else {
      MainAdvances(s);
      var m := NextMove(s);
      MoveKeepsInv(s, m);
      hide Inv, Do, Enabled, Work, NextMove;
      var rest;
      rest, s' := MainDrains(Do(s, m));
      moves := [m] + rest;
      assert moves[1..] == rest;
    }
  }

  function StepsLeft(c: Callback): nat {
    match c case Entered(_) => 4 case Appended => 3 case SourceAdded => 2 case Leaving => 1 case Outside => 0
  }

  /** The libusb thread, once it has the mutex, gets through on its own. */
  lemma {:induction false} CallbackReturns(s: State) returns (moves: seq<Move>, s': State)
    requires Inv(s) && !s.callback.Outside?
    ensures |moves| <= StepsLeft(s.callback) <= 4 && Runs(s, moves, s') && s'.callback.Outside? && s'.lock.None?
    decreases StepsLeft(s.callback)
  {
    var m := match s.callback
             case Entered(_) => LibusbChecks
             case Appended => LibusbAddsSource
             case SourceAdded => LibusbSetsId
             case _ => LibusbUnlocks;
    LibusbKeepsInv(s, m);
    var s1 := Do(s, m);
    if s1.callback.Outside? {
      moves, s' := [m], s1;
      assert moves[1..] == [];
    } else {
      hide Inv;
      var rest;
      rest, s' := CallbackReturns(s1);
      moves := [m] + rest;
      assert moves[1..] == rest;
    }
  }

  // ---- what is accepted, told by the moves alone ----

  /** The events of the callbacks that looked after the first enumeration or load, in order. */
  function Heard(moves: seq<Move>, done: bool, calling: Option<Event>): seq<Event> {
    if moves == [] then []
    else match moves[0]
      case LibusbCalls(event) => Heard(moves[1..], done, Some(event))
      case LibusbChecks => (if done && calling.Some? then [calling.value] else []) + Heard(moves[1..], done, None)
      case MainDoes(step) => Heard(moves[1..], done || step.Enumerated? || step.Loaded?, calling)
      case _ => Heard(moves[1..], done, calling)
  }

  function Calling(c: Callback): Option<Event> {
    match c case Entered(event) => Some(event) case _ => None
  }

  lemma {:induction false} OneHeard(s: State, moves: seq<Move>)
    requires Inv(s) && moves != [] && Enabled(s, moves[0])
    ensures var s1 := Do(s, moves[0]);
            s.accepted + Heard(moves, s.registry.done, Calling(s.callback)) ==
            s1.accepted + Heard(moves[1..], s1.registry.done, Calling(s1.callback))
  {
    var m := moves[0];
    if Libusb(m) {
      hide Inv;
    } else {
      MainHearsNothing(s, m);
      hide Inv, Do, Enabled;
    }
  }

  lemma {:induction false} MainHearsNothing(s: State, m: Move)
    requires Inv(s) && Enabled(s, m) && !Libusb(m)
    ensures Do(s, m).accepted == s.accepted && Do(s, m).callback == s.callback
    ensures var enumerates := m.MainDoes? && (m.step.Enumerated? || m.step.Loaded?);
            Do(s, m).registry.done == (s.registry.done || enumerates)
  {
    if m.MainDoes? {
      DoneStays(s.registry, m.step);
      DoneOnlySo(s.registry, m.step);
    } else if m.MainHandles? {
      HandledInOrder(s);
      DoneStays(s.registry, AsStep(s.drainer.batch[0]));
    }
    hide Inv, Apply;
  }

  /** Nothing but an enumeration or a load completes the first enumeration. */
  lemma {:induction false} DoneOnlySo(r: Registry, step: Step)
    ensures !r.done && !step.Enumerated? && !step.Loaded? ==> !Apply(r, step).done
  {
  }

  lemma {:induction false} RunsHear(s: State, moves: seq<Move>, s': State)
    requires Inv(s) && Runs(s, moves, s')
    ensures s'.accepted == s.accepted + Heard(moves, s.registry.done, Calling(s.callback))
    decreases moves
  {
    hide Inv, Do, Enabled;
    if moves != [] {
      MoveKeepsInv(s, moves[0]);
      OneHeard(s, moves);
      hide Heard;
      RunsHear(Do(s, moves[0]), moves[1..], s');
    }
  }

  /** Every event that libusb reports once enumeration is done is accepted, in order, and no other. */
  lemma {:induction false} AllHeardIsAccepted(saving: bool, moves: seq<Move>, s: State)
    requires Runs(Start(saving), moves, s)
    ensures s.accepted == Heard(moves, false, None)
  {
    RunsHear(Start(saving), moves, s);
  }
}
