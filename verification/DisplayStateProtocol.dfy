/**
 * Setting the display state with a one-shot callback: the client's half (DisplayManager::Impl::SetDisplayState and
 * NotifyDisplayStateChanged) and the server's half (DisplayPowerController::SetDisplayState).
 *
 * Calls come from any threads of one client. A call first takes the callback slot under the client's lock, then
 * asks the server without it, and clears the slot again if that fails. A notification of the server is a message
 * that is delivered at any later time: it invokes the callback, and clears the slot in a second locked section.
 */
module DisplayStateProtocol {
  import opened DmTypes

  datatype DisplayState = Unknown | Off | On | Doze | DozeSuspend | Vr | OnSuspend

  /** A call number is its position in `calls`. */
  type CallId = nat
  type AgentId = nat

  datatype Phase = Sending | Failing | Returned(ok: bool)
  datatype Call = Call(state: DisplayState, phase: Phase)
  datatype Invocation = Invocation(call: CallId, state: DisplayState)

  datatype System = System(
    callback: Option<CallId>,      // the call whose callback is stored
    agent: Option<AgentId>,        // the client's current agent
    nextAgent: AgentId,
    clearing: nat,                 // deliveries between invoking the callback and clearing the slot
    agents: set<AgentId>,          // the agents that the server knows
    power: DisplayState,           // the server's display state
    queue: seq<DisplayState>,      // notifications not delivered yet
    calls: seq<Call>,
    log: seq<Invocation>
  )

  const Init := System(None, None, 0, 0, {}, Unknown, [], [], [])

  datatype Event =
    | Request(state: DisplayState, hasCallback: bool, registers: bool)
    | Serve(call: CallId, reached: bool)
    | Abort(call: CallId, unregisters: bool)
    | Deliver(index: nat)
    | Finish(unregisters: bool)

  /** ClearDisplayStateCallback; the server forgets the agent unless the unregistration fails. */
  function Clear(s: System, unregisters: bool): System {
    s.(callback := None, agent := None,
       agents := if s.agent.Some? && unregisters then s.agents - {s.agent.value} else s.agents)
  }

  predicate Accepts(s: System, hasCallback: bool) {
    s.callback.None? && hasCallback
  }

  function RequestStep(s: System, state: DisplayState, hasCallback: bool, registers: bool): System {
    var id := |s.calls|;
    if !Accepts(s, hasCallback) then s.(calls := s.calls + [Call(state, Returned(false))])
    else if s.agent.Some? then s.(callback := Some(id), calls := s.calls + [Call(state, Sending)])
    else
      s.(callback := Some(id), agent := Some(s.nextAgent), nextAgent := s.nextAgent + 1,
         agents := if registers then s.agents + {s.nextAgent} else s.agents,
         calls := s.calls + [Call(state, if registers then Sending else Failing)])
  }

  /** The server takes only a new state, and only on or off. */
  predicate ServerTakes(s: System, state: DisplayState) {
    s.power != state && (state == On || state == Off)
  }

  function ServeStep(s: System, id: CallId, reached: bool): System {
    if id >= |s.calls| || !s.calls[id].phase.Sending? then s
    else
      var state := s.calls[id].state;
      if !reached || !ServerTakes(s, state) then s.(calls := s.calls[id := Call(state, Failing)])
      else
        s.(power := state, queue := s.queue + seq(|s.agents|, _ => state),
           calls := s.calls[id := Call(state, Returned(true))])
  }

  function AbortStep(s: System, id: CallId, unregisters: bool): System {
    if id >= |s.calls| || !s.calls[id].phase.Failing? then s
    else Clear(s, unregisters).(calls := s.calls[id := Call(s.calls[id].state, Returned(false))])
  }

  function DeliverStep(s: System, index: nat): System {
    if index >= |s.queue| then s
    else
      var rest := s.(queue := s.queue[..index] + s.queue[index + 1..]);
      if s.callback.None? then rest
      else rest.(clearing := s.clearing + 1, log := s.log + [Invocation(s.callback.value, s.queue[index])])
  }

  function FinishStep(s: System, unregisters: bool): System {
    if s.clearing == 0 then s else Clear(s, unregisters).(clearing := s.clearing - 1)
  }

  function Step(s: System, e: Event): System {
    match e
    case Request(state, hasCallback, registers) => RequestStep(s, state, hasCallback, registers)
    case Serve(id, reached) => ServeStep(s, id, reached)
    case Abort(id, unregisters) => AbortStep(s, id, unregisters)
    case Deliver(index) => DeliverStep(s, index)
    case Finish(unregisters) => FinishStep(s, unregisters)
  }

  function Run(s: System, events: seq<Event>): System {
    if events == [] then s else Step(Run(s, events[..|events| - 1]), events[|events| - 1])
  }

  // ---------------------------------------------------------------- the promise

  function Count(log: seq<Invocation>, id: CallId): nat {
    if log == [] then 0 else Count(log[..|log| - 1], id) + (if log[|log| - 1].call == id then 1 else 0)
  }

  /** Every callback invocation carries the state that its call asked for. */
  predicate RightStates(s: System) {
    forall i :: 0 <= i < |s.log| ==>
      s.log[i].call < |s.calls| && s.log[i].state == s.calls[s.log[i].call].state
  }

  /** A call that returned false, or has not been served, has invoked nothing. A call that returned true has invoked its
      callback exactly once, or not yet while its callback is stored and its message, the only one, is waiting. */
  predicate RightCounts(s: System) {
    && |s.queue| <= 1
    && forall id :: 0 <= id < |s.calls| ==> Count(s.log, id) == RightCount(s, id)
  }

  function RightCount(s: System, id: CallId): nat
    requires id < |s.calls|
  {
    if s.calls[id].phase != Returned(true) || (s.callback == Some(id) && s.queue == [s.calls[id].state]) then 0 else 1
  }

  /** A step after which the server still knows an agent that the client has given up. */
  predicate Loses(s: System, e: Event) {
    && s.agent.Some? && s.agent.value in s.agents
    && match e
       case Abort(id, unregisters) => !unregisters && id < |s.calls| && s.calls[id].phase.Failing?
       case Finish(unregisters) => !unregisters && s.clearing > 0
       case _ => false
  }

  predicate LosesNothing(s: System, events: seq<Event>) {
    forall i :: 0 <= i < |events| ==> !Loses(Run(s, events[..i]), events[i])
  }

  // ---------------------------------------------------------------- invariant

  /** What is settled about the calls other than `current`. */
  predicate Settled(s: System, id: CallId)
    requires id < |s.calls|
  {
    match s.calls[id].phase
    case Returned(ok) => Count(s.log, id) == if ok then 1 else 0
    case _ => false
  }

  predicate Current(s: System, id: CallId, agent: AgentId) {
    && id < |s.calls|
    && s.agents <= {agent}
    && match s.calls[id].phase
       case Sending => s.agents == {agent} && s.queue == [] && s.clearing == 0 && Count(s.log, id) == 0
       case Failing => s.queue == [] && s.clearing == 0 && Count(s.log, id) == 0
       case Returned(ok) =>
         && ok && s.agents == {agent}
         && if s.clearing == 0 then s.queue == [s.calls[id].state] && Count(s.log, id) == 0
            else s.queue == [] && s.clearing == 1 && Count(s.log, id) == 1
  }

  predicate Inv(s: System) {
    && RightStates(s)
    && (forall id :: 0 <= id < |s.calls| && s.callback != Some(id) ==> Settled(s, id))
    && match s.callback
       case None => s.agent.None? && s.agents == {} && s.queue == [] && s.clearing == 0
       case Some(id) => s.agent.Some? && Current(s, id, s.agent.value)
  }

  lemma InvMeansPromise(s: System)
    requires Inv(s)
    ensures RightStates(s) && RightCounts(s)
  {
    forall id | 0 <= id < |s.calls| ensures Count(s.log, id) == RightCount(s, id) {
      assert s.callback != Some(id) ==> Settled(s, id);
    }
  }

  lemma {:induction false} CountOfUnknown(log: seq<Invocation>, id: CallId)
    requires forall i :: 0 <= i < |log| ==> log[i].call < id
    ensures Count(log, id) == 0
  {
    if log != [] {
      CountOfUnknown(log[..|log| - 1], id);
    }
  }

  lemma RequestKeepsInv(s: System, state: DisplayState, hasCallback: bool, registers: bool)
    requires Inv(s)
    ensures Inv(RequestStep(s, state, hasCallback, registers))
  {
    hide Count;
    var s' := RequestStep(s, state, hasCallback, registers);
    CountOfUnknown(s.log, |s.calls|);
    forall id | 0 <= id < |s'.calls| && s'.callback != Some(id) ensures Settled(s', id) {
      assert id < |s.calls| ==> s'.calls[id] == s.calls[id] && (s.callback != Some(id) ==> Settled(s, id));
    }
  }

  lemma CallStepKeepsInv(s: System, e: Event)
    requires Inv(s) && !Loses(s, e) && (e.Serve? || e.Abort?)
    ensures Inv(Step(s, e))
  {
    hide Count;
    var s' := Step(s, e);
    if e.call < |s.calls| && s.callback != Some(e.call) {
      assert Settled(s, e.call);
    }
    forall id | 0 <= id < |s'.calls| && s'.callback != Some(id) ensures Settled(s', id) {
      assert s.callback != Some(id) ==> Settled(s, id);
    }
    if e.Serve? && e.call < |s.calls| {
      assert seq(1, _ => s.calls[e.call].state) == [s.calls[e.call].state];
    }
  }

  lemma DeliveryKeepsInv(s: System, e: Event)
    requires Inv(s) && !Loses(s, e) && (e.Deliver? || e.Finish?)
    ensures Inv(Step(s, e))
  {
    var s' := Step(s, e);
    assert s'.log != s.log ==> s'.log[..|s'.log| - 1] == s.log;
    forall id | 0 <= id < |s'.calls| && s'.callback != Some(id) ensures Settled(s', id) {
      assert s.callback != Some(id) ==> Settled(s, id);
    }
  }

  lemma StepKeepsInv(s: System, e: Event)
    requires Inv(s) && !Loses(s, e)
    ensures Inv(Step(s, e))
  {
    match e
    case Request(state, hasCallback, registers) => RequestKeepsInv(s, state, hasCallback, registers);
    case Serve(_, _) => CallStepKeepsInv(s, e);
    case Abort(_, _) => CallStepKeepsInv(s, e);
    case Deliver(_) => DeliveryKeepsInv(s, e);
    case Finish(_) => DeliveryKeepsInv(s, e);
  }

  lemma {:induction false} RunKeepsInv(s: System, events: seq<Event>)
    requires Inv(s) && LosesNothing(s, events)
    ensures Inv(Run(s, events))
  {
    if events != [] {
      var n := |events| - 1;
      forall i | 0 <= i < n ensures !Loses(Run(s, events[..n][..i]), events[..n][i]) {
        assert events[..n][..i] == events[..i];
      }
      RunKeepsInv(s, events[..n]);
      assert !Loses(Run(s, events[..n]), events[n]);
      StepKeepsInv(Run(s, events[..n]), events[n]);
    }
  }

  /** In every interleaving without a lost unregistration the promise holds. */
  lemma {:induction false} CallbacksKeepThePromise(events: seq<Event>)
    requires LosesNothing(Init, events)
    ensures RightStates(Run(Init, events)) && RightCounts(Run(Init, events))
  {
    RunKeepsInv(Init, events);
    InvMeansPromise(Run(Init, events));
  }

  /** A call that is turned away while another is pending leaves that one as it is. */
  lemma RejectedCallDisturbsNothing(s: System, state: DisplayState, hasCallback: bool, registers: bool)
    requires !Accepts(s, hasCallback)
    ensures var s' := RequestStep(s, state, hasCallback, registers);
            && s' == s.(calls := s'.calls)
            && s'.calls[..|s.calls|] == s.calls && s'.calls[|s.calls|].phase == Returned(false)
  {}

  // ---------------------------------------------------------------- what becomes of a call

  /** The states asked for, call by call. */
  function Asked(events: seq<Event>): seq<DisplayState> {
    if events == [] then []
    else
      var before := Asked(events[..|events| - 1]);
      match events[|events| - 1]
      case Request(state, _, _) => before + [state]
      case _ => before
  }

  /** The last event makes a waiting call of its number return true. */
  predicate Succeeds(events: seq<Event>, id: CallId) {
    && events != [] && events[|events| - 1].Serve? && events[|events| - 1].call == id
    && var before, after := Run(Init, events[..|events| - 1]).calls, Run(Init, events).calls;
       && id < |before| && before[id].phase.Sending?
       && id < |after| && after[id].phase == Returned(true)
  }

  /** The state of the call that was served with success last. */
  function LastServed(events: seq<Event>): DisplayState {
    if events == [] then Unknown
    else
      var e := events[|events| - 1];
      if e.Serve? && e.call < |Asked(events)| && Succeeds(events, e.call) then Asked(events)[e.call]
      else LastServed(events[..|events| - 1])
  }

  lemma {:induction false} CallsAreAsked(events: seq<Event>)
    ensures var calls := Run(Init, events).calls;
            && |calls| == |Asked(events)|
            && forall id :: 0 <= id < |calls| ==> calls[id].state == Asked(events)[id]
  {
    if events != [] {
      CallsAreAsked(events[..|events| - 1]);
      CallsStay(Run(Init, events[..|events| - 1]), events[|events| - 1]);
    }
  }

  lemma CallsStay(s: System, e: Event)
    ensures var calls := Step(s, e).calls;
            && |calls| == |s.calls| + (if e.Request? then 1 else 0)
            && (e.Request? ==> calls[|s.calls|].state == e.state)
            && forall id :: 0 <= id < |s.calls| ==> calls[id].state == s.calls[id].state
  {}

  /** The server's state is the one that the last successful call set. */
  lemma {:induction false} PowerIsLastServed(events: seq<Event>)
    ensures Run(Init, events).power == LastServed(events)
  {
    if events != [] {
      PowerIsLastServed(events[..|events| - 1]);
      CallsAreAsked(events[..|events| - 1]);
      CallsAreAsked(events);
    }
  }

  /** In every run a call that reaches the server returns true exactly if it asks for on or off and the last successful
      call asked for something else; a call that does not reach it fails. The server's agents get one message each. */
  lemma ServerAnswers(events: seq<Event>, id: CallId, reached: bool)
    requires id < |Run(Init, events).calls| && Run(Init, events).calls[id].phase.Sending?
    ensures id < |Asked(events)|
    ensures var s, s', state := Run(Init, events), Run(Init, events + [Serve(id, reached)]), Asked(events)[id];
            var ok := reached && (state == On || state == Off) && state != LastServed(events);
            && s'.calls == s.calls[id := Call(state, if ok then Returned(true) else Failing)]
            && s'.power == (if ok then state else LastServed(events))
            && (if ok then |s'.queue| == |s.queue| + |s.agents| && s.queue <= s'.queue
                           && forall i :: |s.queue| <= i < |s'.queue| ==> s'.queue[i] == state
                else s'.queue == s.queue)
  {
    CallsAreAsked(events);
    PowerIsLastServed(events);
    assert (events + [Serve(id, reached)])[..|events|] == events;
  }

  /** In every run, lossy ones included, each delivered message invokes the callback that is stored then, once and with
      the message's state, and no other message or call is touched; without a callback it is dropped. */
  lemma DeliveryInvokesStoredCallback(events: seq<Event>, index: nat)
    requires index < |Run(Init, events).queue|
    ensures var s, s' := Run(Init, events), Run(Init, events + [Deliver(index)]);
            && s'.queue == s.queue[..index] + s.queue[index + 1..]
            && s'.log == s.log + (if s.callback.Some? then [Invocation(s.callback.value, s.queue[index])] else [])
            && s'.calls == s.calls && s'.callback == s.callback && s'.agents == s.agents && s'.power == s.power
  {
    assert (events + [Deliver(index)])[..|events|] == events;
  }

  /** Some call is not finished: it has not returned, or its message or its clearing is still to come. */
  predicate IsBusy(s: System) {
    (exists id :: 0 <= id < |s.calls| && !s.calls[id].phase.Returned?) || s.queue != [] || s.clearing > 0
  }

  /** Without a lost unregistration a call is turned away exactly if it has no callback or another call is not finished;
      otherwise it goes to the server if the agent can be registered there, and fails if not. */
  lemma CallIsTakenExactlyWhenIdle(events: seq<Event>, state: DisplayState, hasCallback: bool, registers: bool)
    requires LosesNothing(Init, events)
    ensures var s, s' := Run(Init, events), Run(Init, events + [Request(state, hasCallback, registers)]);
            s'.calls == s.calls + [Call(state, if !hasCallback || IsBusy(s) then Returned(false)
                                               else if registers then Sending
                                               else Failing)]
  {
    var s, e := Run(Init, events), Request(state, hasCallback, registers);
    RunKeepsInv(Init, events);
    assert (events + [e])[..|events|] == events;
    BusyMeansTaken(s);
  }

  lemma BusyMeansTaken(s: System)
    requires Inv(s)
    ensures IsBusy(s) <==> s.callback.Some?
    ensures s.agent.Some? <==> s.callback.Some?
  {
    hide Count, RightStates;
    if s.callback.Some? {
      assert s.calls[s.callback.value].phase.Returned? || IsBusy(s);
    } else {
      forall id | 0 <= id < |s.calls| ensures s.calls[id].phase.Returned? {
        assert Settled(s, id);
      }
    }
  }

  // ---------------------------------------------------------------- lost unregistrations

  /** No call is under way on the client. */
  predicate IsIdle(s: System) {
    && s.callback.None? && s.agent.None? && s.clearing == 0
    && (forall id :: id in s.agents ==> id < s.nextAgent)
    && (forall id :: 0 <= id < |s.calls| ==> s.calls[id].phase.Returned?)
  }

  lemma RunOne(s: System, e: Event)
    ensures Run(s, [e]) == Step(s, e)
  {
    assert Run(s, [e][..0]) == s;
  }

  lemma {:induction false} RunConcat(s: System, a: seq<Event>, b: seq<Event>)
    ensures Run(s, a + b) == Run(Run(s, a), b)
  {
    hide Step;
    if b == [] {
      assert a + b == a;
    } else {
      var n := |b| - 1;
      RunConcat(s, a, b[..n]);
      assert (a + b)[..|a| + n] == a + b[..n];
    }
  }

  /** A message that is left over reaches the callback of the next call. */
  lemma LeftOverMessageIsWrong(s: System) returns (events: seq<Event>)
    requires IsIdle(s) && s.queue != []
    ensures !RightStates(Run(s, events)) && forall i :: 0 <= i < |events| ==> events[i].Request? || events[i].Deliver?
  {
    var wrong := if s.queue[0] == On then Off else On;
    var request := Request(wrong, true, true);
    events := [request] + [Deliver(0)];
    RunOne(s, request);
    RunConcat(s, [request], [Deliver(0)]);
    RunOne(Step(s, request), Deliver(0));
    var after := Run(s, events);
    assert after.log[|s.log|] == Invocation(|s.calls|, s.queue[0]) && after.calls[|s.calls|].state == wrong;
  }

  /** An agent that the server still knows makes the next call leave such a message. */
  lemma LostAgentLeavesMessage(s: System) returns (events: seq<Event>)
    requires IsIdle(s) && s.queue == [] && s.agents != {}
    ensures IsIdle(Run(s, events)) && Run(s, events).queue != []
    ensures LosesNothing(s, events)
  {
    var state := if s.power == On then Off else On;
    var id := |s.calls|;
    var e0, e1, e2, e3 := Request(state, true, true), Serve(id, true), Deliver(0), Finish(true);
    var s1 := Step(s, e0);
    assert |s1.agents| == |s.agents| + 1 && |s.agents| > 0;
    var s2 := Step(s1, e1);
    var s3 := Step(s2, e2);
    var s4 := Step(s3, e3);
    assert |s2.queue| >= 2 && |s4.queue| >= 1;
    assert IsIdle(s4);
    events := [e0, e1, e2, e3];
    RunFour(s, e0, e1, e2, e3);
  }

  lemma RunFour(s: System, e0: Event, e1: Event, e2: Event, e3: Event)
    ensures var events := [e0, e1, e2, e3];
            && Run(s, events) == Step(Step(Step(Step(s, e0), e1), e2), e3)
            && Run(s, events[..0]) == s && Run(s, events[..1]) == Step(s, e0)
            && Run(s, events[..2]) == Step(Step(s, e0), e1) && Run(s, events[..3]) == Step(Step(Step(s, e0), e1), e2)
  {
    hide Step;
    var events := [e0, e1, e2, e3];
    assert events[..1][..0] == [] && events[..2][..1] == events[..1] && events[..3][..2] == events[..2];
    assert Run(s, events[..1]) == Step(s, e0);
    assert Run(s, events) == Step(Run(s, events[..3]), events[3]);
  }

  /** One unregistration that fails is enough to get into such a state. */
  lemma LossIsReachable() returns (events: seq<Event>)
    ensures var s := Run(Init, events);
            && IsIdle(s) && RightStates(s) && s.agents != {}
            && forall id :: 0 <= id < |s.calls| ==> Settled(s, id)
  {
    var e0, e1, e2, e3 := Request(On, true, true), Serve(0, true), Deliver(0), Finish(false);
    events := [e0, e1, e2, e3];
    RunFour(Init, e0, e1, e2, e3);
    var s := Step(Step(Step(Step(Init, e0), e1), e2), e3);
    assert s.agents == {0};
    assert s.log == [Invocation(0, On)];
    assert s.log[..0] == [] && Count(s.log, 0) == 1;
  }

  /** In no continuation without a further loss does a callback get a wrong state. */
  ghost predicate StaysRight(s: System) {
    forall events :: LosesNothing(s, events) ==> RightStates(Run(s, events))
  }

  /** From an idle state, the states passed to callbacks stay right in all continuations without a further loss exactly
      if no agent and no message has been left behind. */
  lemma {:induction false} IdleIsSafeExactlyWithoutLeftovers(s: System)
    requires IsIdle(s) && RightStates(s)
    requires forall id :: 0 <= id < |s.calls| ==> Settled(s, id)
    ensures StaysRight(s) <==> s.agents == {} && s.queue == []
  {
    if s.agents == {} && s.queue == [] {
      forall events | LosesNothing(s, events) ensures RightStates(Run(s, events)) {
        RunKeepsInv(s, events);
      }
    } else {
      var first := [];
      if s.queue == [] {
        first := LostAgentLeavesMessage(s);
      }
      var second := LeftOverMessageIsWrong(Run(s, first));
      RunConcat(s, first, second);
      var all := first + second;
      forall i | 0 <= i < |all| ensures !Loses(Run(s, all[..i]), all[i]) {
        if i < |first| {
          assert all[..i] == first[..i];
        }
      }
    }
  }

  // ---------------------------------------------------------------- the fields

  /** The fields of the client and of the server, the messages between them and the calls under way. */
  class DisplayStateSystem {
    var displayStateCallback: Option<CallId>
    var displayStateAgent: Option<AgentId>
    var nextAgent: AgentId
    var serverAgents: set<AgentId>
    var displayState: DisplayState
    var queue: seq<DisplayState>
    var clearing: nat
    var calls: seq<Call>
    ghost var log: seq<Invocation>

    ghost function View(): System
      reads this
    {
      System(displayStateCallback, displayStateAgent, nextAgent, clearing, serverAgents, displayState, queue, calls,
             log)
    }

    constructor ()
      ensures View() == Init
    {
      displayStateCallback, displayStateAgent, nextAgent := None, None, 0;
      serverAgents, displayState, queue := {}, Unknown, [];
      clearing, calls, log := 0, [], [];
    }

    method ClearDisplayStateCallback(unregisters: bool)
      modifies this
      ensures View() == Clear(old(View()), unregisters)
    {
      displayStateCallback := None;
      if displayStateAgent.Some? {
        if unregisters {
          serverAgents := serverAgents - {displayStateAgent.value};
        }
        displayStateAgent := None;
      }
    }

    /** The locked section of SetDisplayState; `answer` is the result if the call ends here. */
    method TakeCallbackSlot(state: DisplayState, hasCallback: bool, registers: bool) returns (answer: Option<bool>)
      modifies this
      ensures View() == RequestStep(old(View()), state, hasCallback, registers)
      ensures answer == if Accepts(old(View()), hasCallback) then None else Some(false)
    {
      if displayStateCallback.Some? || !hasCallback {
        calls := calls + [Call(state, Returned(false))];
        return Some(false);
      }
      displayStateCallback := Some(|calls|);
      var ret := true;
      if displayStateAgent.None? {
        displayStateAgent := Some(nextAgent);
        nextAgent := nextAgent + 1;
        ret := registers;
        if registers {
          serverAgents := serverAgents + {displayStateAgent.value};
        }
      }
      calls := calls + [Call(state, if ret then Sending else Failing)];
      return None;
    }

    /** DisplayPowerController::SetDisplayState. */
    method ServerSetDisplayState(state: DisplayState) returns (ok: bool)
      modifies this`displayState, this`queue
      ensures ok <==> ServerTakes(old(View()), state)
      ensures displayState == (if ok then state else old(displayState))
      ensures queue == old(queue) + (if ok then seq(|serverAgents|, _ => state) else [])
    {
      if displayState == state {
        return false;
      }
      match state {
        case On => displayState := state;
        case Off => displayState := state;
        case _ => return false;
      }
      queue := queue + seq(|serverAgents|, _ => state);
      return true;
    }

    method AskServer(id: CallId, reached: bool)
      requires id < |calls| && calls[id].phase.Sending?
      modifies this
      ensures View() == ServeStep(old(View()), id, reached)
    {
      var ok := false;
      if reached {
        ok := ServerSetDisplayState(calls[id].state);
      }
      calls := calls[id := Call(calls[id].state, if ok then Returned(true) else Failing)];
    }

    method GiveUp(id: CallId, unregisters: bool)
      requires id < |calls| && calls[id].phase.Failing?
      modifies this
      ensures View() == AbortStep(old(View()), id, unregisters)
    {
      ClearDisplayStateCallback(unregisters);
      calls := calls[id := Call(calls[id].state, Returned(false))];
    }

    /** The first half of NotifyDisplayStateChanged, up to the callback's invocation. */
    method NotifyDisplayStateChanged(index: nat)
      requires index < |queue|
      modifies this
      ensures View() == DeliverStep(old(View()), index)
    {
      var state := queue[index];
      queue := queue[..index] + queue[index + 1..];
      var callback := displayStateCallback;
      if callback.Some? {
        log := log + [Invocation(callback.value, state)];
        clearing := clearing + 1;
      }
    }

    method FinishNotification(unregisters: bool)
      requires clearing > 0
      modifies this
      ensures View() == FinishStep(old(View()), unregisters)
    {
      ClearDisplayStateCallback(unregisters);
      clearing := clearing - 1;
    }
  }
}
