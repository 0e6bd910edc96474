/** Registration of available-area listeners, for all displays or for one, and the agent they share (DisplayManager). */
module AvailableArea {
  import opened DmTypes

  type Listener = nat

  datatype State = State(listeners: set<Listener>, byDisplay: map<Id, set<Listener>>, agent: bool)

  const Init := State({}, map[], false)

  /** `ipcOk` is the result of the remote call, if one is made. */
  datatype Event =
    | Register(listener: Listener, ipcOk: bool)
    | RegisterFor(listener: Listener, id: Id, ipcOk: bool)
    | Unregister(listener: Listener, ipcOk: bool)
    | UnregisterFor(listener: Listener, id: Id, ipcOk: bool)
    | RemoteDied

  function ListenersOf(s: State, id: Id): set<Listener> {
    if id in s.byDisplay then s.byDisplay[id] else {}
  }

  /** The event gets past its own checks and, for a registration, reaches the server if it has to. */
  predicate TakesEffect(s: State, e: Event) {
    match e
    case Register(_, ipcOk) => s.agent || ipcOk
    case RegisterFor(_, _, ipcOk) => s.agent || ipcOk
    case Unregister(l, _) => l in s.listeners
    case UnregisterFor(l, id, _) => l in ListenersOf(s, id)
    case RemoteDied => false
  }

  function WithListeners(s: State, id: Id, ls: set<Listener>): map<Id, set<Listener>> {
    if ls == {} then s.byDisplay - {id} else s.byDisplay[id := ls]
  }

  /** The agent is given up with the last listener. */
  function Trim(s: State): State {
    if s.listeners == {} && s.byDisplay == map[] then s.(agent := false) else s
  }

  function Step(s: State, e: Event): State {
    if !TakesEffect(s, e) then s
    else match e
         case Register(l, _) => s.(listeners := s.listeners + {l}, agent := true)
         case RegisterFor(l, id, _) => s.(byDisplay := s.byDisplay[id := ListenersOf(s, id) + {l}], agent := true)
         case Unregister(l, _) => Trim(s.(listeners := s.listeners - {l}))
         case UnregisterFor(l, id, _) => Trim(s.(byDisplay := WithListeners(s, id, ListenersOf(s, id) - {l})))
         case RemoteDied => s
  }

  function Run(events: seq<Event>): State {
    if events == [] then Init else Step(Run(events[..|events| - 1]), events[|events| - 1])
  }

  predicate Inv(s: State) {
    && (s.agent <==> s.listeners != {} || s.byDisplay != map[])
    && (forall id :: id in s.byDisplay ==> s.byDisplay[id] != {})
  }

  predicate Listens(s: State, l: Listener) {
    l in s.listeners || exists id :: id in s.byDisplay && l in s.byDisplay[id]
  }

  lemma AgentMeansListener(s: State)
    requires Inv(s)
    ensures s.agent <==> exists l :: Listens(s, l)
  {
    if s.listeners != {} {
      var l :| l in s.listeners;
      assert Listens(s, l);
    } else if s.byDisplay != map[] {
      var id :| id in s.byDisplay;
      var l :| l in s.byDisplay[id];
      assert Listens(s, l);
    }
  }

  /** The agent exists exactly while somebody listens, in every run with failing remote calls and deaths. */
  lemma {:induction false} RunKeepsInv(events: seq<Event>)
    ensures Inv(Run(events))
    ensures Run(events).agent <==> exists l :: Listens(Run(events), l)
  {
    if events != [] {
      RunKeepsInv(events[..|events| - 1]);
      StepKeepsInv(Run(events[..|events| - 1]), events[|events| - 1]);
    }
    AgentMeansListener(Run(events));
  }

  lemma StepKeepsInv(s: State, e: Event)
    requires Inv(s)
    ensures Inv(Step(s, e))
  {
    var s' := Step(s, e);
    if e.Register? && TakesEffect(s, e) {
      assert e.listener in s'.listeners;
    }
    if e.RegisterFor? && TakesEffect(s, e) {
      assert e.id in s'.byDisplay && e.listener in s'.byDisplay[e.id];
    }
  }

  /** The scope of a registration: one display, or None for all of them. */
  predicate Registers(e: Event, l: Listener, scope: Option<Id>) {
    match scope
    case None => e.Register? && e.listener == l
    case Some(id) => e.RegisterFor? && e.listener == l && e.id == id
  }

  predicate Unregisters(e: Event, l: Listener, scope: Option<Id>) {
    match scope
    case None => e.Unregister? && e.listener == l
    case Some(id) => e.UnregisterFor? && e.listener == l && e.id == id
  }

  predicate IsRegistered(s: State, l: Listener, scope: Option<Id>) {
    match scope
    case None => l in s.listeners
    case Some(id) => l in ListenersOf(s, id)
  }

  /** Event i registers the listener, and nothing after it takes the listener off again. */
  predicate StandsSince(events: seq<Event>, l: Listener, scope: Option<Id>, i: nat)
    requires i < |events|
  {
    && Registers(events[i], l, scope) && TakesEffect(Run(events[..i]), events[i])
    && forall j :: i < j < |events| ==> !Unregisters(events[j], l, scope)
  }

  lemma StandsSincePrefix(events: seq<Event>, l: Listener, scope: Option<Id>, i: nat)
    requires i < |events| - 1
    ensures var n := |events| - 1;
            StandsSince(events, l, scope, i) <==>
              StandsSince(events[..n], l, scope, i) && !Unregisters(events[n], l, scope)
  {
    hide Run, TakesEffect, Unregisters;
    var n := |events| - 1;
    assert events[..n][..i] == events[..i];
    assert forall j :: 0 <= j < n ==> events[..n][j] == events[j];
  }

  lemma RegisteredAfterStep(s: State, e: Event, l: Listener, scope: Option<Id>)
    ensures IsRegistered(Step(s, e), l, scope) <==>
              (Registers(e, l, scope) && TakesEffect(s, e)) || (IsRegistered(s, l, scope) && !Unregisters(e, l, scope))
  {}

  /** A listener is registered in a scope exactly when its last successful registration there still stands. */
  lemma {:induction false} RegisteredExactlyWhileItStands(events: seq<Event>, l: Listener, scope: Option<Id>)
    ensures IsRegistered(Run(events), l, scope) <==> exists i :: 0 <= i < |events| && StandsSince(events, l, scope, i)
  {
    hide Step, TakesEffect, Registers, Unregisters, IsRegistered;
    if events != [] {
      var n := |events| - 1;
      RegisteredExactlyWhileItStands(events[..n], l, scope);
      forall i | 0 <= i < n
        ensures StandsSince(events, l, scope, i) <==>
                  StandsSince(events[..n], l, scope, i) && !Unregisters(events[n], l, scope)
      {
        StandsSincePrefix(events, l, scope, i);
      }
      RegisteredAfterStep(Run(events[..n]), events[n], l, scope);
      assert StandsSince(events, l, scope, n) <==>
          Registers(events[n], l, scope) && TakesEffect(Run(events[..n]), events[n]);
    } else {
      NobodyIsRegisteredAtFirst(l, scope);
    }
  }

  lemma NobodyIsRegisteredAtFirst(l: Listener, scope: Option<Id>)
    ensures !IsRegistered(Init, l, scope)
  {}

  lemma RunSnoc(events: seq<Event>, e: Event)
    ensures Run(events + [e]) == Step(Run(events), e)
  {
    assert (events + [e])[..|events|] == events;
  }

  /** In every run a registration succeeds exactly if the remote call would, or somebody listens already, so that no
      call is made; without success nothing changes. Nobody else's registration is touched. */
  lemma RegistrationSucceedsExactly(events: seq<Event>, l: Listener, scope: Option<Id>, ipcOk: bool)
    ensures var s := Run(events);
            var e := if scope.None? then Register(l, ipcOk) else RegisterFor(l, scope.value, ipcOk);
            var s' := Run(events + [e]);
            && (IsRegistered(s', l, scope) <==> IsRegistered(s, l, scope) || ipcOk || exists x :: Listens(s, x))
            && (!IsRegistered(s', l, scope) ==> s' == s)
            && (forall x: Listener, other: Option<Id> :: (x, other) != (l, scope) ==>
                  (IsRegistered(s', x, other) <==> IsRegistered(s, x, other)))
  {
    var s, e := Run(events), if scope.None? then Register(l, ipcOk) else RegisterFor(l, scope.value, ipcOk);
    RunSnoc(events, e);
    RunKeepsInv(events);
    if IsRegistered(s, l, scope) {
      assert Listens(s, l);
    }
    forall x: Listener, other: Option<Id> | (x, other) != (l, scope)
      ensures IsRegistered(Step(s, e), x, other) <==> IsRegistered(s, x, other)
    {
      RegisteredAfterStep(s, e, x, other);
    }
  }

  /** An unregistration takes off the one registration it names, and changes nothing if there is none. */
  lemma UnregistrationTakesOff(s: State, l: Listener, scope: Option<Id>, ipcOk: bool)
    ensures var e := if scope.None? then Unregister(l, ipcOk) else UnregisterFor(l, scope.value, ipcOk);
            var s' := Step(s, e);
            && !IsRegistered(s', l, scope) && (!IsRegistered(s, l, scope) ==> s' == s)
            && (forall x: Listener, other: Option<Id> :: (x, other) != (l, scope) ==>
                  (IsRegistered(s', x, other) <==> IsRegistered(s, x, other)))
  {
    var e := if scope.None? then Unregister(l, ipcOk) else UnregisterFor(l, scope.value, ipcOk);
    forall x: Listener, other: Option<Id> | (x, other) != (l, scope)
      ensures IsRegistered(Step(s, e), x, other) <==> IsRegistered(s, x, other)
    {
      RegisteredAfterStep(s, e, x, other);
    }
  }

  // ---------------------------------------------------------------- notification

  datatype Callback = AreaChanged(listener: Listener) | AreaChangedByDisplayId(listener: Listener, id: Id)

  function One(condition: bool): nat {
    if condition then 1 else 0
  }

  class AvailableAreaListeners {
    var availableAreaListeners: set<Listener>
    var availableAreaListenersMap: map<Id, set<Listener>>
    var hasAgent: bool

    ghost function View(): State
      reads this
    {
      State(availableAreaListeners, availableAreaListenersMap, hasAgent)
    }

    constructor ()
      ensures View() == Init
    {
      availableAreaListeners, availableAreaListenersMap, hasAgent := {}, map[], false;
    }

    method EnsureAgent(ipcOk: bool) returns (ret: Error)
      modifies this`hasAgent
      ensures ret == if old(hasAgent) || ipcOk then DmOk else IpcFailed
      ensures hasAgent <==> ret == DmOk
    {
      ret := DmOk;
      if !hasAgent {
        hasAgent := true;
        ret := if ipcOk then DmOk else IpcFailed;
      }
      if ret != DmOk {
        hasAgent := false;
      }
    }

    method RegisterAvailableAreaListener(l: Listener, ipcOk: bool) returns (ret: Error)
      modifies this
      ensures View() == Step(old(View()), Register(l, ipcOk))
      ensures ret == if old(hasAgent) || ipcOk then DmOk else IpcFailed
    {
      ret := EnsureAgent(ipcOk);
      if ret == DmOk {
        availableAreaListeners := availableAreaListeners + {l};
      }
    }

    method RegisterAvailableAreaListenerFor(l: Listener, id: Id, ipcOk: bool) returns (ret: Error)
      modifies this
      ensures View() == Step(old(View()), RegisterFor(l, id, ipcOk))
      ensures ret == if old(hasAgent) || ipcOk then DmOk else IpcFailed
    {
      ret := EnsureAgent(ipcOk);
      if ret == DmOk {
        var ls := if id in availableAreaListenersMap then availableAreaListenersMap[id] else {};
        availableAreaListenersMap := availableAreaListenersMap[id := ls + {l}];
      }
    }

    method DropAgentIfUnused(ipcOk: bool) returns (ret: Error)
      modifies this`hasAgent
      ensures View() == Trim(old(View()))
      ensures ret == if old(hasAgent) && !hasAgent && !ipcOk then IpcFailed else DmOk
    {
      ret := DmOk;
      if availableAreaListeners == {} && availableAreaListenersMap == map[] && hasAgent {
        ret := if ipcOk then DmOk else IpcFailed;
        hasAgent := false;
      }
    }

    method UnregisterAvailableAreaListener(l: Listener, ipcOk: bool) returns (ret: Error)
      modifies this
      ensures View() == Step(old(View()), Unregister(l, ipcOk))
      ensures ret == if l !in old(availableAreaListeners) then NullPointer
                     else if old(hasAgent) && !hasAgent && !ipcOk then IpcFailed else DmOk
    {
      if l !in availableAreaListeners {
        return NullPointer;
      }
      availableAreaListeners := availableAreaListeners - {l};
      ret := DropAgentIfUnused(ipcOk);
    }

    method UnregisterAvailableAreaListenerFor(l: Listener, id: Id, ipcOk: bool) returns (ret: Error)
      modifies this
      ensures View() == Step(old(View()), UnregisterFor(l, id, ipcOk))
      ensures ret == if !IsRegistered(old(View()), l, Some(id)) then NullPointer
                     else if old(hasAgent) && !hasAgent && !ipcOk then IpcFailed else DmOk
    {
      if id !in availableAreaListenersMap || l !in availableAreaListenersMap[id] {
        return NullPointer;
      }
      var ls := availableAreaListenersMap[id] - {l};
      availableAreaListenersMap := availableAreaListenersMap[id := ls];
      if ls == {} {
        availableAreaListenersMap := availableAreaListenersMap - {id};
        assert availableAreaListenersMap == old(availableAreaListenersMap) - {id};
      }
      ret := DropAgentIfUnused(ipcOk);
    }

    /** A listener for all displays is called twice; one for a display once, and only for that display. */
    method NotifyAvailableAreaChanged(id: Id) returns (calls: multiset<Callback>)
      ensures forall l :: calls[AreaChanged(l)] == One(l in availableAreaListeners) + One(l in ListenersOf(View(), id))
      ensures forall l, d :: calls[AreaChangedByDisplayId(l, d)] == One(l in availableAreaListeners && d == id)
    {
      calls := multiset{};
      var rest := availableAreaListeners;
      while rest != {}
        invariant rest <= availableAreaListeners
        invariant forall l :: calls[AreaChanged(l)] == One(l in availableAreaListeners && l !in rest)
        invariant forall l, d :: calls[AreaChangedByDisplayId(l, d)]
                                 == One(l in availableAreaListeners && l !in rest && d == id)
        decreases rest
      {
        var l :| l in rest;
        calls := calls + multiset{AreaChanged(l), AreaChangedByDisplayId(l, id)};
        rest := rest - {l};
      }
      if id in availableAreaListenersMap {
        rest := availableAreaListenersMap[id];
        while rest != {}
          invariant rest <= availableAreaListenersMap[id]
          invariant forall l :: calls[AreaChanged(l)] == One(l in availableAreaListeners)
                                                       + One(l in availableAreaListenersMap[id] && l !in rest)
          invariant forall l, d :: calls[AreaChangedByDisplayId(l, d)] == One(l in availableAreaListeners && d == id)
          decreases rest
        {
          var l :| l in rest;
          calls := calls + multiset{AreaChanged(l)};
          rest := rest - {l};
        }
      }
    }
  }
}
