/** The one agent that the four kinds of screen listeners share (ScreenManager). */
module ScreenAgent {
  import opened DmTypes

  type Listener = nat
  datatype Kind = ScreenKind | GroupKind | VirtualGroupKind | RecordKind

  datatype State = State(screens: set<Listener>, groups: set<Listener>, virtualGroups: set<Listener>,
                         records: set<Listener>, agent: bool)

  const Init := State({}, {}, {}, {}, false)

  datatype Event =
    | Register(kind: Kind, listener: Listener, ipcOk: bool)
    | Unregister(kind: Kind, listener: Listener)
    | RemoteDied

  function Get(s: State, k: Kind): set<Listener> {
    match k
    case ScreenKind => s.screens
    case GroupKind => s.groups
    case VirtualGroupKind => s.virtualGroups
    case RecordKind => s.records
  }

  function Put(s: State, k: Kind, ls: set<Listener>): State {
    match k
    case ScreenKind => s.(screens := ls)
    case GroupKind => s.(groups := ls)
    case VirtualGroupKind => s.(virtualGroups := ls)
    case RecordKind => s.(records := ls)
  }

  /** The record listeners are not asked. */
  predicate AllRemoved(s: State) {
    s.screens == {} && s.groups == {} && s.virtualGroups == {}
  }

  predicate TakesEffect(s: State, e: Event) {
    match e
    case Register(_, _, ipcOk) => s.agent || ipcOk
    case Unregister(k, l) => l in Get(s, k)
    case RemoteDied => true
  }

  function Step(s: State, e: Event): State {
    if !TakesEffect(s, e) then s
    else match e
         case Register(k, l, _) => Put(s, k, Get(s, k) + {l}).(agent := true)
         case Unregister(k, l) =>
           var s' := Put(s, k, Get(s, k) - {l});
           if AllRemoved(s') then s'.(agent := false) else s'
         case RemoteDied => s.(agent := false)
  }

  function Run(events: seq<Event>): State {
    if events == [] then Init else Step(Run(events[..|events| - 1]), events[|events| - 1])
  }

  /** The steps that give the agent up. */
  predicate Drops(s: State, e: Event) {
    e.RemoteDied? || (e.Unregister? && TakesEffect(s, e) && AllRemoved(Step(s, e)))
  }

  predicate StandsSince(events: seq<Event>, i: nat)
    requires i < |events|
  {
    && events[i].Register? && TakesEffect(Run(events[..i]), events[i])
    && forall j :: i < j < |events| ==> !Drops(Run(events[..j]), events[j])
  }

  lemma StandsSincePrefix(events: seq<Event>, i: nat)
    requires i < |events| - 1
    ensures var n := |events| - 1;
            StandsSince(events, i) <==> StandsSince(events[..n], i) && !Drops(Run(events[..n]), events[n])
  {
    hide Drops, TakesEffect, Run;
    var n := |events| - 1;
    assert events[..n][..i] == events[..i];
    assert forall j :: 0 <= j < n ==> events[..n][..j] == events[..j] && events[..n][j] == events[j];
  }

  lemma AgentAfterStep(s: State, e: Event)
    ensures Step(s, e).agent <==> (e.Register? && TakesEffect(s, e)) || (s.agent && !Drops(s, e))
  {}

  /** The agent is registered exactly while a successful registration has not been followed by a step that drops it. */
  lemma {:induction false} AgentStandsExactlySinceARegistration(events: seq<Event>)
    ensures Run(events).agent <==> exists i :: 0 <= i < |events| && StandsSince(events, i)
  {
    hide Drops, TakesEffect, Step;
    if events != [] {
      var n := |events| - 1;
      var before, e := Run(events[..n]), events[n];
      AgentStandsExactlySinceARegistration(events[..n]);
      forall i | 0 <= i < n ensures StandsSince(events, i) <==> StandsSince(events[..n], i) && !Drops(before, e) {
        StandsSincePrefix(events, i);
      }
      AgentAfterStep(before, e);
      assert StandsSince(events, n) <==> e.Register? && TakesEffect(before, e);
    }
  }

  /** Event i registers the listener, and nothing after it takes the listener off again. */
  predicate ListenerStandsSince(events: seq<Event>, k: Kind, l: Listener, i: nat)
    requires i < |events|
  {
    && events[i].Register? && events[i].kind == k && events[i].listener == l
    && TakesEffect(Run(events[..i]), events[i])
    && forall j :: i < j < |events| ==> events[j] != Unregister(k, l)
  }

  lemma ListenerStandsSincePrefix(events: seq<Event>, k: Kind, l: Listener, i: nat)
    requires i < |events| - 1
    ensures var n := |events| - 1;
            ListenerStandsSince(events, k, l, i) <==>
              ListenerStandsSince(events[..n], k, l, i) && events[n] != Unregister(k, l)
  {
    hide TakesEffect, Run;
    var n := |events| - 1;
    assert events[..n][..i] == events[..i];
    assert forall j :: 0 <= j < n ==> events[..n][j] == events[j];
  }

  lemma ListenersAfterStep(s: State, e: Event, k: Kind, l: Listener)
    ensures l in Get(Step(s, e), k) <==>
              (e.Register? && e.kind == k && e.listener == l && TakesEffect(s, e))
              || (l in Get(s, k) && e != Unregister(k, l))
  {}

  /** A listener of any kind is registered exactly when its last successful registration still stands, whatever
      happened to the agent. */
  lemma {:induction false} RegisteredExactlyWhileItStands(events: seq<Event>, k: Kind, l: Listener)
    ensures l in Get(Run(events), k) <==> exists i :: 0 <= i < |events| && ListenerStandsSince(events, k, l, i)
  {
    hide TakesEffect, Step;
    if events != [] {
      var n := |events| - 1;
      RegisteredExactlyWhileItStands(events[..n], k, l);
      forall i | 0 <= i < n
        ensures ListenerStandsSince(events, k, l, i) <==>
                  ListenerStandsSince(events[..n], k, l, i) && events[n] != Unregister(k, l)
      {
        ListenerStandsSincePrefix(events, k, l, i);
      }
      ListenersAfterStep(Run(events[..n]), events[n], k, l);
      assert ListenerStandsSince(events, k, l, n) <==>
          events[n].Register? && events[n].kind == k && events[n].listener == l
          && TakesEffect(Run(events[..n]), events[n]);
    }
  }

  /** A registration succeeds exactly if the agent is there or the remote call does its part; an unregistration takes
      off its listener. Other listeners stay, and a registration that fails changes nothing. */
  lemma RegistrationSucceedsExactly(s: State, k: Kind, l: Listener, ipcOk: bool)
    ensures var s' := Step(s, Register(k, l, ipcOk));
            && (if s.agent || ipcOk then s'.agent && l in Get(s', k) else s' == s)
            && forall k', l' :: (k', l') != (k, l) ==> (l' in Get(s', k') <==> l' in Get(s, k'))
    ensures var s' := Step(s, Unregister(k, l));
            && (if l in Get(s, k) then l !in Get(s', k) else s' == s)
            && forall k', l' :: (k', l') != (k, l) ==> (l' in Get(s', k') <==> l' in Get(s, k'))
  {
    forall k', l' | (k', l') != (k, l)
      ensures l' in Get(Step(s, Register(k, l, ipcOk)), k') <==> l' in Get(s, k')
      ensures l' in Get(Step(s, Unregister(k, l)), k') <==> l' in Get(s, k')
    {
      ListenersAfterStep(s, Register(k, l, ipcOk), k', l');
      ListenersAfterStep(s, Unregister(k, l), k', l');
    }
  }

  predicate Inv(s: State) {
    && (!AllRemoved(s) ==> s.agent)
    && (s.agent ==> !AllRemoved(s) || s.records != {})
  }

  /** In every run without a death, screen, group and virtual-group listeners have the agent, and an agent has
      listeners. */
  lemma {:induction false} RunKeepsInv(events: seq<Event>)
    requires forall i :: 0 <= i < |events| ==> !events[i].RemoteDied?
    ensures Inv(Run(events))
  {
    if events != [] {
      var n := |events| - 1;
      RunKeepsInv(events[..n]);
      var s, e := Run(events[..n]), events[n];
      if e.Register? && TakesEffect(s, e) {
        assert e.listener in Get(Step(s, e), e.kind);
      }
    }
  }

  /** Record listeners are left without the agent exactly by an unregistration after which they are the only ones. */
  lemma RecordListenersLoseTheAgent(s: State, e: Event)
    requires Inv(s) && s.agent && !e.RemoteDied?
    ensures var s' := Step(s, e);
            s'.records != {} && !s'.agent <==>
              e.Unregister? && e.listener in Get(s, e.kind)
              && (forall k :: k != RecordKind ==> Get(s, k) <= (if k == e.kind then {e.listener} else {}))
              && s.records - (if e.kind.RecordKind? then {e.listener} else {}) != {}
  {
    if e.Unregister? {
      assert AllRemoved(Put(s, e.kind, Get(s, e.kind) - {e.listener})) <==>
          forall k :: k != RecordKind ==> Get(s, k) <= (if k == e.kind then {e.listener} else {}) by {
        var ks := (ScreenKind, GroupKind, VirtualGroupKind);
        assert Get(s, ks.0) == s.screens && Get(s, ks.1) == s.groups && Get(s, ks.2) == s.virtualGroups;
      }
    }
  }

  class ScreenListeners {
    var screenListeners: set<Listener>
    var screenGroupListeners: set<Listener>
    var virtualScreenGroupListeners: set<Listener>
    var recordDisplayListeners: set<Listener>
    var hasAgent: bool

    ghost function View(): State
      reads this
    {
      State(screenListeners, screenGroupListeners, virtualScreenGroupListeners, recordDisplayListeners, hasAgent)
    }

    constructor ()
      ensures View() == Init
    {
      screenListeners, screenGroupListeners, virtualScreenGroupListeners, recordDisplayListeners := {}, {}, {}, {};
      hasAgent := false;
    }

    method RegisterDisplayManagerAgent(ipcOk: bool) returns (ret: Error)
      modifies this`hasAgent
      ensures ret == if old(hasAgent) || ipcOk then DmOk else IpcFailed
      ensures hasAgent <==> ret == DmOk
    {
      ret := DmOk;
      if !hasAgent {
        hasAgent := true;
        ret := if ipcOk then DmOk else IpcFailed;
        if ret != DmOk {
          hasAgent := false;
        }
      }
    }

    method UnregisterDisplayManagerAgent(ipcOk: bool) returns (ret: Error)
      modifies this`hasAgent
      ensures ret == if !old(hasAgent) || ipcOk then DmOk else IpcFailed
      ensures !hasAgent
    {
      ret := DmOk;
      if hasAgent {
        ret := if ipcOk then DmOk else IpcFailed;
        hasAgent := false;
      }
    }

    predicate IsAllListenersRemoved()
      reads this
    {
      screenListeners == {} && screenGroupListeners == {} && virtualScreenGroupListeners == {}
    }

    /** The four Register methods of the source differ in the set only, and so do the four that unregister. */
    method RegisterListener(kind: Kind, l: Listener, ipcOk: bool) returns (ret: Error)
      modifies this
      ensures View() == Step(old(View()), Register(kind, l, ipcOk))
      ensures ret == if old(hasAgent) || ipcOk then DmOk else IpcFailed
    {
      ret := RegisterDisplayManagerAgent(ipcOk);
      if ret == DmOk {
        match kind
        case ScreenKind => screenListeners := screenListeners + {l};
        case GroupKind => screenGroupListeners := screenGroupListeners + {l};
        case VirtualGroupKind => virtualScreenGroupListeners := virtualScreenGroupListeners + {l};
        case RecordKind => recordDisplayListeners := recordDisplayListeners + {l};
      }
    }

    method UnregisterListener(kind: Kind, l: Listener, ipcOk: bool) returns (ret: Error)
      modifies this
      ensures View() == Step(old(View()), Unregister(kind, l))
      ensures ret == if l !in Get(old(View()), kind) then NullPointer
                     else if old(hasAgent) && !hasAgent && !ipcOk then IpcFailed else DmOk
    {
      var found;
      match kind {
        case ScreenKind =>
          found := l in screenListeners;
          screenListeners := screenListeners - {l};
        case GroupKind =>
          found := l in screenGroupListeners;
          screenGroupListeners := screenGroupListeners - {l};
        case VirtualGroupKind =>
          found := l in virtualScreenGroupListeners;
          virtualScreenGroupListeners := virtualScreenGroupListeners - {l};
        case RecordKind =>
          found := l in recordDisplayListeners;
          recordDisplayListeners := recordDisplayListeners - {l};
      }
      if !found {
        return NullPointer;
      }
      ret := DmOk;
      if IsAllListenersRemoved() {
        ret := UnregisterDisplayManagerAgent(ipcOk);
      }
    }

    method OnRemoteDied()
      modifies this`hasAgent
      ensures View() == Step(old(View()), RemoteDied)
    {
      hasAgent := false;
    }
  }
}
