/**
 * The server's table of displays (AbstractDisplayController) under connect and disconnect events of screens.
 *
 * The maps of the source are ordered by id. Ids are below displayCount_, so a loop over a map is a scan of the
 * ids from 0 up to displayCount_.
 */
module DisplayTable {
  import opened DmTypes
  import opened Displays

  /** The screen's group, as the event handlers see it. */
  datatype Group = Group(combination: Combination, childCount: nat)

  /** What the screen controller answers about the default screen. */
  datatype Env = Env(defaultScreenId: Id, defaultScreen: Option<Screen>)

  predicate EnvOk(env: Env) {
    env.defaultScreen.Some? ==> env.defaultScreen.value.dmsId == env.defaultScreenId
  }

  /** The notifications sent to the clients, oldest first. */
  datatype Note = Created(id: Id) | Destroyed(id: Id)

  datatype Table = Table(displays: map<Id, Display>, count: nat, log: seq<Note>)

  const EMPTY := Table(map[], 0, [])

  datatype Event =
    | Connect(screen: Screen, group: Option<Group>, env: Env)
    | Disconnect(screen: Screen, group: Option<Group>, env: Env)

  predicate Shows(displays: map<Id, Display>, k: Id, screenId: Id) {
    k in displays && displays[k].screenId == screenId
  }

  /** The lowest id in [i, n) that shows the screen. */
  function First(displays: map<Id, Display>, screenId: Id, i: nat, n: nat): (k: Option<Id>)
    ensures k.Some? ==> i <= k.value < n && Shows(displays, k.value, screenId)
    ensures forall j :: i <= j < (if k.Some? then k.value else n) ==> !Shows(displays, j, screenId)
    decreases n - i
  {
    if i >= n then None
    else if Shows(displays, i, screenId) then Some(i)
    else First(displays, screenId, i + 1, n)
  }

  /** The highest id below n that shows the screen. */
  function Last(displays: map<Id, Display>, screenId: Id, n: nat): (k: Option<Id>)
    ensures k.Some? ==> k.value < n && Shows(displays, k.value, screenId)
    ensures forall j :: (if k.Some? then k.value + 1 else 0) <= j < n ==> !Shows(displays, j, screenId)
  {
    if n == 0 then None
    else if Shows(displays, n - 1, screenId) then Some(n - 1)
    else Last(displays, screenId, n - 1)
  }

  lemma LastAt(displays: map<Id, Display>, screenId: Id, n: nat)
    ensures Last(displays, screenId, 0) == None
    ensures Last(displays, screenId, n + 1) ==
            if Shows(displays, n, screenId) then Some(n) else Last(displays, screenId, n)
  {}

  function Create(t: Table, d: Display): Table {
    Table(t.displays[t.count := d], t.count + 1, t.log + [Created(t.count)])
  }

  function Remove(t: Table, k: Id): Table {
    t.(displays := t.displays - {k}, log := t.log + [Destroyed(k)])
  }

  predicate BindsAlone(s: Screen, env: Env) {
    env.defaultScreenId != INVALID_ID && env.defaultScreenId == s.dmsId && s.mode.Some?
  }

  function BindAloneScreen(t: Table, s: Screen, env: Env): Table {
    if BindsAlone(s, env) then Create(t, NewDisplay(t.count, s.mode.value, s.dmsId, s.rotation)) else t
  }

  /** A virtual screen takes the mode of the default screen. */
  function ExpandMode(s: Screen, env: Env): Option<Mode> {
    if !s.isVirtual then s.mode
    else if env.defaultScreen.None? then None
    else env.defaultScreen.value.mode
  }

  function AddScreenToExpand(t: Table, s: Screen, env: Env): Table {
    if First(t.displays, s.dmsId, 0, t.count).Some? || ExpandMode(s, env).None? then t
    else Create(t, NewDisplay(t.count, ExpandMode(s, env).value, s.dmsId, s.rotation).(offset := s.position))
  }

  predicate TakesAlone(g: Group) {
    g.combination.Alone? || g.childCount == 1
  }

  function OnConnect(t: Table, s: Screen, group: Option<Group>, env: Env): Table {
    if group.None? then t
    else if TakesAlone(group.value) then BindAloneScreen(t, s, env)
    else if group.value.combination.Expand? then AddScreenToExpand(t, s, env)
    else t
  }

  /** The lowest display of the screen moves to the default screen; it goes when its group is left empty. */
  function NormalDisconnect(t: Table, s: Screen, g: Group, env: Env): Table {
    match First(t.displays, s.dmsId, 0, t.count)
    case None => t
    case Some(k) =>
      if g.childCount == 0 then Remove(t, k)
      else t.(displays := t.displays[k := Bind(t.displays[k], env.defaultScreen)])
  }

  function AtOrigin(displays: map<Id, Display>, screenId: Id): (m: map<Id, Display>)
    ensures m.Keys == displays.Keys
  {
    map k | k in displays :: if displays[k].screenId == screenId then displays[k] else displays[k].(offset := ORIGIN)
  }

  /** The same for the ids below n only: how far the loop has come. */
  ghost function AtOriginBelow(displays: map<Id, Display>, screenId: Id, n: nat): map<Id, Display> {
    map k | k in displays ::
      if k >= n || displays[k].screenId == screenId then displays[k] else displays[k].(offset := ORIGIN)
  }

  lemma AtOriginBelowNext(displays: map<Id, Display>, screenId: Id, n: nat)
    ensures var m := AtOriginBelow(displays, screenId, n);
            && (n in m <==> n in displays) && (n in m ==> m[n] == displays[n])
            && AtOriginBelow(displays, screenId, n + 1) ==
               if n in m then m[n := AtOrigin(m, screenId)[n]] else m
  {}

  lemma AtOriginBelowAll(displays: map<Id, Display>, screenId: Id, n: nat)
    requires forall k :: k in displays ==> k < n
    ensures AtOriginBelow(displays, screenId, 0) == displays
    ensures AtOriginBelow(displays, screenId, n) == AtOrigin(displays, screenId)
  {}

  function ExpandDisconnect(t: Table, s: Screen): Table {
    var moved := t.(displays := AtOrigin(t.displays, s.dmsId));
    match Last(t.displays, s.dmsId, t.count)
    case None => moved
    case Some(k) => Remove(moved, k)
  }

  function OnDisconnect(t: Table, s: Screen, group: Option<Group>, env: Env): Table {
    if group.None? then t
    else match group.value.combination
         case Alone => NormalDisconnect(t, s, group.value, env)
         case Mirror => NormalDisconnect(t, s, group.value, env)
         case Expand => ExpandDisconnect(t, s)
         case Other => t
  }

  function Step(t: Table, e: Event): Table {
    match e
    case Connect(s, group, env) => OnConnect(t, s, group, env)
    case Disconnect(s, group, env) => OnDisconnect(t, s, group, env)
  }

  function Run(events: seq<Event>): Table {
    if events == [] then EMPTY else Step(Run(events[..|events| - 1]), events[|events| - 1])
  }

  class AbstractDisplayController {
    var abstractDisplayMap: map<Id, AbstractDisplay>
    var displayCount: nat
    var notes: seq<Note>

    ghost predicate Valid()
      reads this, abstractDisplayMap.Values
    {
      forall k :: k in abstractDisplayMap ==> k < displayCount && abstractDisplayMap[k].id == k
    }

    ghost function Displays(): map<Id, Display>
      reads this, abstractDisplayMap.Values
    {
      map k | k in abstractDisplayMap :: abstractDisplayMap[k].View()
    }

    ghost function View(): Table
      reads this, abstractDisplayMap.Values
    {
      Table(Displays(), displayCount, notes)
    }

    constructor ()
      ensures Valid() && View() == EMPTY
    {
      abstractDisplayMap, displayCount, notes := map[], 0, [];
    }

    method FindByScreen(screenId: Id) returns (found: Option<Id>)
      requires Valid()
      ensures found == First(Displays(), screenId, 0, displayCount)
    {
      var i := 0;
      while i < displayCount
        invariant i <= displayCount
        invariant First(Displays(), screenId, 0, displayCount) == First(Displays(), screenId, i, displayCount)
      {
        if i in abstractDisplayMap && abstractDisplayMap[i].screenId == screenId {
          return Some(i);
        }
        i := i + 1;
      }
      return None;
    }

    method AddDisplay(info: Mode, s: Screen, position: Point)
      requires Valid()
      modifies this
      ensures Valid()
      ensures View() == Create(old(View()),
                               NewDisplay(old(displayCount), info, s.dmsId, s.rotation).(offset := position))
    {
      var display := new AbstractDisplay(displayCount, info, s.dmsId, s.rotation);
      display.SetOffset(position.x, position.y);
      abstractDisplayMap := abstractDisplayMap[displayCount := display];
      notes := notes + [Created(displayCount)];
      displayCount := displayCount + 1;
      assert Displays() == old(Displays())[old(displayCount) := display.View()];
    }

    method OnAbstractScreenConnect(s: Screen, group: Option<Group>, env: Env)
      requires Valid()
      modifies this
      ensures Valid() && View() == OnConnect(old(View()), s, group, env)
    {
      if group.None? {
        return;
      }
      if group.value.combination.Alone? || group.value.childCount == 1 {
        if env.defaultScreenId != INVALID_ID && env.defaultScreenId == s.dmsId && s.mode.Some? {
          AddDisplay(s.mode.value, s, ORIGIN);
        }
      } else if group.value.combination.Expand? {
        var shown := FindByScreen(s.dmsId);
        if shown.Some? {
          return;
        }
        var info := if !s.isVirtual then s.mode
                    else if env.defaultScreen.None? then None
                    else env.defaultScreen.value.mode;
        if info.Some? {
          AddDisplay(info.value, s, s.position);
        }
      }
    }

    method RemoveDisplay(k: Id)
      requires Valid() && k in abstractDisplayMap
      modifies this
      ensures Valid() && View() == Remove(old(View()), k)
    {
      abstractDisplayMap := abstractDisplayMap - {k};
      notes := notes + [Destroyed(k)];
      assert Displays() == old(Displays()) - {k};
    }

    method ProcessNormalScreenDisconnected(s: Screen, env: Env) returns (found: Option<Id>)
      requires Valid()
      modifies abstractDisplayMap.Values
      ensures Valid() && found == First(old(Displays()), s.dmsId, 0, displayCount)
      ensures Displays() == if found.None? then old(Displays())
                            else old(Displays())[found.value := Bind(old(Displays())[found.value], env.defaultScreen)]
    {
      found := FindByScreen(s.dmsId);
      if found.Some? {
        var _ := abstractDisplayMap[found.value].BindAbstractScreen(env.defaultScreen);
      }
    }

    /** One round of the loop below: any other screen's display moves to the origin. */
    method MoveOtherToOrigin(i: Id, screenId: Id) returns (same: bool)
      requires Valid() && i in abstractDisplayMap
      modifies abstractDisplayMap[i]
      ensures Valid() && (same <==> Shows(old(Displays()), i, screenId))
      ensures Displays() == old(Displays())[i := AtOrigin(old(Displays()), screenId)[i]]
    {
      var display := abstractDisplayMap[i];
      same := display.screenId == screenId;
      if !same {
        display.SetOffset(0, 0);
      }
    }

    method ProcessExpandScreenDisconnected(s: Screen) returns (found: Option<Id>)
      requires Valid()
      modifies abstractDisplayMap.Values
      ensures Valid() && found == Last(old(Displays()), s.dmsId, displayCount)
      ensures Displays() == AtOrigin(old(Displays()), s.dmsId)
    {
      hide First, Last, AtOriginBelow, AtOrigin;
      ghost var before := Displays();
      LastAt(before, s.dmsId, 0);
      AtOriginBelowAll(before, s.dmsId, displayCount);
      found := None;
      var i := 0;
      while i < displayCount
        invariant i <= displayCount && Valid()
        invariant found == Last(before, s.dmsId, i)
        invariant Displays() == AtOriginBelow(before, s.dmsId, i)
      {
        LastAt(before, s.dmsId, i);
        AtOriginBelowNext(before, s.dmsId, i);
        if i in abstractDisplayMap {
          var same := MoveOtherToOrigin(i, s.dmsId);
          if same {
            found := Some(i);
          }
        }
        i := i + 1;
      }
    }

    method OnAbstractScreenDisconnect(s: Screen, group: Option<Group>, env: Env)
      requires Valid()
      modifies this, abstractDisplayMap.Values
      ensures Valid() && View() == OnDisconnect(old(View()), s, group, env)
    {
      if group.None? {
        return;
      }
      match group.value.combination
      case Other =>
      case Expand =>
        var found := ProcessExpandScreenDisconnected(s);
        if found.Some? {
          RemoveDisplay(found.value);
        }
      case _ =>
        var found := ProcessNormalScreenDisconnected(s, env);
        if found.Some? && group.value.childCount == 0 {
          RemoveDisplay(found.value);
          assert Displays() == old(Displays()) - {found.value};
        }
    }
  }

  // ---------------------------------------------------------------- ids and notifications

  function CreatedCount(log: seq<Note>): nat {
    if log == [] then 0 else CreatedCount(log[..|log| - 1]) + (if log[|log| - 1].Created? then 1 else 0)
  }

  function DestroyedCount(log: seq<Note>): nat {
    if log == [] then 0 else DestroyedCount(log[..|log| - 1]) + (if log[|log| - 1].Destroyed? then 1 else 0)
  }

  /** The displays that a client who follows the notifications takes to exist. */
  function Live(log: seq<Note>): set<Id> {
    if log == [] then {}
    else match log[|log| - 1]
         case Created(id) => Live(log[..|log| - 1]) + {id}
         case Destroyed(id) => Live(log[..|log| - 1]) - {id}
  }

  /** Ids are handed out in order and never again, and only an existing display is destroyed. */
  predicate GoodLog(log: seq<Note>) {
    log != [] ==>
      && GoodLog(log[..|log| - 1])
      && match log[|log| - 1]
         case Created(id) => id == CreatedCount(log[..|log| - 1])
         case Destroyed(id) => id in Live(log[..|log| - 1])
  }

  predicate TableOk(t: Table) {
    && (forall k :: k in t.displays ==> k < t.count && t.displays[k].id == k)
    && GoodLog(t.log)
    && t.count == CreatedCount(t.log)
    && Live(t.log) == t.displays.Keys
  }

  lemma CreateKeepsTable(t: Table, d: Display)
    requires TableOk(t) && d.id == t.count
    ensures TableOk(Create(t, d))
  {
    assert (t.log + [Created(t.count)])[..|t.log|] == t.log;
  }

  lemma RemoveKeepsTable(t: Table, k: Id)
    requires TableOk(t) && k in t.displays
    ensures TableOk(Remove(t, k))
  {
    assert (t.log + [Destroyed(k)])[..|t.log|] == t.log;
    assert Remove(t, k).displays.Keys == t.displays.Keys - {k};
  }

  lemma StepKeepsTable(t: Table, e: Event)
    requires TableOk(t)
    ensures TableOk(Step(t, e))
  {
    hide GoodLog, Live, CreatedCount, First, Last;
    var s, group, env := e.screen, e.group, e.env;
    if group.None? {
      return;
    }
    if e.Connect? {
      if BindsAlone(s, env) {
        CreateKeepsTable(t, NewDisplay(t.count, s.mode.value, s.dmsId, s.rotation));
      }
      if ExpandMode(s, env).Some? {
        CreateKeepsTable(t, NewDisplay(t.count, ExpandMode(s, env).value, s.dmsId, s.rotation).(offset := s.position));
      }
    } else if group.value.combination.Expand? {
      var moved := t.(displays := AtOrigin(t.displays, s.dmsId));
      assert moved.displays.Keys == t.displays.Keys;
      var k := Last(t.displays, s.dmsId, t.count);
      if k.Some? {
        RemoveKeepsTable(moved, k.value);
      }
    } else {
      var k := First(t.displays, s.dmsId, 0, t.count);
      if k.Some? {
        RemoveKeepsTable(t, k.value);
        assert t.displays[k.value := Bind(t.displays[k.value], env.defaultScreen)].Keys == t.displays.Keys;
      }
    }
  }

  lemma {:induction false} LiveCounts(log: seq<Note>)
    requires GoodLog(log)
    ensures forall id :: id in Live(log) ==> id < CreatedCount(log)
    ensures CreatedCount(log) == DestroyedCount(log) + |Live(log)|
  {
    if log != [] {
      LiveCounts(log[..|log| - 1]);
    }
  }

  /** After any connects and disconnects: keys are ids below the counter, and the clients' view is the table. */
  lemma {:induction false} RunKeepsTable(events: seq<Event>)
    ensures var t := Run(events);
            && TableOk(t)
            && CreatedCount(t.log) - DestroyedCount(t.log) == |t.displays|
  {
    if events != [] {
      RunKeepsTable(events[..|events| - 1]);
      StepKeepsTable(Run(events[..|events| - 1]), events[|events| - 1]);
    }
    LiveCounts(Run(events).log);
  }

  /** No id is created twice. */
  lemma {:induction false} CreatedIdsAreDistinct(log: seq<Note>, i: nat, j: nat)
    requires GoodLog(log) && i < j < |log| && log[i].Created? && log[j].Created?
    ensures log[i].id < log[j].id
  {
    if j < |log| - 1 {
      CreatedIdsAreDistinct(log[..|log| - 1], i, j);
    } else {
      CreatedIdIsBelow(log[..j], i);
    }
  }

  lemma {:induction false} CreatedIdIsBelow(log: seq<Note>, i: nat)
    requires GoodLog(log) && i < |log| && log[i].Created?
    ensures log[i].id < CreatedCount(log)
  {
    if i < |log| - 1 {
      CreatedIdIsBelow(log[..|log| - 1], i);
    }
  }

  // ---------------------------------------------------------------- one display per screen

  predicate Injective(displays: map<Id, Display>) {
    forall j, k :: j in displays && k in displays && displays[j].screenId == displays[k].screenId ==> j == k
  }

  predicate ShownBeside(displays: map<Id, Display>, screenId: Id, k: Id) {
    exists j :: j in displays && j != k && displays[j].screenId == screenId
  }

  /** The events that put a second display on a screen, told from the state before them. */
  predicate Collides(t: Table, e: Event) {
    match e
    case Connect(s, Some(g), env) =>
      TakesAlone(g) && BindsAlone(s, env) && ShownBeside(t.displays, s.dmsId, t.count)
    case Disconnect(s, Some(g), env) =>
      && (g.combination.Alone? || g.combination.Mirror?)
      && g.childCount != 0
      && env.defaultScreen.Some? && env.defaultScreen.value.mode.Some?
      && var k := First(t.displays, s.dmsId, 0, t.count);
         k.Some? && ShownBeside(t.displays, env.defaultScreen.value.dmsId, k.value)
    case _ => false
  }

  lemma CreateAndInjective(t: Table, d: Display)
    requires TableOk(t) && Injective(t.displays)
    ensures Injective(Create(t, d).displays) <==> !ShownBeside(t.displays, d.screenId, t.count)
  {
    var after := Create(t, d).displays;
    if ShownBeside(t.displays, d.screenId, t.count) {
      var j :| j in t.displays && j != t.count && t.displays[j].screenId == d.screenId;
      assert after[j].screenId == after[t.count].screenId;
    }
  }

  lemma RebindAndInjective(t: Table, k: Id, d: Display)
    requires Injective(t.displays) && k in t.displays
    ensures Injective(t.displays[k := d]) <==> !ShownBeside(t.displays, d.screenId, k)
  {
    var after := t.displays[k := d];
    if ShownBeside(t.displays, d.screenId, k) {
      var j :| j in t.displays && j != k && t.displays[j].screenId == d.screenId;
      assert after[j].screenId == after[k].screenId;
    }
  }

  /** Whether a step keeps the one-display-per-screen relation is decided by `Collides`. */
  lemma StepIsInjectiveExactlyWithoutCollision(t: Table, e: Event)
    requires TableOk(t) && Injective(t.displays)
    ensures Injective(Step(t, e).displays) <==> !Collides(t, e)
  {
    hide GoodLog, Live, CreatedCount, First, Last;
    var s, group, env := e.screen, e.group, e.env;
    if group.None? {
      return;
    }
    if e.Connect? {
      if BindsAlone(s, env) {
        CreateAndInjective(t, NewDisplay(t.count, s.mode.value, s.dmsId, s.rotation));
      }
      if ExpandMode(s, env).Some? {
        var d := NewDisplay(t.count, ExpandMode(s, env).value, s.dmsId, s.rotation).(offset := s.position);
        CreateAndInjective(t, d);
        assert First(t.displays, s.dmsId, 0, t.count).None? ==>
            forall j :: j in t.displays ==> !Shows(t.displays, j, s.dmsId);
      }
    } else if group.value.combination.Expand? || group.value.combination.Other? {
    } else {
      var k := First(t.displays, s.dmsId, 0, t.count);
      if k.Some? {
        RebindAndInjective(t, k.value, Bind(t.displays[k.value], env.defaultScreen));
      }
    }
  }

  /** Alone connects are for a screen without a display, and alone or mirror disconnects concern the default screen. */
  predicate Orderly(t: Table, e: Event) {
    && EnvOk(e.env)
    && (e.group.Some? && e.Connect? && TakesAlone(e.group.value) ==>
          forall k :: k in t.displays ==> !Shows(t.displays, k, e.screen.dmsId))
    && (e.group.Some? && e.Disconnect? && !e.group.value.combination.Expand? ==>
          e.screen.dmsId == e.env.defaultScreenId)
  }

  lemma {:induction false} OrderlyRunsAreInjective(events: seq<Event>)
    requires forall i :: 0 <= i < |events| ==> Orderly(Run(events[..i]), events[i])
    ensures Injective(Run(events).displays)
  {
    if events != [] {
      var before, e := events[..|events| - 1], events[|events| - 1];
      forall i | 0 <= i < |before| ensures Orderly(Run(before[..i]), before[i]) {
        assert before[..i] == events[..i];
      }
      OrderlyRunsAreInjective(before);
      RunKeepsTable(before);
      assert Orderly(Run(before), e);
      StepIsInjectiveExactlyWithoutCollision(Run(before), e);
      OrderlyMeansNoCollision(Run(before), e);
    }
  }

  lemma OrderlyMeansNoCollision(t: Table, e: Event)
    requires Injective(t.displays) && Orderly(t, e)
    ensures !Collides(t, e)
  {
    assert e.group.Some? && e.Connect? && TakesAlone(e.group.value) ==>
        forall j :: j in t.displays ==> Shows(t.displays, j, t.displays[j].screenId);
  }

  // ---------------------------------------------------------------- connects

  /** One more display: with the next id, the size of the mode as the screen's rotation shows it, and a place. */
  predicate Adds(t: Table, after: Table, s: Screen, m: Mode, place: Point) {
    && after.displays.Keys == t.displays.Keys + {t.count}
    && (forall k :: k in t.displays ==> after.displays[k] == t.displays[k])
    && after.count == t.count + 1 && after.log == t.log + [Created(t.count)]
    && var d := after.displays[t.count];
       && IsOriented(d, m) && d.rotation == s.rotation && d.offset == place
       && d.id == t.count && d.screenId == s.dmsId && !d.compressed
  }

  lemma CreateAdds(t: Table, s: Screen, m: Mode, place: Point)
    requires TableOk(t)
    ensures Adds(t, Create(t, NewDisplay(t.count, m, s.dmsId, s.rotation).(offset := place)), s, m, place)
  {
    hide GoodLog, Live, CreatedCount, ToInt32;
    RotationsKeepOrientation(t.count, m, s.dmsId, s.rotation, []);
  }

  /** Connecting a screen without display to an expand group: a physical screen gets a display with its own mode, a
      virtual one with the mode of the default screen, at its place in the group; without that mode, or if the screen
      has a display, nothing happens. */
  lemma ExpandConnectPlacesDisplay(t: Table, s: Screen, env: Env, count: nat)
    requires TableOk(t) && count != 1
    ensures var after := OnConnect(t, s, Some(Group(Expand, count)), env);
            if exists k :: k in t.displays && Shows(t.displays, k, s.dmsId) then after == t
            else if !s.isVirtual then
              (after == t <==> s.mode.None?) && (s.mode.Some? ==> Adds(t, after, s, s.mode.value, s.position))
            else
              var shown := env.defaultScreen;
              && (after == t <==> shown.None? || shown.value.mode.None?)
              && (shown.Some? && shown.value.mode.Some? ==> Adds(t, after, s, shown.value.mode.value, s.position))
  {
    hide GoodLog, Live, CreatedCount;
    assert First(t.displays, s.dmsId, 0, t.count).None? <==>
             !exists k :: k in t.displays && Shows(t.displays, k, s.dmsId);
    if ExpandMode(s, env).Some? {
      CreateAdds(t, s, ExpandMode(s, env).value, s.position);
    }
  }

  /** Connecting a screen to an alone group, or as the only child of its group: exactly the default screen with a mode
      gets a display, at the origin. */
  lemma AloneConnectPlacesDisplay(t: Table, s: Screen, g: Group, env: Env)
    requires TableOk(t) && (g.combination == Alone || g.childCount == 1)
    ensures var after := OnConnect(t, s, Some(g), env);
            && (after == t <==> env.defaultScreenId == INVALID_ID || env.defaultScreenId != s.dmsId || s.mode.None?)
            && (after != t ==> s.mode.Some? && Adds(t, after, s, s.mode.value, ORIGIN))
  {
    hide GoodLog, Live, CreatedCount;
    if s.mode.Some? {
      CreateAdds(t, s, s.mode.value, ORIGIN);
      assert NewDisplay(t.count, s.mode.value, s.dmsId, s.rotation).offset == ORIGIN;
    }
  }

  /** All other connects and disconnects change nothing. */
  lemma OtherEventsChangeNothing(t: Table, s: Screen, env: Env, g: Group)
    ensures OnConnect(t, s, None, env) == t == OnDisconnect(t, s, None, env)
    ensures g.childCount != 1 && (g.combination == Mirror || g.combination == Other) ==>
              OnConnect(t, s, Some(g), env) == t
    ensures g.combination == Other ==> OnDisconnect(t, s, Some(g), env) == t
    ensures g.combination != Expand && (forall k :: k in t.displays ==> !Shows(t.displays, k, s.dmsId)) ==>
              OnDisconnect(t, s, Some(g), env) == t
  {}

  // ---------------------------------------------------------------- disconnects

  /** Disconnecting an expanded screen removes its last display alone and moves the displays of all other screens to the
      origin, also if the screen has no display. */
  lemma ExpandDisconnectRemovesOne(t: Table, s: Screen, env: Env, count: nat, k: Option<Id>)
    requires TableOk(t)
    requires k.Some? ==> Shows(t.displays, k.value, s.dmsId)
    requires forall j :: j in t.displays && Shows(t.displays, j, s.dmsId) ==> k.Some? && j <= k.value
    ensures var after := OnDisconnect(t, s, Some(Group(Expand, count)), env);
            && after.displays.Keys == t.displays.Keys - (if k.Some? then {k.value} else {})
            && (forall j :: j in after.displays ==>
                  after.displays[j] ==
                  if t.displays[j].screenId == s.dmsId then t.displays[j] else t.displays[j].(offset := ORIGIN))
            && after.log == t.log + (if k.Some? then [Destroyed(k.value)] else []) && after.count == t.count
  {
    hide GoodLog, Live, CreatedCount;
    assert Last(t.displays, s.dmsId, t.count) == k;
  }

  /** Expanding a new screen and disconnecting it again leaves the other displays, at the origin, and uses up an id. */
  lemma ExpandConnectIsUndone(t: Table, s: Screen, env: Env, count: nat)
    requires TableOk(t) && count != 1 && OnConnect(t, s, Some(Group(Expand, count)), env) != t
    ensures var g := Some(Group(Expand, count));
            var after := OnDisconnect(OnConnect(t, s, g, env), s, g, env);
            && after.displays.Keys == t.displays.Keys
            && (forall k :: k in t.displays ==> after.displays[k] == t.displays[k].(offset := ORIGIN))
            && after.log == t.log + [Created(t.count)] + [Destroyed(t.count)]
            && after.count == t.count + 1
  {
    hide OnConnect, OnDisconnect, TableOk, ExpandMode;
    var g := Some(Group(Expand, count));
    var connected := OnConnect(t, s, g, env);
    ExpandConnectPlacesDisplay(t, s, env, count);
    StepKeepsTable(t, Connect(s, g, env));
    NextIdIsFree(t);
    forall j | j in connected.displays && Shows(connected.displays, j, s.dmsId) ensures j == t.count {
      assert j in t.displays ==> !Shows(t.displays, j, s.dmsId);
    }
    ExpandDisconnectRemovesOne(connected, s, env, count, Some(t.count));
  }

  lemma NextIdIsFree(t: Table)
    requires TableOk(t)
    ensures t.count !in t.displays
  {}

  /** An alone or mirror disconnect moves the screen's first display to the default screen, unrotated: the size agrees
      with the display's rotation exactly when that is vertical or the mode square. Without a mode of the default screen
      the display stays as it is. An empty group takes the display with it. */
  lemma NormalDisconnectRebinds(t: Table, s: Screen, g: Group, env: Env, k: Id)
    requires TableOk(t) && Shows(t.displays, k, s.dmsId)
    requires forall j :: j in t.displays && Shows(t.displays, j, s.dmsId) ==> k <= j
    requires g.combination == Alone || g.combination == Mirror
    ensures var after := OnDisconnect(t, s, Some(g), env);
            && after.displays.Keys == t.displays.Keys - (if g.childCount == 0 then {k} else {})
            && after.log == t.log + (if g.childCount == 0 then [Destroyed(k)] else []) && after.count == t.count
            && (forall j :: j in after.displays && j != k ==> after.displays[j] == t.displays[j])
            && (k in after.displays ==>
                  var d := after.displays[k];
                  if env.defaultScreen.None? || env.defaultScreen.value.mode.None? then d == t.displays[k]
                  else
                    var to := env.defaultScreen.value;
                    var m := to.mode.value;
                    && d == t.displays[k].(screenId := to.dmsId, offset := to.position,
                                           width := ToInt32(m.width), height := ToInt32(m.height))
                    && (IsOriented(d, m) <==> IsVertical(d.rotation) || m.width == m.height))
  {
    hide GoodLog, Live, CreatedCount;
    assert First(t.displays, s.dmsId, 0, t.count) == Some(k);
    if env.defaultScreen.Some? && env.defaultScreen.value.mode.Some? {
      var m := env.defaultScreen.value.mode.value;
      hide ToInt32;
      CastIsInjective(m.width, m.height);
      CastIsInjective(m.height, m.width);
    }
  }
}
