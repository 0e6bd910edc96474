/**
 * Screen groups (AbstractScreenGroup): joining, leaving and reconnecting screens, and the client's removal of
 * repeated screens before a request to expand (ScreenManager::MakeExpand).
 */
module ScreenGroups {
  import opened DmTypes

  /** The fields of a screen that the group operations read or write; `hasNode` tells whether it has a display node. */
  datatype ScreenState = ScreenState(group: Id, lastGroup: Id, startPoint: Point, hasNode: bool, isReal: bool)

  datatype GroupState = GroupState(children: set<Id>, combination: Combination, mirrorScreen: Id, defaultScreen: Id)

  /** The recorded default screen comes back: it only gets a new display node. */
  predicate Reconnects(g: GroupState, s: ScreenState, id: Id) {
    s.hasNode && s.isReal && g.defaultScreen == id
  }

  /** A display node is needed and can be made, so that the start point is written. */
  function Placed(s: ScreenState, p: Point, canCreate: bool, needsNew: bool): ScreenState {
    if canCreate || (!needsNew && s.hasNode) then s.(startPoint := p, hasNode := true) else s
  }

  /** GetRSDisplayNodeConfig may replace the group's mirror screen by the default screen. */
  function Configured(g: GroupState, id: Id, defaultId: Id): GroupState {
    if g.combination.Mirror? && g.children != {} && g.mirrorScreen != id
       && (g.mirrorScreen == INVALID_ID || g.mirrorScreen !in g.children)
    then g.(mirrorScreen := defaultId) else g
  }

  datatype Added = Added(group: GroupState, screen: ScreenState, ok: bool)

  function Joined(g: GroupState, gid: Id, s: ScreenState, id: Id, p: Point, canCreate: bool, defaultId: Id): Added {
    if (id in g.children && !Reconnects(g, s, id)) || g.combination.Other? then Added(g, s, false)
    else
      var g' := Configured(g, id, defaultId);
      if Reconnects(g, s, id) then Added(g', Placed(s, p, canCreate, true), true)
      else
        Added(g'.(children := g'.children + {id}),
              Placed(s, p, canCreate, false).(lastGroup := s.group, group := gid), true)
  }

  function Left(g: GroupState, s: ScreenState, id: Id): (GroupState, ScreenState) {
    (g.(children := g.children - {id}),
     s.(lastGroup := s.group, group := INVALID_ID, startPoint := ORIGIN, hasNode := false))
  }

  function SetAside(g: GroupState, s: ScreenState, id: Id): (GroupState, ScreenState) {
    (g.(defaultScreen := id), s.(lastGroup := s.group))
  }

  // ---------------------------------------------------------------- all groups and screens

  datatype World = World(screens: map<Id, ScreenState>, groups: map<Id, GroupState>)

  datatype Event =
    | Add(gid: Id, id: Id, point: Point, canCreate: bool, defaultId: Id)
    | Remove(gid: Id, id: Id)
    | RemoveDefault(gid: Id, id: Id)

  predicate Known(w: World, e: Event) {
    e.gid in w.groups && e.id in w.screens && e.gid != INVALID_ID
  }

  /** A null group or screen changes nothing. */
  function Step(w: World, e: Event): World {
    if !Known(w, e) then w else
    var g, s := w.groups[e.gid], w.screens[e.id];
    match e
    case Add(gid, id, p, canCreate, defaultId) =>
      var a := Joined(g, gid, s, id, p, canCreate, defaultId);
      World(w.screens[id := a.screen], w.groups[gid := a.group])
    case Remove(gid, id) =>
      var (g', s') := Left(g, s, id);
      World(w.screens[id := s'], w.groups[gid := g'])
    case RemoveDefault(gid, id) =>
      var (g', s') := SetAside(g, s, id);
      World(w.screens[id := s'], w.groups[gid := g'])
  }

  /** A screen is in a group's map exactly when its group id names the group. So it is in at most one map, and in
      none when its group id is invalid. */
  predicate Partition(w: World) {
    && INVALID_ID !in w.groups
    && (forall gid :: gid in w.groups ==> w.groups[gid].children <= w.screens.Keys)
    && (forall gid, id :: gid in w.groups && id in w.screens ==>
          (id in w.groups[gid].children <==> w.screens[id].group == gid))
  }

  lemma PartitionMeansAtMostOneGroup(w: World, id: Id, g1: Id, g2: Id)
    requires Partition(w) && g1 in w.groups && g2 in w.groups
    requires id in w.groups[g1].children && id in w.groups[g2].children
    ensures g1 == g2 && id in w.screens && w.screens[id].group == g1
  {}

  predicate IsMember(w: World, gid: Id, id: Id) {
    gid in w.groups && id in w.groups[gid].children
  }

  predicate InSomeGroup(w: World, id: Id) {
    exists gid :: gid in w.groups && id in w.groups[gid].children
  }

  /** The steps that break the partition, told from the state before: taking in a screen that is in a group,
      and removing from one group a screen that is in another. */
  predicate Breaks(w: World, e: Event) {
    Known(w, e) &&
    match e
    case Add(gid, id, _, _, _) =>
      && !IsMember(w, gid, id) && !w.groups[gid].combination.Other?
      && !Reconnects(w.groups[gid], w.screens[id], id) && InSomeGroup(w, id)
    case Remove(gid, id) => !IsMember(w, gid, id) && InSomeGroup(w, id)
    case RemoveDefault(_, _) => false
  }

  lemma PartitionIsBroken(w: World, gid: Id, id: Id)
    requires gid in w.groups && id in w.screens && (id in w.groups[gid].children) != (w.screens[id].group == gid)
    ensures !Partition(w)
  {}

  /** Whether a step keeps the partition is decided by `Breaks`. */
  lemma StepKeepsPartitionExactly(w: World, e: Event)
    requires Partition(w)
    ensures Partition(Step(w, e)) <==> !Breaks(w, e)
  {
    var w' := Step(w, e);
    if Breaks(w, e) {
      var other :| other in w.groups && e.id in w.groups[other].children;
      assert w'.groups[other] == w.groups[other];
      PartitionIsBroken(w', other, e.id);
    } else {
      forall gid, id | gid in w'.groups && id in w'.screens
        ensures id in w'.groups[gid].children <==> w'.screens[id].group == gid
      {
        assert id in w.groups[gid].children <==> w.screens[id].group == gid;
        assert IsMember(w, gid, id) ==> InSomeGroup(w, id);
      }
    }
  }

  function Run(w: World, events: seq<Event>): World {
    if events == [] then w else Step(Run(w, events[..|events| - 1]), events[|events| - 1])
  }

  /** Additions are of ungrouped screens and removals of members; the default screen may go and come back. */
  predicate Orderly(w: World, e: Event) {
    Known(w, e) ==>
    match e
    case Add(gid, id, _, _, _) => w.screens[id].group == INVALID_ID || Reconnects(w.groups[gid], w.screens[id], id)
    case Remove(gid, id) => IsMember(w, gid, id)
    case RemoveDefault(_, _) => true
  }

  lemma {:induction false} OrderlyRunsKeepPartition(w: World, events: seq<Event>)
    requires Partition(w)
    requires forall i :: 0 <= i < |events| ==> Orderly(Run(w, events[..i]), events[i])
    ensures Partition(Run(w, events))
  {
    if events != [] {
      var n := |events| - 1;
      forall i | 0 <= i < n ensures Orderly(Run(w, events[..n][..i]), events[..n][i]) {
        assert events[..n][..i] == events[..i];
      }
      OrderlyRunsKeepPartition(w, events[..n]);
      var before := Run(w, events[..n]);
      assert Orderly(before, events[n]);
      assert forall gid :: IsMember(before, gid, events[n].id) ==> before.screens[events[n].id].group == gid;
      StepKeepsPartitionExactly(before, events[n]);
    }
  }

  /** Taking in an ungrouped screen and removing it again only leaves a trace in its last group and, possibly, in
      the group's choice of mirror screen. */
  lemma RemoveUndoesAdd(g: GroupState, gid: Id, s: ScreenState, id: Id, p: Point, canCreate: bool, defaultId: Id)
    requires id !in g.children && !Reconnects(g, s, id) && !g.combination.Other?
    requires s.group == INVALID_ID && s.startPoint == ORIGIN && !s.hasNode
    ensures var a := Joined(g, gid, s, id, p, canCreate, defaultId);
            var (g', s') := Left(a.group, a.screen, id);
            a.ok && g' == g.(mirrorScreen := g'.mirrorScreen) && s' == s.(lastGroup := gid)
  {}

  /** A mirror group with children that takes a screen in ends up mirroring a child or the default screen, and keeps
      a child that it mirrored before. */
  lemma MirrorChoice(g: GroupState, gid: Id, s: ScreenState, id: Id, p: Point, canCreate: bool, defaultId: Id)
    requires g.combination.Mirror? && g.children != {} && (id in g.children || !Reconnects(g, s, id))
    ensures var a := Joined(g, gid, s, id, p, canCreate, defaultId);
            a.ok ==>
              && (a.group.mirrorScreen == defaultId || a.group.mirrorScreen in a.group.children)
              && (g.mirrorScreen in g.children - {INVALID_ID} ==> a.group.mirrorScreen == g.mirrorScreen)
  {}

  /** The default screen of a group that is known from the events: the one that was set aside last. */
  function SetAsideLast(w: World, events: seq<Event>, gid: Id): Id
    requires gid in w.groups
  {
    if events == [] then w.groups[gid].defaultScreen
    else
      var e := events[|events| - 1];
      if e.RemoveDefault? && e.gid == gid && gid != INVALID_ID && e.id in w.screens then e.id
      else SetAsideLast(w, events[..|events| - 1], gid)
  }

  lemma {:induction false} DefaultScreenIsSetAsideLast(w: World, events: seq<Event>, gid: Id)
    requires gid in w.groups
    ensures var w' := Run(w, events);
            && w'.groups.Keys == w.groups.Keys && w'.screens.Keys == w.screens.Keys
            && w'.groups[gid].defaultScreen == SetAsideLast(w, events, gid)
  {
    if events != [] {
      DefaultScreenIsSetAsideLast(w, events[..|events| - 1], gid);
    }
  }

  /** A real screen with a display node that is set aside stays a child, and comes back at its new point; a child that
      was not set aside is refused. */
  lemma DefaultScreenComesBack(g: GroupState, gid: Id, s: ScreenState, id: Id, p: Point, canCreate: bool, defaultId: Id)
    requires id in g.children && s.isReal && s.hasNode && !g.combination.Other?
    ensures var (g', s') := SetAside(g, s, id);
            var a := Joined(g', gid, s', id, p, canCreate, defaultId);
            && a.ok && a.group.children == g.children && a.group.defaultScreen == id
            && a.screen == s.(lastGroup := s.group, startPoint := if canCreate then p else s.startPoint)
    ensures g.defaultScreen != id ==> Joined(g, gid, s, id, p, canCreate, defaultId) == Added(g, s, false)
  {}

  // ---------------------------------------------------------------- adding several screens

  datatype Many = Many(group: GroupState, screens: map<Id, ScreenState>, ok: bool)

  /** AddChildren: every screen is tried, in order; the result is the conjunction. */
  function AddAll(g: GroupState, gid: Id, screens: map<Id, ScreenState>, ids: seq<Id>, points: seq<Point>,
                  creatable: set<Id>, defaultId: Id): (m: Many)
    requires |ids| == |points| && forall i :: 0 <= i < |ids| ==> ids[i] in screens
    ensures m.screens.Keys == screens.Keys
  {
    if ids == [] then Many(g, screens, true)
    else
      var n := |ids| - 1;
      var m := AddAll(g, gid, screens, ids[..n], points[..n], creatable, defaultId);
      var a := Joined(m.group, gid, m.screens[ids[n]], ids[n], points[n], ids[n] in creatable, defaultId);
      Many(a.group, m.screens[ids[n] := a.screen], a.ok && m.ok)
  }

  lemma AddAllOfNone(g: GroupState, gid: Id, screens: map<Id, ScreenState>, ids: seq<Id>, points: seq<Point>,
                     creatable: set<Id>, defaultId: Id)
    requires |ids| == |points|
    ensures AddAll(g, gid, screens, ids[..0], points[..0], creatable, defaultId) == Many(g, screens, true)
  {}

  lemma AddAllSnoc(g: GroupState, gid: Id, screens: map<Id, ScreenState>, ids: seq<Id>, points: seq<Point>, id: Id,
                   p: Point, creatable: set<Id>, defaultId: Id)
    requires |ids| == |points| && (forall i :: 0 <= i < |ids| ==> ids[i] in screens) && id in screens
    ensures var m := AddAll(g, gid, screens, ids, points, creatable, defaultId);
            var a := Joined(m.group, gid, m.screens[id], id, p, id in creatable, defaultId);
            AddAll(g, gid, screens, ids + [id], points + [p], creatable, defaultId) ==
            Many(a.group, m.screens[id := a.screen], a.ok && m.ok)
  {
    hide Joined;
    assert (ids + [id])[..|ids|] == ids && (points + [p])[..|ids|] == points;
  }

  lemma AddAllAt(g: GroupState, gid: Id, screens: map<Id, ScreenState>, ids: seq<Id>, points: seq<Point>,
                 creatable: set<Id>, defaultId: Id, n: nat)
    requires |ids| == |points| && forall i :: 0 <= i < |ids| ==> ids[i] in screens
    requires n < |ids|
    ensures var m := AddAll(g, gid, screens, ids[..n], points[..n], creatable, defaultId);
            var a := Joined(m.group, gid, m.screens[ids[n]], ids[n], points[n], ids[n] in creatable, defaultId);
            AddAll(g, gid, screens, ids[..n + 1], points[..n + 1], creatable, defaultId) ==
            Many(a.group, m.screens[ids[n] := a.screen], a.ok && m.ok)
  {
    hide AddAll, Joined;
    AddAllSnoc(g, gid, screens, ids[..n], points[..n], ids[n], points[n], creatable, defaultId);
    assert ids[..n + 1] == ids[..n] + [ids[n]] && points[..n + 1] == points[..n] + [points[n]];
  }

  /** The first n additions. */
  function AddFirst(g: GroupState, gid: Id, screens: map<Id, ScreenState>, ids: seq<Id>, points: seq<Point>,
                    creatable: set<Id>, defaultId: Id, n: nat): (m: Many)
    requires |ids| == |points| && forall i :: 0 <= i < |ids| ==> ids[i] in screens
    requires n <= |ids|
    ensures n == 0 ==> m == Many(g, screens, true)
    ensures n == |ids| ==> m == AddAll(g, gid, screens, ids, points, creatable, defaultId)
    ensures m.screens.Keys == screens.Keys
  {
    assert ids[..|ids|] == ids && points[..|ids|] == points;
    AddAll(g, gid, screens, ids[..n], points[..n], creatable, defaultId)
  }

  lemma AddFirstNext(g: GroupState, gid: Id, screens: map<Id, ScreenState>, ids: seq<Id>, points: seq<Point>,
                     creatable: set<Id>, defaultId: Id, n: nat)
    requires |ids| == |points| && forall i :: 0 <= i < |ids| ==> ids[i] in screens
    requires n < |ids|
    ensures var m := AddFirst(g, gid, screens, ids, points, creatable, defaultId, n);
            var a := Joined(m.group, gid, m.screens[ids[n]], ids[n], points[n], ids[n] in creatable, defaultId);
            AddFirst(g, gid, screens, ids, points, creatable, defaultId, n + 1) ==
            Many(a.group, m.screens[ids[n] := a.screen], a.ok && m.ok)
  {
    hide AddAll, Joined;
    AddAllAt(g, gid, screens, ids, points, creatable, defaultId, n);
  }

  /** The positions of first occurrences: what MakeExpand keeps. */
  function FirstIds(ids: seq<Id>): (r: seq<Id>)
    ensures forall id :: id in r <==> id in ids
  {
    if ids == [] then []
    else
      var n := |ids| - 1;
      var r := FirstIds(ids[..n]);
      assert ids == ids[..n] + [ids[n]];
      if ids[n] in r then r else r + [ids[n]]
  }

  function FirstPoints(ids: seq<Id>, points: seq<Point>): (r: seq<Point>)
    requires |ids| == |points|
    ensures |r| == |FirstIds(ids)|
  {
    if ids == [] then []
    else
      var n := |ids| - 1;
      var r := FirstPoints(ids[..n], points[..n]);
      if ids[n] in FirstIds(ids[..n]) then r else r + [points[n]]
  }

  predicate Distinct(ids: seq<Id>) {
    forall i, j :: 0 <= i < j < |ids| ==> ids[i] != ids[j]
  }

  lemma {:induction false} FirstIdsAreDistinct(ids: seq<Id>)
    ensures Distinct(FirstIds(ids))
    ensures FirstIds(ids) == ids <==> Distinct(ids)
    ensures |FirstIds(ids)| <= |ids|
  {
    hide Distinct;
    if ids == [] {
      DistinctSnoc([], 0);
    } else {
      var n := |ids| - 1;
      FirstIdsAreDistinct(ids[..n]);
      DistinctSnoc(ids[..n], ids[n]);
      DistinctSnoc(FirstIds(ids[..n]), ids[n]);
      assert ids == ids[..n] + [ids[n]];
    }
  }

  lemma DistinctSnoc(ids: seq<Id>, id: Id)
    ensures Distinct([])
    ensures Distinct(ids + [id]) <==> Distinct(ids) && id !in ids
  {
    var longer := ids + [id];
    assert forall i :: 0 <= i < |ids| ==> longer[i] == ids[i];
    assert longer[|ids|] == id;
  }

  // ---------------------------------------------------------------- what a list of additions leaves

  /** The group has the screen after the listed additions; a reconnected default screen does not join. */
  predicate HasAfter(g: GroupState, screens: map<Id, ScreenState>, ids: seq<Id>, id: Id)
    requires forall i :: 0 <= i < |ids| ==> ids[i] in screens
  {
    id in g.children || (!g.combination.Other? && id in ids && !Reconnects(g, screens[id], id))
  }

  /** A screen that is taken in each time it is listed: the recorded default screen, if it has a display node or
      gets one when it first joins. */
  predicate Repeatable(g: GroupState, s: ScreenState, id: Id, canCreate: bool) {
    g.defaultScreen == id && s.isReal && (s.hasNode || (id !in g.children && canCreate))
  }

  /** The screen is taken in after the additions of `before`. */
  predicate Accepted(g: GroupState, screens: map<Id, ScreenState>, before: seq<Id>, creatable: set<Id>, id: Id)
    requires id in screens
  {
    && !g.combination.Other?
    && (Repeatable(g, screens[id], id, id in creatable) || (id !in g.children && id !in before))
  }

  /** The mirror screen is no longer of use to a mirror group that takes the screen in after the additions of
      `before`. */
  predicate Remirrors(g: GroupState, screens: map<Id, ScreenState>, before: seq<Id>, creatable: set<Id>, id: Id)
    requires (forall i :: 0 <= i < |before| ==> before[i] in screens) && id in screens
  {
    && g.combination.Mirror?
    && Accepted(g, screens, before, creatable, id)
    && (g.children != {} || exists i :: 0 <= i < |before| && HasAfter(g, screens, before, before[i]))
    && g.mirrorScreen != id
    && (g.mirrorScreen == INVALID_ID || !HasAfter(g, screens, before, g.mirrorScreen))
  }

  /** So does the addition at position i of a list. */
  predicate RemirrorsAt(g: GroupState, screens: map<Id, ScreenState>, ids: seq<Id>, creatable: set<Id>, i: nat)
    requires (forall k :: 0 <= k < |ids| ==> ids[k] in screens) && i < |ids|
  {
    Remirrors(g, screens, ids[..i], creatable, ids[i])
  }

  predicate ListedBefore(ids: seq<Id>, i: nat)
    requires i < |ids|
  {
    ids[i] in ids[..i]
  }

  lemma SameInPrefix(g: GroupState, screens: map<Id, ScreenState>, ids: seq<Id>, creatable: set<Id>, n: nat)
    requires (forall k :: 0 <= k < |ids| ==> ids[k] in screens) && n <= |ids|
    ensures forall i :: 0 <= i < n ==>
              && ListedBefore(ids[..n], i) == ListedBefore(ids, i)
              && RemirrorsAt(g, screens, ids[..n], creatable, i) == RemirrorsAt(g, screens, ids, creatable, i)
  {
    hide Remirrors;
    assert forall i :: 0 <= i < n ==> ids[..n][..i] == ids[..i] && ids[..n][i] == ids[i];
  }

  function FirstIndex(ids: seq<Id>, id: Id): (k: nat)
    requires id in ids
    ensures k < |ids| && ids[k] == id && id !in ids[..k]
  {
    var n := |ids| - 1;
    assert ids == ids[..n] + [ids[n]];
    if id !in ids[..n] then n
    else
      var k := FirstIndex(ids[..n], id);
      assert ids[..n][..k] == ids[..k];
      k
  }

  function LastIndex(ids: seq<Id>, id: Id): (k: nat)
    requires id in ids
    ensures k < |ids| && ids[k] == id && id !in ids[k + 1..]
  {
    var n := |ids| - 1;
    assert ids == ids[..n] + [ids[n]];
    if ids[n] == id then n
    else
      var k := LastIndex(ids[..n], id);
      assert ids[k + 1..] == ids[..n][k + 1..] + [ids[n]];
      k
  }

  function FirstAt(ids: seq<Id>, points: seq<Point>, id: Id): Point
    requires |ids| == |points| && id in ids
  {
    points[FirstIndex(ids, id)]
  }

  function LastAt(ids: seq<Id>, points: seq<Point>, id: Id): Point
    requires |ids| == |points| && id in ids
  {
    points[LastIndex(ids, id)]
  }

  /** A listed screen in the end: a recorded default screen with a display node goes from point to point, any other
      screen joins once, at its first point, unless the group has it already. */
  function Final(g: GroupState, gid: Id, s: ScreenState, id: Id, first: Point, last: Point, canCreate: bool):
      ScreenState {
    if g.combination.Other? then s
    else if Reconnects(g, s, id) then if canCreate then s.(startPoint := last) else s
    else if id in g.children then s
    else
      var point := if !canCreate && !s.hasNode then s.startPoint
                   else if Repeatable(g, s, id, canCreate) then last
                   else first;
      ScreenState(gid, s.group, point, canCreate || s.hasNode, s.isReal)
  }

  /** The first time that a screen is listed. */
  lemma FinalOnce(g: GroupState, m: GroupState, gid: Id, s: ScreenState, id: Id, p: Point, canCreate: bool,
                  defaultId: Id)
    requires m.combination == g.combination && m.defaultScreen == g.defaultScreen
    requires id in m.children <==> id in g.children
    ensures var a := Joined(m, gid, s, id, p, canCreate, defaultId);
            && a.screen == Final(g, gid, s, id, p, p, canCreate)
            && (a.ok <==> !g.combination.Other? && (Repeatable(g, s, id, canCreate) || id !in g.children))
            && a.group.children ==
               (if g.combination.Other? || Reconnects(g, s, id) then m.children else m.children + {id})
  {}

  /** Any later time. */
  lemma FinalAgain(g: GroupState, m: GroupState, gid: Id, s: ScreenState, id: Id, first: Point, last: Point, p: Point,
                   canCreate: bool, defaultId: Id)
    requires m.combination == g.combination && m.defaultScreen == g.defaultScreen
    requires id in m.children <==> id in g.children || (!g.combination.Other? && !Reconnects(g, s, id))
    ensures var a := Joined(m, gid, Final(g, gid, s, id, first, last, canCreate), id, p, canCreate, defaultId);
            && a.screen == Final(g, gid, s, id, first, p, canCreate)
            && (a.ok <==> !g.combination.Other? && Repeatable(g, s, id, canCreate))
            && a.group.children == m.children
  {}

  lemma JoinedGroup(m: GroupState, gid: Id, s: ScreenState, id: Id, p: Point, canCreate: bool, defaultId: Id)
    ensures var a := Joined(m, gid, s, id, p, canCreate, defaultId);
            && a.group == m.(children := a.group.children, mirrorScreen := a.group.mirrorScreen)
            && a.group.mirrorScreen == (if a.ok then Configured(m, id, defaultId) else m).mirrorScreen
            && m.children <= a.group.children <= m.children + {id}
  {}

  /** What the additions leave of one screen, listed or not. */
  lemma {:induction false} ScreenAfter(g: GroupState, gid: Id, screens: map<Id, ScreenState>, ids: seq<Id>,
                                       points: seq<Point>, creatable: set<Id>, defaultId: Id, id: Id)
    requires |ids| == |points| && forall i :: 0 <= i < |ids| ==> ids[i] in screens
    ensures var m := AddAll(g, gid, screens, ids, points, creatable, defaultId);
            && m.group == g.(children := m.group.children, mirrorScreen := m.group.mirrorScreen)
            && (id in m.group.children <==> HasAfter(g, screens, ids, id))
            && (id in screens ==>
                  m.screens[id] ==
                  if id !in ids then screens[id]
                  else Final(g, gid, screens[id], id, FirstAt(ids, points, id), LastAt(ids, points, id),
                             id in creatable))
  {
    hide Joined, Final, Reconnects;
    if ids != [] {
      var n := |ids| - 1;
      var m := AddAll(g, gid, screens, ids[..n], points[..n], creatable, defaultId);
      assert ids == ids[..n] + [ids[n]];
      ScreenAfter(g, gid, screens, ids[..n], points[..n], creatable, defaultId, id);
      JoinedGroup(m.group, gid, m.screens[ids[n]], ids[n], points[n], ids[n] in creatable, defaultId);
      if ids[n] == id {
        if id in ids[..n] {
          FinalAgain(g, m.group, gid, screens[id], id, FirstAt(ids[..n], points[..n], id),
                     LastAt(ids[..n], points[..n], id), points[n], id in creatable, defaultId);
        } else {
          FinalOnce(g, m.group, gid, screens[id], id, points[n], id in creatable, defaultId);
        }
      }
    }
  }

  /** The next addition after a list of them: whether it is accepted, and what becomes of the mirror screen. */
  lemma NextAddition(g: GroupState, gid: Id, screens: map<Id, ScreenState>, ids: seq<Id>, points: seq<Point>,
                     creatable: set<Id>, defaultId: Id, id: Id, p: Point)
    requires |ids| == |points| && (forall i :: 0 <= i < |ids| ==> ids[i] in screens) && id in screens
    ensures var m := AddAll(g, gid, screens, ids, points, creatable, defaultId);
            var a := Joined(m.group, gid, m.screens[id], id, p, id in creatable, defaultId);
            && (a.ok <==> Accepted(g, screens, ids, creatable, id))
            && (m.group.mirrorScreen == g.mirrorScreen || m.group.mirrorScreen == defaultId ==>
                  a.group.mirrorScreen ==
                  if Remirrors(g, screens, ids, creatable, id) then defaultId else m.group.mirrorScreen)
  {
    hide AddAll, Joined, Final, Reconnects, Repeatable, FirstAt, LastAt;
    var m := AddAll(g, gid, screens, ids, points, creatable, defaultId);
    ScreenAfter(g, gid, screens, ids, points, creatable, defaultId, id);
    ScreenAfter(g, gid, screens, ids, points, creatable, defaultId, g.mirrorScreen);
    ChildrenAfter(g, gid, screens, ids, points, creatable, defaultId);
    JoinedGroup(m.group, gid, m.screens[id], id, p, id in creatable, defaultId);
    if id in ids {
      FinalAgain(g, m.group, gid, screens[id], id, FirstAt(ids, points, id), LastAt(ids, points, id), p,
                 id in creatable, defaultId);
    } else {
      FinalOnce(g, m.group, gid, screens[id], id, p, id in creatable, defaultId);
    }
  }

  lemma ChildrenAfter(g: GroupState, gid: Id, screens: map<Id, ScreenState>, ids: seq<Id>, points: seq<Point>,
                      creatable: set<Id>, defaultId: Id)
    requires |ids| == |points| && forall i :: 0 <= i < |ids| ==> ids[i] in screens
    ensures var m := AddAll(g, gid, screens, ids, points, creatable, defaultId);
            && (forall id :: id in m.group.children <==> HasAfter(g, screens, ids, id))
            && (m.group.children != {} <==>
                g.children != {} || exists i :: 0 <= i < |ids| && HasAfter(g, screens, ids, ids[i]))
  {
    hide AddAll, Final, Reconnects, FirstAt, LastAt;
    var m := AddAll(g, gid, screens, ids, points, creatable, defaultId);
    forall id ensures id in m.group.children <==> HasAfter(g, screens, ids, id) {
      ScreenAfter(g, gid, screens, ids, points, creatable, defaultId, id);
    }
    if id :| id in m.group.children {
      assert HasAfter(g, screens, ids, id);
    } else {
      assert forall id :: id in g.children ==> HasAfter(g, screens, ids, id);
    }
  }

  /** After any additions the group has what it had and all that was listed, but not a default screen that only
      reconnects. They all succeed exactly if every screen but a repeatable one is fresh and listed once. */
  lemma {:induction false} AddAllJoins(g: GroupState, gid: Id, screens: map<Id, ScreenState>, ids: seq<Id>,
                                       points: seq<Point>, creatable: set<Id>, defaultId: Id)
    requires |ids| == |points| && forall i :: 0 <= i < |ids| ==> ids[i] in screens
    ensures var m := AddAll(g, gid, screens, ids, points, creatable, defaultId);
            && m.group == g.(children := m.group.children, mirrorScreen := m.group.mirrorScreen)
            && (forall id :: id in m.group.children <==> HasAfter(g, screens, ids, id))
            && (m.ok <==> forall i :: 0 <= i < |ids| ==> Accepted(g, screens, ids[..i], creatable, ids[i]))
  {
    hide AddAll, Joined, Accepted, HasAfter, Final, FirstAt, LastAt;
    ScreenAfter(g, gid, screens, ids, points, creatable, defaultId, 0);
    ChildrenAfter(g, gid, screens, ids, points, creatable, defaultId);
    if ids == [] {
      AddAllOfNone(g, gid, screens, ids, points, creatable, defaultId);
      assert ids == ids[..0] && points == points[..0];
    } else {
      var n := |ids| - 1;
      AddAllJoins(g, gid, screens, ids[..n], points[..n], creatable, defaultId);
      AddAllAt(g, gid, screens, ids, points, creatable, defaultId, n);
      NextAddition(g, gid, screens, ids[..n], points[..n], creatable, defaultId, ids[n], points[n]);
      assert ids[..n + 1] == ids && points[..n + 1] == points;
      assert forall i :: 0 <= i < n ==> ids[..n][..i] == ids[..i] && ids[..n][i] == ids[i];
    }
  }

  /** The group mirrors another screen afterwards exactly if one of the additions was a reason to. */
  lemma {:induction false} MirrorAfter(g: GroupState, gid: Id, screens: map<Id, ScreenState>, ids: seq<Id>,
                                       points: seq<Point>, creatable: set<Id>, defaultId: Id)
    requires |ids| == |points| && forall i :: 0 <= i < |ids| ==> ids[i] in screens
    ensures AddAll(g, gid, screens, ids, points, creatable, defaultId).group.mirrorScreen ==
            if exists i :: 0 <= i < |ids| && RemirrorsAt(g, screens, ids, creatable, i) then defaultId
            else g.mirrorScreen
  {
    hide AddAll, Joined, Remirrors, Accepted;
    if ids == [] {
      AddAllOfNone(g, gid, screens, ids, points, creatable, defaultId);
      assert ids == ids[..0] && points == points[..0];
    } else {
      var n := |ids| - 1;
      MirrorAfter(g, gid, screens, ids[..n], points[..n], creatable, defaultId);
      AddAllAt(g, gid, screens, ids, points, creatable, defaultId, n);
      NextAddition(g, gid, screens, ids[..n], points[..n], creatable, defaultId, ids[n], points[n]);
      assert ids[..n + 1] == ids && points[..n + 1] == points;
      SameInPrefix(g, screens, ids, creatable, n);
      assert RemirrorsAt(g, screens, ids, creatable, n) == Remirrors(g, screens, ids[..n], creatable, ids[n]);
    }
  }

  /** A screen that the group did not have joins, with the point of position k, where it is first listed, unless it
      has no display node and can get none. Only a default screen then goes on to its last point. */
  lemma FreshScreensJoinAtFirstPoint(g: GroupState, gid: Id, screens: map<Id, ScreenState>, ids: seq<Id>,
                                     points: seq<Point>, creatable: set<Id>, defaultId: Id, k: nat)
    requires |ids| == |points| && forall i :: 0 <= i < |ids| ==> ids[i] in screens
    requires !g.combination.Other? && k < |ids| && ids[k] !in ids[..k] && ids[k] !in g.children
    requires !Reconnects(g, screens[ids[k]], ids[k])
    ensures var old', s := screens[ids[k]], AddAll(g, gid, screens, ids, points, creatable, defaultId).screens[ids[k]];
            && s.group == gid && s.lastGroup == old'.group && s.isReal == old'.isReal
            && (s.hasNode <==> old'.hasNode || ids[k] in creatable)
            && (!s.hasNode ==> s.startPoint == old'.startPoint)
            && (s.hasNode && (g.defaultScreen != ids[k] || !s.isReal) ==> s.startPoint == points[k])
  {
    hide AddAll;
    ScreenAfter(g, gid, screens, ids, points, creatable, defaultId, ids[k]);
    FirstAtIs(ids, points, k);
  }

  lemma NotBefore(ids: seq<Id>, k: nat, id: Id)
    requires k <= |ids| && id !in ids[..k]
    ensures forall i :: 0 <= i < k ==> ids[i] != id
  {
    assert forall i :: 0 <= i < k ==> ids[..k][i] == ids[i];
  }

  lemma FirstAtIs(ids: seq<Id>, points: seq<Point>, k: nat)
    requires |ids| == |points| && k < |ids| && ids[k] !in ids[..k]
    ensures FirstAt(ids, points, ids[k]) == points[k]
  {
    NotBefore(ids, k, ids[k]);
    NotBefore(ids, FirstIndex(ids, ids[k]), ids[k]);
  }

  // ---------------------------------------------------------------- with and without repetitions

  lemma FirstIdsSnoc(ids: seq<Id>, points: seq<Point>, id: Id, p: Point)
    requires |ids| == |points|
    ensures FirstIds(ids + [id]) == if id in ids then FirstIds(ids) else FirstIds(ids) + [id]
    ensures FirstPoints(ids + [id], points + [p]) ==
            if id in ids then FirstPoints(ids, points) else FirstPoints(ids, points) + [p]
  {
    assert (ids + [id])[..|ids|] == ids && (points + [p])[..|ids|] == points;
  }

  lemma {:induction false} FirstPointsAreFirst(ids: seq<Id>, points: seq<Point>, id: Id)
    requires |ids| == |points| && id in ids
    ensures var r, q := FirstIds(ids), FirstPoints(ids, points);
            FirstAt(r, q, id) == LastAt(r, q, id) == FirstAt(ids, points, id)
  {
    hide FirstIds, FirstPoints, FirstAt, LastAt;
    var n := |ids| - 1;
    var r, q := FirstIds(ids[..n]), FirstPoints(ids[..n], points[..n]);
    assert ids == ids[..n] + [ids[n]] && points == points[..n] + [points[n]];
    if id in ids[..n] {
      FirstPointsAreFirst(ids[..n], points[..n], id);
    }
    FirstIdsSnoc(ids[..n], points[..n], ids[n], points[n]);
    PointsSnoc(ids[..n], points[..n], ids[n], points[n], id);
    PointsSnoc(r, q, ids[n], points[n], id);
  }

  /** One more screen in a list, and the points of a screen. */
  lemma PointsSnoc(ids: seq<Id>, points: seq<Point>, next: Id, p: Point, id: Id)
    requires |ids| == |points| && id in ids + [next]
    ensures FirstAt(ids + [next], points + [p], id) == if id in ids then FirstAt(ids, points, id) else p
    ensures LastAt(ids + [next], points + [p], id) == if id == next then p else LastAt(ids, points, id)
  {
    assert (ids + [next])[..|ids|] == ids;
  }

  lemma FinalByLastPoint(g: GroupState, gid: Id, s: ScreenState, id: Id, first: Point, last: Point, canCreate: bool)
    ensures Final(g, gid, s, id, first, last, canCreate) == Final(g, gid, s, id, first, first, canCreate) <==>
              g.combination.Other? || !canCreate || !Repeatable(g, s, id, canCreate) || first == last
  {}

  /** The default screen is listed at different points and goes from one to the other. */
  predicate DefaultScreenMoves(g: GroupState, screens: map<Id, ScreenState>, ids: seq<Id>, points: seq<Point>,
                               creatable: set<Id>)
    requires |ids| == |points| && forall i :: 0 <= i < |ids| ==> ids[i] in screens
  {
    var d := g.defaultScreen;
    && !g.combination.Other? && d in ids && d in creatable && screens[d].isReal
    && (screens[d].hasNode || d !in g.children)
    && FirstAt(ids, points, d) != LastAt(ids, points, d)
  }

  /** The additions that the client asks for: each screen once, at its first point. */
  function AddOnce(g: GroupState, gid: Id, screens: map<Id, ScreenState>, ids: seq<Id>, points: seq<Point>,
                   creatable: set<Id>, defaultId: Id): (m: Many)
    requires |ids| == |points| && forall i :: 0 <= i < |ids| ==> ids[i] in screens
    ensures m.screens.Keys == screens.Keys
  {
    var r := FirstIds(ids);
    assert forall i :: 0 <= i < |r| ==> r[i] in ids;
    AddAll(g, gid, screens, r, FirstPoints(ids, points), creatable, defaultId)
  }

  lemma ScreenAfterOnce(g: GroupState, gid: Id, screens: map<Id, ScreenState>, ids: seq<Id>, points: seq<Point>,
                        creatable: set<Id>, defaultId: Id, id: Id)
    requires |ids| == |points| && forall i :: 0 <= i < |ids| ==> ids[i] in screens
    ensures var m := AddOnce(g, gid, screens, ids, points, creatable, defaultId);
            && m.group == g.(children := m.group.children, mirrorScreen := m.group.mirrorScreen)
            && (id in m.group.children <==> HasAfter(g, screens, ids, id))
            && (id in screens ==>
                  m.screens[id] ==
                  if id !in ids then screens[id]
                  else Final(g, gid, screens[id], id, FirstAt(ids, points, id), FirstAt(ids, points, id),
                             id in creatable))
  {
    hide AddAll, Final, FirstIds, FirstPoints, FirstAt, LastAt, Reconnects;
    var r := FirstIds(ids);
    assert forall i :: 0 <= i < |r| ==> r[i] in ids;
    ScreenAfter(g, gid, screens, r, FirstPoints(ids, points), creatable, defaultId, id);
    if id in ids {
      FirstPointsAreFirst(ids, points, id);
    }
  }

  /** The lists with and without repetitions leave the same group, but for the choice of mirror screen, and the same
      screens exactly if no default screen is moved by being repeated. */
  lemma DeduplicationIsTransparent(g: GroupState, gid: Id, screens: map<Id, ScreenState>, ids: seq<Id>,
                                   points: seq<Point>, creatable: set<Id>, defaultId: Id)
    requires |ids| == |points| && forall i :: 0 <= i < |ids| ==> ids[i] in screens
    ensures var all := AddAll(g, gid, screens, ids, points, creatable, defaultId);
            var once := AddOnce(g, gid, screens, ids, points, creatable, defaultId);
            && all.group == once.group.(mirrorScreen := all.group.mirrorScreen)
            && (all.screens == once.screens <==> !DefaultScreenMoves(g, screens, ids, points, creatable))
  {
    hide AddAll, AddOnce, Final, FirstAt, LastAt, HasAfter, DefaultScreenMoves;
    var all := AddAll(g, gid, screens, ids, points, creatable, defaultId);
    var once := AddOnce(g, gid, screens, ids, points, creatable, defaultId);
    forall id ensures id in all.group.children <==> id in once.group.children {
      ScreenAfter(g, gid, screens, ids, points, creatable, defaultId, id);
      ScreenAfterOnce(g, gid, screens, ids, points, creatable, defaultId, id);
    }
    ScreenAfter(g, gid, screens, ids, points, creatable, defaultId, 0);
    ScreenAfterOnce(g, gid, screens, ids, points, creatable, defaultId, 0);
    forall id | id in screens
      ensures all.screens[id] == once.screens[id] <==>
                !(id == g.defaultScreen && DefaultScreenMoves(g, screens, ids, points, creatable))
    {
      SameScreen(g, gid, screens, ids, points, creatable, defaultId, id);
    }
    if DefaultScreenMoves(g, screens, ids, points, creatable) {
      MovingScreenIsListed(g, screens, ids, points, creatable);
      assert all.screens[g.defaultScreen] != once.screens[g.defaultScreen];
    }
  }

  lemma MovingScreenIsListed(g: GroupState, screens: map<Id, ScreenState>, ids: seq<Id>, points: seq<Point>,
                             creatable: set<Id>)
    requires |ids| == |points| && forall i :: 0 <= i < |ids| ==> ids[i] in screens
    requires DefaultScreenMoves(g, screens, ids, points, creatable)
    ensures g.defaultScreen in screens
  {}

  lemma SameScreen(g: GroupState, gid: Id, screens: map<Id, ScreenState>, ids: seq<Id>, points: seq<Point>,
                   creatable: set<Id>, defaultId: Id, id: Id)
    requires |ids| == |points| && (forall i :: 0 <= i < |ids| ==> ids[i] in screens) && id in screens
    ensures AddAll(g, gid, screens, ids, points, creatable, defaultId).screens[id] ==
            AddOnce(g, gid, screens, ids, points, creatable, defaultId).screens[id] <==>
              !(id == g.defaultScreen && DefaultScreenMoves(g, screens, ids, points, creatable))
  {
    hide AddAll, AddOnce, Final, FirstAt, LastAt, HasAfter;
    ScreenAfter(g, gid, screens, ids, points, creatable, defaultId, id);
    ScreenAfterOnce(g, gid, screens, ids, points, creatable, defaultId, id);
    if id in ids {
      FinalByLastPoint(g, gid, screens[id], id, FirstAt(ids, points, id), LastAt(ids, points, id), id in creatable);
    }
  }

  /** A default screen that moves ends at its last listed point, and without the repetitions at its first. */
  lemma RepetitionMovesDefaultScreen(g: GroupState, gid: Id, screens: map<Id, ScreenState>, ids: seq<Id>,
                                     points: seq<Point>, creatable: set<Id>, defaultId: Id)
    requires |ids| == |points| && forall i :: 0 <= i < |ids| ==> ids[i] in screens
    requires DefaultScreenMoves(g, screens, ids, points, creatable)
    ensures var d := g.defaultScreen;
            var all := AddAll(g, gid, screens, ids, points, creatable, defaultId);
            var once := AddOnce(g, gid, screens, ids, points, creatable, defaultId);
            && all.screens[d].startPoint == LastAt(ids, points, d)
            && once.screens[d].startPoint == FirstAt(ids, points, d)
  {
    hide AddAll, AddOnce, FirstAt, LastAt, HasAfter;
    ScreenAfter(g, gid, screens, ids, points, creatable, defaultId, g.defaultScreen);
    ScreenAfterOnce(g, gid, screens, ids, points, creatable, defaultId, g.defaultScreen);
  }

  /** What an addition does to the mirror screen depends on the set of screens before it only. */
  lemma RemirrorsBySet(g: GroupState, screens: map<Id, ScreenState>, a: seq<Id>, b: seq<Id>, creatable: set<Id>, id: Id)
    requires (forall i :: 0 <= i < |a| ==> a[i] in screens) && (forall i :: 0 <= i < |b| ==> b[i] in screens)
    requires id in screens && forall x :: x in a <==> x in b
    ensures Remirrors(g, screens, a, creatable, id) <==> Remirrors(g, screens, b, creatable, id)
  {
    hide Reconnects, Repeatable;
    assert forall i :: 0 <= i < |a| ==> a[i] in b;
    assert forall i :: 0 <= i < |b| ==> b[i] in a;
  }

  /** One more screen at the end of the client's list. */
  lemma NextOnce(g: GroupState, gid: Id, screens: map<Id, ScreenState>, ids: seq<Id>, points: seq<Point>, id: Id,
                 p: Point, creatable: set<Id>, defaultId: Id)
    requires |ids| == |points| && (forall i :: 0 <= i < |ids| ==> ids[i] in screens) && id in screens
    ensures var mirror := AddOnce(g, gid, screens, ids, points, creatable, defaultId).group.mirrorScreen;
            mirror == g.mirrorScreen || mirror == defaultId ==>
              AddOnce(g, gid, screens, ids + [id], points + [p], creatable, defaultId).group.mirrorScreen ==
              if id !in ids && Remirrors(g, screens, ids, creatable, id) then defaultId else mirror
  {
    hide AddAll, Joined, Remirrors, FirstIds, FirstPoints;
    var r, q := FirstIds(ids), FirstPoints(ids, points);
    assert forall i :: 0 <= i < |r| ==> r[i] in ids;
    FirstIdsSnoc(ids, points, id, p);
    if id !in ids {
      AddAllSnoc(g, gid, screens, r, q, id, p, creatable, defaultId);
      NextAddition(g, gid, screens, r, q, creatable, defaultId, id, p);
      RemirrorsBySet(g, screens, ids, r, creatable, id);
    }
  }

  /** Without repetitions only the first occurrences count. */
  lemma {:induction false} MirrorAfterOnce(g: GroupState, gid: Id, screens: map<Id, ScreenState>, ids: seq<Id>,
                                           points: seq<Point>, creatable: set<Id>, defaultId: Id)
    requires |ids| == |points| && forall i :: 0 <= i < |ids| ==> ids[i] in screens
    ensures AddOnce(g, gid, screens, ids, points, creatable, defaultId).group.mirrorScreen ==
            if exists i :: 0 <= i < |ids| && !ListedBefore(ids, i) && RemirrorsAt(g, screens, ids, creatable, i)
            then defaultId
            else g.mirrorScreen
  {
    hide AddAll, AddOnce, Remirrors;
    if ids == [] {
      AddOnceOfNone(g, gid, screens, ids, points, creatable, defaultId);
    } else {
      var n := |ids| - 1;
      MirrorAfterOnce(g, gid, screens, ids[..n], points[..n], creatable, defaultId);
      NextOnce(g, gid, screens, ids[..n], points[..n], ids[n], points[n], creatable, defaultId);
      assert ids[..n] + [ids[n]] == ids && points[..n] + [points[n]] == points;
      SameInPrefix(g, screens, ids, creatable, n);
      assert RemirrorsAt(g, screens, ids, creatable, n) == Remirrors(g, screens, ids[..n], creatable, ids[n]);
      assert ListedBefore(ids, n) == (ids[n] in ids[..n]);
    }
  }

  lemma AddOnceOfNone(g: GroupState, gid: Id, screens: map<Id, ScreenState>, ids: seq<Id>, points: seq<Point>,
                      creatable: set<Id>, defaultId: Id)
    requires |ids| == |points| && ids == []
    ensures AddOnce(g, gid, screens, ids, points, creatable, defaultId) == Many(g, screens, true)
  {}

  /** Only a repetition gives the group a reason to mirror another screen. */
  predicate RepetitionRemirrors(g: GroupState, screens: map<Id, ScreenState>, ids: seq<Id>, creatable: set<Id>)
    requires forall i :: 0 <= i < |ids| ==> ids[i] in screens
  {
    && (exists i :: 0 <= i < |ids| && RemirrorsAt(g, screens, ids, creatable, i))
    && (forall i :: 0 <= i < |ids| && !ListedBefore(ids, i) ==> !RemirrorsAt(g, screens, ids, creatable, i))
  }

  /** The lists with and without repetitions leave the same mirror screen exactly if no repetition alone makes the
      group mirror the default screen. None does unless a mirror group without children first lists its recorded
      default screen. */
  lemma DeduplicationKeepsMirror(g: GroupState, gid: Id, screens: map<Id, ScreenState>, ids: seq<Id>,
                                 points: seq<Point>, creatable: set<Id>, defaultId: Id)
    requires |ids| == |points| && forall i :: 0 <= i < |ids| ==> ids[i] in screens
    ensures var all := AddAll(g, gid, screens, ids, points, creatable, defaultId);
            var once := AddOnce(g, gid, screens, ids, points, creatable, defaultId);
            all.group.mirrorScreen == once.group.mirrorScreen <==>
              g.mirrorScreen == defaultId || !RepetitionRemirrors(g, screens, ids, creatable)
    ensures RepetitionRemirrors(g, screens, ids, creatable) ==>
              && g.combination.Mirror? && g.children == {} && ids[0] == g.defaultScreen
              && Repeatable(g, screens[ids[0]], ids[0], ids[0] in creatable)
  {
    hide AddAll, AddOnce, Remirrors, Repeatable;
    MirrorAfter(g, gid, screens, ids, points, creatable, defaultId);
    MirrorAfterOnce(g, gid, screens, ids, points, creatable, defaultId);
    if RepetitionRemirrors(g, screens, ids, creatable) {
      var i :| 0 <= i < |ids| && RemirrorsAt(g, screens, ids, creatable, i);
      assert ListedBefore(ids, i);
      var k := FirstIndex(ids, ids[i]);
      NotBefore(ids, k, ids[i]);
      assert forall x :: x in ids[..k] ==> x in ids[..i];
      assert !ListedBefore(ids, k);
      OnlyLaterRemirrors(g, screens, ids[..k], ids[..i], creatable, ids[i]);
    }
  }

  /** A repetition is a reason and the first occurrence was not: nothing had joined before it. */
  lemma OnlyLaterRemirrors(g: GroupState, screens: map<Id, ScreenState>, before: seq<Id>, later: seq<Id>,
                           creatable: set<Id>, id: Id)
    requires (forall i :: 0 <= i < |before| ==> before[i] in screens) && id in screens
    requires (forall i :: 0 <= i < |later| ==> later[i] in screens) && forall x :: x in before ==> x in later
    requires id !in before && !Remirrors(g, screens, before, creatable, id)
    requires id in later && Remirrors(g, screens, later, creatable, id)
    ensures g.combination.Mirror? && g.children == {} && id == g.defaultScreen
    ensures Repeatable(g, screens[id], id, id in creatable)
    ensures before == []
  {
    assert id == g.defaultScreen;
    if before != [] {
      assert HasAfter(g, screens, before, before[0]);
    }
  }

  /** Such a list is [d, d] for an empty mirror group and a recorded default screen that gets its display node. */
  lemma RepetitionMovesMirror(g: GroupState, gid: Id, s: ScreenState, p: Point, defaultId: Id)
    requires g.combination.Mirror? && g.children == {} && g.mirrorScreen == INVALID_ID
    requires g.defaultScreen != INVALID_ID && s.isReal && !s.hasNode && defaultId != INVALID_ID
    ensures var d := g.defaultScreen;
            && AddAll(g, gid, map[d := s], [d, d], [p, p], {d}, defaultId).group.mirrorScreen == defaultId
            && AddOnce(g, gid, map[d := s], [d, d], [p, p], {d}, defaultId).group.mirrorScreen == INVALID_ID
  {
    var d, screens := g.defaultScreen, map[g.defaultScreen := s];
    var ids, points := [d, d], [p, p];
    hide AddAll, AddOnce, FirstIds, FirstPoints;
    assert ids[..0] == [] && ids[..1] == [d];
    assert !Remirrors(g, screens, ids[..0], {d}, d);
    assert Remirrors(g, screens, ids[..1], {d}, d) by {
      assert HasAfter(g, screens, ids[..1], d);
    }
    assert ids[1] == d && ids[0] == d;
    assert ListedBefore(ids, 1) && !RemirrorsAt(g, screens, ids, {d}, 0) && RemirrorsAt(g, screens, ids, {d}, 1);
    MirrorAfter(g, gid, screens, ids, points, {d}, defaultId);
    MirrorAfterOnce(g, gid, screens, ids, points, {d}, defaultId);
  }

  // ---------------------------------------------------------------- the classes

  const MAX_SCREEN_SIZE: nat := 32

  /** The de-duplication loop of ScreenManager::MakeExpand; None when the request is refused. */
  method MakeExpand(options: seq<(Id, Point)>) returns (request: Option<(seq<Id>, seq<Point>)>)
    ensures request.None? <==> options == [] || |options| > 32
    ensures request.Some? ==>
              var ids, points := seq(|options|, i requires 0 <= i < |options| => options[i].0),
                                 seq(|options|, i requires 0 <= i < |options| => options[i].1);
              request.value == (FirstIds(ids), FirstPoints(ids, points))
  {
    if options == [] || |options| > MAX_SCREEN_SIZE {
      return None;
    }
    ghost var ids := seq(|options|, i requires 0 <= i < |options| => options[i].0);
    ghost var points := seq(|options|, i requires 0 <= i < |options| => options[i].1);
    var screenIds, startPoints := [], [];
    var k := 0;
    while k < |options|
      invariant k <= |options|
      invariant screenIds == FirstIds(ids[..k]) && startPoints == FirstPoints(ids[..k], points[..k])
    {
      var option := options[k];
      assert ids[..k + 1][..k] == ids[..k] && points[..k + 1][..k] == points[..k];
      if option.0 !in screenIds {
        screenIds := screenIds + [option.0];
        startPoints := startPoints + [option.1];
      }
      k := k + 1;
    }
    assert ids[..k] == ids && points[..k] == points;
    return Some((screenIds, startPoints));
  }

  class AbstractScreen {
    const dmsId: Id
    const isReal: bool
    var groupDmsId: Id
    var lastGroupDmsId: Id
    var startPoint: Point
    var hasNode: bool

    ghost function View(): ScreenState
      reads this
    {
      ScreenState(groupDmsId, lastGroupDmsId, startPoint, hasNode, isReal)
    }

    constructor (id: Id, isReal: bool)
      ensures dmsId == id && View() == ScreenState(INVALID_ID, INVALID_ID, ORIGIN, false, isReal)
    {
      dmsId, this.isReal := id, isReal;
      groupDmsId, lastGroupDmsId, startPoint, hasNode := INVALID_ID, INVALID_ID, ORIGIN, false;
    }

    method InitRSDisplayNode(p: Point, canCreate: bool)
      modifies this
      ensures View() == Placed(old(View()), p, canCreate, false)
    {
      if !hasNode {
        if !canCreate {
          return;
        }
        hasNode := true;
      }
      startPoint := p;
    }

    method InitRSDefaultDisplayNode(p: Point, canCreate: bool)
      modifies this
      ensures View() == Placed(old(View()), p, canCreate, true)
    {
      if canCreate {
        hasNode := true;
        startPoint := p;
      }
    }
  }

  class AbstractScreenGroup {
    const dmsId: Id
    var screenMap: map<Id, AbstractScreen>
    var combination: Combination
    var mirrorScreenId: Id
    var defaultScreenId: Id

    ghost function View(): GroupState
      reads this
    {
      GroupState(screenMap.Keys, combination, mirrorScreenId, defaultScreenId)
    }

    constructor (id: Id, combination: Combination)
      ensures dmsId == id && View() == GroupState({}, combination, INVALID_ID, INVALID_ID)
    {
      dmsId, this.combination := id, combination;
      screenMap, mirrorScreenId, defaultScreenId := map[], INVALID_ID, INVALID_ID;
    }

    method GetRSDisplayNodeConfig(id: Id, defaultId: Id) returns (ok: bool)
      modifies this`mirrorScreenId
      ensures ok <==> !combination.Other?
      ensures View() == Configured(old(View()), id, defaultId)
    {
      match combination
      case Other => return false;
      case Mirror =>
        if |screenMap| == 0 || mirrorScreenId == id {
          return true;
        }
        assert screenMap.Keys != {};
        if mirrorScreenId == INVALID_ID || mirrorScreenId !in screenMap {
          mirrorScreenId := defaultId;
        }
        return true;
      case _ => return true;
    }

    method AddChild(s: AbstractScreen, p: Point, canCreate: bool, defaultId: Id) returns (ok: bool)
      modifies this, s
      ensures Added(View(), s.View(), ok) ==
              Joined(old(View()), dmsId, old(s.View()), s.dmsId, p, canCreate, defaultId)
      ensures screenMap == if s.dmsId in View().children && s.dmsId !in old(View()).children
                           then old(screenMap)[s.dmsId := s] else old(screenMap)
    {
      var id := s.dmsId;
      if id in screenMap && !(s.hasNode && s.isReal && defaultScreenId == id) {
        return false;
      }
      ok := GetRSDisplayNodeConfig(id, defaultId);
      if !ok {
        return;
      }
      if s.hasNode && s.isReal && defaultScreenId == id {
        s.InitRSDefaultDisplayNode(p, canCreate);
      } else {
        s.InitRSDisplayNode(p, canCreate);
        s.lastGroupDmsId := s.groupDmsId;
        s.groupDmsId := dmsId;
        screenMap := screenMap[id := s];
      }
    }

    method RemoveChild(s: AbstractScreen) returns (erased: bool)
      modifies this, s
      ensures (View(), s.View()) == Left(old(View()), old(s.View()), s.dmsId)
      ensures erased <==> s.dmsId in old(View()).children
    {
      s.lastGroupDmsId := s.groupDmsId;
      s.groupDmsId := INVALID_ID;
      s.startPoint := ORIGIN;
      s.hasNode := false;
      erased := s.dmsId in screenMap;
      screenMap := screenMap - {s.dmsId};
    }

    method RemoveDefaultScreen(s: AbstractScreen)
      modifies this, s
      ensures (View(), s.View()) == SetAside(old(View()), old(s.View()), s.dmsId)
    {
      s.lastGroupDmsId := s.groupDmsId;
      defaultScreenId := s.dmsId;
    }

    /** AddChild, seen in the states of all screen objects, which `all` holds by id. */
    method AddKnownChild(s: AbstractScreen, p: Point, canCreate: bool, defaultId: Id,
                         ghost all: map<Id, AbstractScreen>) returns (ok: bool)
      requires (forall id :: id in all ==> all[id].dmsId == id) && s.dmsId in all && all[s.dmsId] == s
      modifies this, s
      ensures var a := Joined(old(View()), dmsId, old(Views(all))[s.dmsId], s.dmsId, p, canCreate, defaultId);
              && View() == a.group && ok == a.ok
              && Views(all) == old(Views(all))[s.dmsId := a.screen]
    {
      hide Joined;
      ok := AddChild(s, p, canCreate, defaultId);
    }

    method AddChildren(dmsScreens: seq<AbstractScreen>, startPoints: seq<Point>, creatable: set<Id>, defaultId: Id,
                       ghost all: map<Id, AbstractScreen>) returns (ok: bool)
      requires forall id :: id in all ==> all[id].dmsId == id
      requires forall i :: 0 <= i < |dmsScreens| ==>
                 dmsScreens[i].dmsId in all && all[dmsScreens[i].dmsId] == dmsScreens[i]
      modifies this, dmsScreens
      ensures |dmsScreens| != |startPoints| ==> !ok && View() == old(View()) && Views(all) == old(Views(all))
      ensures |dmsScreens| == |startPoints| ==>
                Many(View(), Views(all), ok) ==
                AddAll(old(View()), dmsId, old(Views(all)), Ids(dmsScreens), startPoints, creatable, defaultId)
    {
      if |dmsScreens| != |startPoints| {
        return false;
      }
      ok := true;
      var i := 0;
      ghost var ids, group, screens := Ids(dmsScreens), View(), Views(all);
      assert forall i :: 0 <= i < |ids| ==> ids[i] == dmsScreens[i].dmsId && ids[i] in screens;
      hide AddAll, AddFirst, Joined, Ids;
      while i < |dmsScreens|
        invariant i <= |dmsScreens|
        invariant Many(View(), Views(all), ok) ==
                  AddFirst(group, dmsId, screens, ids, startPoints, creatable, defaultId, i)
      {
        AddFirstNext(group, dmsId, screens, ids, startPoints, creatable, defaultId, i);
        var s := dmsScreens[i];
        var res := AddKnownChild(s, startPoints[i], s.dmsId in creatable, defaultId, all);
        ok := res && ok;
        i := i + 1;
      }
    }
  }

  ghost function Views(all: map<Id, AbstractScreen>): map<Id, ScreenState>
    reads all.Values
  {
    map id | id in all :: all[id].View()
  }

  ghost function Ids(screens: seq<AbstractScreen>): seq<Id> {
    seq(|screens|, i requires 0 <= i < |screens| => screens[i].dmsId)
  }
}
