/** The conversions between global and display-relative coordinates (DisplayManager), with their overflow guards. */
module Coordinates {
  import opened DmTypes

  datatype SourceMode = NoMode | MainMode | MirrorMode | ExtendMode | AloneMode

  datatype Info = Info(id: Id, x: Int32, y: Int32, width: Int32, height: Int32, mode: SourceMode)

  /** What GetDisplayById gives for an id: no display, a display without information, or its information. */
  datatype Lookup = NoDisplay | NoInfo | Found(info: Info)

  type Displays = map<Id, Lookup>

  datatype Relative = Relative(displayId: Id, position: Point)
  datatype Result<+T> = Ok(value: T) | IllegalParam | NullInfo

  function LookUp(ds: Displays, id: Id): Lookup {
    if id in ds then ds[id] else NoDisplay
  }

  /** Information is stored under its own id. */
  predicate WellKeyed(ds: Displays) {
    forall id :: id in ds && ds[id].Found? ==> ds[id].info.id == id
  }

  predicate Usable(l: Lookup) {
    l.Found? && (l.info.mode.MainMode? || l.info.mode.ExtendMode?)
  }

  predicate Fits(x: int) {
    INT32_MIN <= x <= INT32_MAX
  }

  predicate IsInt32AddOverflow(a: Int32, b: Int32) {
    (b > 0 && a > INT32_MAX - b) || (b < 0 && a < INT32_MIN - b)
  }

  predicate IsInt32SubOverflow(a: Int32, b: Int32) {
    (b > 0 && a < INT32_MIN + b) || (b < 0 && a > INT32_MAX + b)
  }

  /** The guards are exact. */
  lemma OverflowGuardsAreExact(a: Int32, b: Int32)
    ensures IsInt32AddOverflow(a, b) <==> !Fits(a + b)
    ensures IsInt32SubOverflow(a, b) <==> !Fits(a - b)
    ensures Fits(a + b) ==> !IsInt32SubOverflow(a + b, b)
  {}

  function ToGlobal(ds: Displays, r: Relative): Result<Point> {
    match LookUp(ds, r.displayId)
    case NoDisplay => IllegalParam
    case NoInfo => NullInfo
    case Found(info) =>
      if !Usable(Found(info)) || IsInt32AddOverflow(r.position.x, info.x) || IsInt32AddOverflow(r.position.y, info.y)
      then IllegalParam
      else Ok(Point(r.position.x + info.x, r.position.y + info.y))
  }

  /** A null display is answered with the point itself, on display 0. */
  function WithDisplayId(ds: Displays, p: Point, id: Id): Result<Relative> {
    match LookUp(ds, id)
    case NoDisplay => Ok(Relative(0, p))
    case NoInfo => NullInfo
    case Found(info) =>
      if !Usable(Found(info)) || IsInt32SubOverflow(p.x, info.x) || IsInt32SubOverflow(p.y, info.y) then IllegalParam
      else Ok(Relative(id, Point(p.x - info.x, p.y - info.y)))
  }

  /** Whatever the conversion to global coordinates accepts is converted back, and on a usable display the two
      conversions accept and give exactly each other's points. */
  lemma ConversionsAreInverse(ds: Displays, r: Relative, p: Point)
    ensures ToGlobal(ds, r) == Ok(p) ==> WithDisplayId(ds, p, r.displayId) == Ok(r)
    ensures Usable(LookUp(ds, r.displayId)) ==>
              (ToGlobal(ds, r) == Ok(p) <==> WithDisplayId(ds, p, r.displayId) == Ok(r))
    ensures ToGlobal(ds, r).Ok? <==> Usable(LookUp(ds, r.displayId))
                                     && Fits(r.position.x + LookUp(ds, r.displayId).info.x)
                                     && Fits(r.position.y + LookUp(ds, r.displayId).info.y)
  {
    if Usable(LookUp(ds, r.displayId)) {
      var info := LookUp(ds, r.displayId).info;
      OverflowGuardsAreExact(r.position.x, info.x);
      OverflowGuardsAreExact(r.position.y, info.y);
      OverflowGuardsAreExact(p.x, info.x);
      OverflowGuardsAreExact(p.y, info.y);
    }
  }

  /** Which displays take part: main and extended ones only, and which error the others give. */
  lemma ConversionsAcceptExactly(ds: Displays, id: Id, p: Point)
    ensures match LookUp(ds, id)
            case NoDisplay =>
              ToGlobal(ds, Relative(id, p)) == IllegalParam && WithDisplayId(ds, p, id) == Ok(Relative(0, p))
            case NoInfo => ToGlobal(ds, Relative(id, p)) == NullInfo && WithDisplayId(ds, p, id) == NullInfo
            case Found(info) =>
              var inUse := info.mode == MainMode || info.mode == ExtendMode;
              && ToGlobal(ds, Relative(id, p)) ==
                 (if inUse && Fits(p.x + info.x) && Fits(p.y + info.y) then Ok(Point(p.x + info.x, p.y + info.y))
                  else IllegalParam)
              && WithDisplayId(ds, p, id) ==
                 (if inUse && Fits(p.x - info.x) && Fits(p.y - info.y)
                  then Ok(Relative(id, Point(p.x - info.x, p.y - info.y)))
                  else IllegalParam)
  {
    if LookUp(ds, id).Found? {
      var info := LookUp(ds, id).info;
      OverflowGuardsAreExact(p.x, info.x);
      OverflowGuardsAreExact(p.y, info.y);
    }
  }

  // ---------------------------------------------------------------- the search

  /** The code's test, with the differences as a 32-bit register holds them. */
  predicate IsTargetDisplay(info: Info, p: Point) {
    var posX, posY := ToInt32(p.x - info.x), ToInt32(p.y - info.y);
    !(posX < 0 || posY < 0 || posX >= info.width || posY >= info.height)
  }

  predicate Contains(info: Info, p: Point) {
    info.x <= p.x < info.x + info.width && info.y <= p.y < info.y + info.height
  }

  /** The last column and row of the display have 32-bit coordinates. */
  predicate EdgesFit(info: Info) {
    info.x + info.width - 1 <= INT32_MAX && info.y + info.height - 1 <= INT32_MAX
  }

  lemma WrappedDifference(a: Int32, b: Int32, size: Int32)
    ensures 0 <= ToInt32(a - b) < size <==> b <= a < b + size || (a - b < INT32_MIN && a - b + 0x1_0000_0000 < size)
  {}

  /** The test tells containment for every point exactly when the display is empty or its far edges fit. */
  lemma TargetTestIsContainment(info: Info)
    ensures (forall p :: IsTargetDisplay(info, p) <==> Contains(info, p)) <==>
              info.width <= 0 || info.height <= 0 || EdgesFit(info)
  {
    if info.width <= 0 || info.height <= 0 || EdgesFit(info) {
      forall p ensures IsTargetDisplay(info, p) <==> Contains(info, p) {
        WrappedDifference(p.x, info.x, info.width);
        WrappedDifference(p.y, info.y, info.height);
      }
    } else {
      var p := if info.x + info.width - 1 > INT32_MAX then Point(INT32_MIN, info.y) else Point(info.x, INT32_MIN);
      WrappedDifference(p.x, info.x, info.width);
      WrappedDifference(p.y, info.y, info.height);
      assert IsTargetDisplay(info, p) && !Contains(info, p);
    }
  }

  predicate Targets(ds: Displays, id: Id, p: Point) {
    Usable(LookUp(ds, id)) && IsTargetDisplay(LookUp(ds, id).info, p)
  }

  function OnDisplay(ds: Displays, id: Id, p: Point): Relative
    requires LookUp(ds, id).Found?
  {
    var info := LookUp(ds, id).info;
    Relative(info.id, Point(ToInt32(p.x - info.x), ToInt32(p.y - info.y)))
  }

  /** The first display of the list that the point is on, or display 0 with the global point. */
  function Search(ds: Displays, ids: seq<Id>, p: Point): Relative {
    if ids == [] then Relative(0, p)
    else if Targets(ds, ids[0], p) then OnDisplay(ds, ids[0], p)
    else Search(ds, ids[1..], p)
  }

  method ConvertGlobalCoordinateToRelative(ds: Displays, ids: seq<Id>, p: Point) returns (r: Relative)
    ensures r == Search(ds, ids, p)
  {
    var i := 0;
    while i < |ids|
      invariant i <= |ids| && Search(ds, ids[i..], p) == Search(ds, ids, p)
    {
      assert ids[i..][1..] == ids[i + 1..];
      var l := LookUp(ds, ids[i]);
      if l.Found? && (l.info.mode.MainMode? || l.info.mode.ExtendMode?) {
        if IsTargetDisplay(l.info, p) {
          return Relative(l.info.id, Point(ToInt32(p.x - l.info.x), ToInt32(p.y - l.info.y)));
        }
      }
      i := i + 1;
    }
    return Relative(0, p);
  }

  lemma {:induction false} SearchFindsTheOnlyTarget(ds: Displays, ids: seq<Id>, p: Point, id: Id)
    requires id in ids && Targets(ds, id, p)
    requires forall other :: other in ids && Targets(ds, other, p) ==> other == id
    ensures Search(ds, ids, p) == OnDisplay(ds, id, p)
  {
    hide IsTargetDisplay;
    assert ids[0] in ids;
    if !Targets(ds, ids[0], p) {
      assert id in ids[1..];
      SearchFindsTheOnlyTarget(ds, ids[1..], p, id);
    }
  }

  lemma {:induction false} SearchFindsATarget(ds: Displays, ids: seq<Id>, p: Point)
    ensures Search(ds, ids, p) == Relative(0, p) ||
            exists id :: id in ids && Targets(ds, id, p) && Search(ds, ids, p) == OnDisplay(ds, id, p)
    ensures (exists id :: id in ids && Targets(ds, id, p)) ==>
              exists id :: id in ids && Targets(ds, id, p) && Search(ds, ids, p) == OnDisplay(ds, id, p)
  {
    hide IsTargetDisplay, OnDisplay;
    if ids != [] {
      if Targets(ds, ids[0], p) {
        assert ids[0] in ids;
      } else {
        SearchFindsATarget(ds, ids[1..], p);
        assert forall id :: id in ids && Targets(ds, id, p) ==> id in ids[1..];
      }
    }
  }

  /** A listed display that is neither main nor extended, or not there, makes no difference to the search. */
  lemma {:induction false} SearchSkipsOthers(ds: Displays, before: seq<Id>, id: Id, after: seq<Id>, p: Point)
    requires match LookUp(ds, id)
             case Found(info) => info.mode == NoMode || info.mode == MirrorMode || info.mode == AloneMode
             case _ => true
    ensures Search(ds, before + [id] + after, p) == Search(ds, before + after, p)
  {
    hide IsTargetDisplay, OnDisplay;
    if before == [] {
      assert before + [id] + after == [id] + after && before + after == after;
    } else {
      SearchSkipsOthers(ds, before[1..], id, after, p);
      assert (before + [id] + after)[1..] == before[1..] + [id] + after;
      assert (before + after)[1..] == before[1..] + after;
    }
  }

  /** No point is on two of the listed displays. */
  ghost predicate Disjoint(ds: Displays, ids: seq<Id>) {
    forall a, b, p: Point ::
      a in ids && b in ids && UsableContains(ds, a, p) && UsableContains(ds, b, p) ==> a == b
  }

  predicate UsableContains(ds: Displays, id: Id, p: Point) {
    Usable(LookUp(ds, id)) && Contains(LookUp(ds, id).info, p)
  }

  predicate AllEdgesFit(ds: Displays, ids: seq<Id>) {
    forall id :: id in ids && Usable(LookUp(ds, id)) ==> EdgesFit(LookUp(ds, id).info)
  }

  predicate InBounds(info: Info, position: Point) {
    0 <= position.x < info.width && 0 <= position.y < info.height
  }

  lemma TargetsIsContainment(ds: Displays, ids: seq<Id>, id: Id, p: Point)
    requires AllEdgesFit(ds, ids) && id in ids
    ensures Targets(ds, id, p) <==> UsableContains(ds, id, p)
  {
    if Usable(LookUp(ds, id)) {
      TargetTestIsContainment(LookUp(ds, id).info);
    }
  }

  lemma SmallDifference(a: Int32, b: Int32)
    requires Fits(a - b)
    ensures ToInt32(a - b) == a - b
  {}

  // ---------------------------------------------------------------- search and conversion

  ghost predicate ListsExactly(list: seq<Id>, ids: set<Id>) {
    forall id :: id in list <==> id in ids
  }

  /** The conversion accepts a point inside a listed display. */
  predicate OnListed(ds: Displays, ids: set<Id>, r: Relative) {
    && r.displayId in ids && Usable(LookUp(ds, r.displayId))
    && InBounds(LookUp(ds, r.displayId).info, r.position)
    && ToGlobal(ds, r).Ok?
  }

  /** No display claims a point that another one has. */
  ghost predicate NoForeignClaim(ds: Displays, ids: set<Id>) {
    forall a, b, p: Point :: a in ids && b in ids && UsableContains(ds, a, p) && Targets(ds, b, p) ==> a == b
  }

  /** One side [start, start + size) has a coordinate that the other side's wrapped test claims. */
  predicate SideClaimed(start: Int32, size: Int32, other: Int32, otherSize: Int32) {
    && size > 0 && otherSize > 0
    && ((start < other + otherSize && other < start + size) || start + 0x1_0000_0000 < other + otherSize)
  }

  lemma SideClaimedAt(start: Int32, size: Int32, other: Int32, otherSize: Int32, p: Int32)
    requires start <= p < start + size && 0 <= ToInt32(p - other) < otherSize
    ensures SideClaimed(start, size, other, otherSize)
  {}

  function ClaimedCoordinate(start: Int32, size: Int32, other: Int32, otherSize: Int32): (p: Int32)
    requires SideClaimed(start, size, other, otherSize)
    ensures start <= p < start + size && 0 <= ToInt32(p - other) < otherSize
  {
    if start + 0x1_0000_0000 < other + otherSize || start > other then start else other
  }

  /** Whether a display claims a foreign point can be told from the rectangles: two of them meet, or would meet if the
      first was moved up by 2^32 on a side on which the second goes beyond the largest coordinate. */
  lemma ForeignClaimByRectangles(ds: Displays, ids: set<Id>)
    ensures NoForeignClaim(ds, ids) <==>
              forall a, b :: a in ids && b in ids && a != b && Usable(LookUp(ds, a)) && Usable(LookUp(ds, b)) ==>
                var i, j := LookUp(ds, a).info, LookUp(ds, b).info;
                !SideClaimed(i.x, i.width, j.x, j.width) || !SideClaimed(i.y, i.height, j.y, j.height)
  {
    hide SideClaimed, ToInt32;
    forall a, b | a in ids && b in ids && a != b && Usable(LookUp(ds, a)) && Usable(LookUp(ds, b))
      ensures (exists p: Point :: UsableContains(ds, a, p) && Targets(ds, b, p)) <==>
                var i, j := LookUp(ds, a).info, LookUp(ds, b).info;
                SideClaimed(i.x, i.width, j.x, j.width) && SideClaimed(i.y, i.height, j.y, j.height)
    {
      var i, j := LookUp(ds, a).info, LookUp(ds, b).info;
      forall p: Point | UsableContains(ds, a, p) && Targets(ds, b, p)
        ensures SideClaimed(i.x, i.width, j.x, j.width) && SideClaimed(i.y, i.height, j.y, j.height)
      {
        SideClaimedAt(i.x, i.width, j.x, j.width, p.x);
        SideClaimedAt(i.y, i.height, j.y, j.height, p.y);
      }
      if SideClaimed(i.x, i.width, j.x, j.width) && SideClaimed(i.y, i.height, j.y, j.height) {
        var p := Point(ClaimedCoordinate(i.x, i.width, j.x, j.width),
                       ClaimedCoordinate(i.y, i.height, j.y, j.height));
        assert UsableContains(ds, a, p) && Targets(ds, b, p);
      }
    }
  }

  lemma OwnPoint(ds: Displays, ids: set<Id>, r: Relative)
    requires WellKeyed(ds) && OnListed(ds, ids, r)
    ensures var p := ToGlobal(ds, r).value;
            && UsableContains(ds, r.displayId, p) && Targets(ds, r.displayId, p)
            && OnDisplay(ds, r.displayId, p) == r
  {
    var info, p := LookUp(ds, r.displayId).info, ToGlobal(ds, r).value;
    SmallDifference(p.x, info.x);
    SmallDifference(p.y, info.y);
  }

  lemma RelativePoint(ds: Displays, ids: set<Id>, id: Id, p: Point)
    requires WellKeyed(ds) && id in ids && UsableContains(ds, id, p)
    ensures OnListed(ds, ids, OnDisplay(ds, id, p))
    ensures ToGlobal(ds, OnDisplay(ds, id, p)) == Ok(p)
  {
    var info := LookUp(ds, id).info;
    SmallDifference(p.x, info.x);
    SmallDifference(p.y, info.y);
    OverflowGuardsAreExact(p.x - info.x, info.x);
    OverflowGuardsAreExact(p.y - info.y, info.y);
  }

  lemma DisplayIdIsFound(ds: Displays, id: Id, p: Point)
    requires WellKeyed(ds) && Usable(LookUp(ds, id))
    ensures OnDisplay(ds, id, p).displayId == id
  {}

  /** The search undoes the conversion of every point on every list of the displays exactly when no display claims a
      point of another one. */
  lemma SearchUndoesToGlobalExactly(ds: Displays, ids: set<Id>)
    requires WellKeyed(ds)
    ensures (forall list: seq<Id>, r: Relative :: ListsExactly(list, ids) && OnListed(ds, ids, r) ==>
               Search(ds, list, ToGlobal(ds, r).value) == r) <==> NoForeignClaim(ds, ids)
  {
    hide Search, IsTargetDisplay, OnDisplay, ToGlobal, Contains, InBounds;
    if NoForeignClaim(ds, ids) {
      forall list: seq<Id>, r: Relative | ListsExactly(list, ids) && OnListed(ds, ids, r)
        ensures Search(ds, list, ToGlobal(ds, r).value) == r
      {
        OwnPoint(ds, ids, r);
        SearchFindsTheOnlyTarget(ds, list, ToGlobal(ds, r).value, r.displayId);
      }
    } else {
      var a, b, p: Point :|
        a in ids && b in ids && UsableContains(ds, a, p) && Targets(ds, b, p) && a != b;
      var list := [b] + Listed(ids);
      RelativePoint(ds, ids, a, p);
      FirstTargetIsFound(ds, list, p);
      DisplayIdIsFound(ds, a, p);
      DisplayIdIsFound(ds, b, p);
      var r := OnDisplay(ds, a, p);
      assert ListsExactly(list, ids) && OnListed(ds, ids, r);
      assert Search(ds, list, ToGlobal(ds, r).value) != r;
    }
  }

  ghost function Listed(ids: set<Id>): (list: seq<Id>)
    ensures ListsExactly(list, ids)
  {
    if ids == {} then []
    else
      var id :| id in ids;
      [id] + Listed(ids - {id})
  }

  /** The point found converts back to the point that was looked for, for all points on the displays and all lists
      of them, exactly when a display claims a point of another one only where it has the point, too. */
  lemma ToGlobalUndoesSearchExactly(ds: Displays, ids: set<Id>)
    requires WellKeyed(ds)
    ensures (forall list: seq<Id>, a, p: Point :: ListsExactly(list, ids) && a in ids && UsableContains(ds, a, p) ==>
               ToGlobal(ds, Search(ds, list, p)) == Ok(p)) <==>
            (forall a: Id, b: Id, p: Point :: a in ids && b in ids && UsableContains(ds, a, p) && Targets(ds, b, p) ==>
               UsableContains(ds, b, p))
  {
    hide Search, IsTargetDisplay, OnDisplay, ToGlobal, Contains;
    if forall a: Id, b: Id, p: Point :: a in ids && b in ids && UsableContains(ds, a, p) && Targets(ds, b, p) ==>
         UsableContains(ds, b, p)
    {
      forall list: seq<Id>, a: Id, p: Point | ListsExactly(list, ids) && a in ids && UsableContains(ds, a, p)
        ensures ToGlobal(ds, Search(ds, list, p)) == Ok(p)
      {
        OwnTarget(ds, a, p);
        SearchFindsATarget(ds, list, p);
        var b :| b in list && Targets(ds, b, p) && Search(ds, list, p) == OnDisplay(ds, b, p);
        FoundConvertsBack(ds, b, p);
      }
    } else {
      var a: Id, b: Id, p: Point :|
        a in ids && b in ids && UsableContains(ds, a, p) && Targets(ds, b, p) && !UsableContains(ds, b, p);
      var list := [b] + Listed(ids);
      FirstTargetIsFound(ds, list, p);
      FoundConvertsBack(ds, b, p);
    }
  }

  lemma FirstTargetIsFound(ds: Displays, list: seq<Id>, p: Point)
    requires list != [] && Targets(ds, list[0], p)
    ensures Search(ds, list, p) == OnDisplay(ds, list[0], p)
  {}

  lemma OwnTarget(ds: Displays, id: Id, p: Point)
    requires UsableContains(ds, id, p)
    ensures Targets(ds, id, p)
  {
    var info := LookUp(ds, id).info;
    SmallDifference(p.x, info.x);
    SmallDifference(p.y, info.y);
  }

  /** What the search finds on a display converts back exactly if the display has the point. */
  lemma FoundConvertsBack(ds: Displays, id: Id, p: Point)
    requires WellKeyed(ds) && Targets(ds, id, p)
    ensures ToGlobal(ds, OnDisplay(ds, id, p)) == Ok(p) <==> UsableContains(ds, id, p)
  {
    var info := LookUp(ds, id).info;
    OverflowGuardsAreExact(ToInt32(p.x - info.x), info.x);
    OverflowGuardsAreExact(ToInt32(p.y - info.y), info.y);
    WrappedDifference(p.x, info.x, info.width);
    WrappedDifference(p.y, info.y, info.height);
  }

  // ---------------------------------------------------------------- when all far edges fit

  /** With disjoint displays whose far edges fit, the conversion accepts every point of a display, and the search
      undoes it, whatever the order of the list. */
  lemma SearchUndoesToGlobal(ds: Displays, list: seq<Id>, r: Relative)
    requires WellKeyed(ds) && Disjoint(ds, list) && AllEdgesFit(ds, list)
    requires r.displayId in list && Usable(LookUp(ds, r.displayId))
    requires InBounds(LookUp(ds, r.displayId).info, r.position)
    ensures ToGlobal(ds, r).Ok? && Search(ds, list, ToGlobal(ds, r).value) == r
  {
    hide Search, IsTargetDisplay, Contains;
    var info, ids := LookUp(ds, r.displayId).info, set id | id in list;
    OverflowGuardsAreExact(r.position.x, info.x);
    OverflowGuardsAreExact(r.position.y, info.y);
    forall a, b, p: Point | a in ids && b in ids && UsableContains(ds, a, p) && Targets(ds, b, p) ensures a == b {
      TargetsIsContainment(ds, list, b, p);
    }
    SearchUndoesToGlobalExactly(ds, ids);
    assert ListsExactly(list, ids) && OnListed(ds, ids, r);
  }

  /** A point on a listed display is found there, and converted back to the point that was looked for. */
  lemma ToGlobalUndoesSearch(ds: Displays, list: seq<Id>, p: Point, id: Id)
    requires WellKeyed(ds) && AllEdgesFit(ds, list) && id in list && UsableContains(ds, id, p)
    ensures ToGlobal(ds, Search(ds, list, p)) == Ok(p)
  {
    hide ToGlobal, Search, UsableContains, Targets;
    var ids := set id | id in list;
    forall a: Id, b: Id, q: Point | a in ids && b in ids && UsableContains(ds, a, q) && Targets(ds, b, q)
      ensures UsableContains(ds, b, q)
    {
      TargetsIsContainment(ds, list, b, q);
    }
    ToGlobalUndoesSearchExactly(ds, ids);
    assert ListsExactly(list, ids);
  }

  /** Disjoint displays are not enough: beyond the largest coordinate the second display claims the columns at the
      smallest one, which the first display has. */
  lemma DisjointIsNotEnough()
    ensures var ds := map[1 := Found(Info(1, INT32_MIN, 0, 10, 10, MainMode)),
                          2 := Found(Info(2, INT32_MAX, 0, 10, 10, ExtendMode))];
            var r := Relative(1, Point(3, 3));
            && WellKeyed(ds) && Disjoint(ds, [2, 1]) && OnListed(ds, {1, 2}, r)
            && Search(ds, [2, 1], ToGlobal(ds, r).value) == Relative(2, Point(4, 3))
  {
    var ds := map[1 := Found(Info(1, INT32_MIN, 0, 10, 10, MainMode)),
                  2 := Found(Info(2, INT32_MAX, 0, 10, 10, ExtendMode))];
    var p := Point(INT32_MIN + 3, 3);
    assert ToGlobal(ds, Relative(1, Point(3, 3))) == Ok(p);
    assert ToInt32(p.x - INT32_MAX) == 4;
    assert [2, 1][0] == 2;
    assert Targets(ds, 2, p);
    assert Search(ds, [2, 1], p) == OnDisplay(ds, 2, p);
  }
}
