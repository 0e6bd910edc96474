/**
 * The cutout geometry of a rotated display (DisplayCutoutController): the filter of the cutout rectangles, their
 * rotation, and the waterfall strips, which are written down separately for each rotation.
 */
module CutoutGeometry {
  import opened DmTypes

  datatype Rect = Rect(x: Int32, y: Int32, width: UInt32, height: UInt32)

  const EMPTY := Rect(0, 0, 0, 0)

  function Turned(p: Mode, r: Rotation): Mode {
    if IsVertical(r) then p else Mode(p.height, p.width)
  }

  predicate Inside(r: Rect, p: Mode) {
    0 <= r.x && 0 <= r.y && r.x + r.width <= p.width && r.y + r.height <= p.height
  }

  function Area(r: Rect): nat {
    r.width * r.height
  }

  // ---------------------------------------------------------------- the filter

  /** The test of CheckBoundingRectsBoundary, with the sums as a 32-bit register holds them. */
  predicate Keeps(r: Rect, p: Mode) {
    && 0 <= r.x && 0 <= r.y
    && ToInt32(ToInt32(r.width) + r.x) <= ToInt32(p.width)
    && ToInt32(ToInt32(r.height) + r.y) <= ToInt32(p.height)
    && r.width <= p.width && r.height <= p.height
    && r != EMPTY
  }

  predicate SideFits(start: Int32, size: UInt32, side: UInt32) {
    0 <= start && start + size <= side
  }

  /** One of the end of the side and the panel's side is held as a negative number, and the other is not. */
  predicate SideWraps(start: Int32, size: UInt32, side: UInt32) {
    && 0 <= start && size <= side && start + size < 0x1_0000_0000
    && (start + size <= INT32_MAX) != (side <= INT32_MAX)
  }

  /** The part of the test for one side is wrong exactly if that side wraps. */
  lemma SideTest(start: Int32, size: UInt32, side: UInt32)
    ensures 0 <= start && ToInt32(ToInt32(size) + start) <= ToInt32(side) && size <= side <==>
              SideFits(start, size, side) != SideWraps(start, size, side)
  {}

  /** The test keeps exactly the rectangles that lie in the panel and are not all zero if no side wraps. If a side
      wraps it drops a rectangle in the panel, or keeps one outside when the other side passes. */
  lemma KeepsExactly(r: Rect, p: Mode)
    ensures var xFits, xWraps := SideFits(r.x, r.width, p.width), SideWraps(r.x, r.width, p.width);
            var yFits, yWraps := SideFits(r.y, r.height, p.height), SideWraps(r.y, r.height, p.height);
            && ((Keeps(r, p) <==> r != EMPTY && Inside(r, p)) <==>
                r == EMPTY || (if Inside(r, p) then !xWraps && !yWraps else xFits == xWraps || yFits == yWraps))
            && (!xWraps && !yWraps ==> (Keeps(r, p) <==> r != EMPTY && Inside(r, p)))
  {
    hide ToInt32;
    SideTest(r.x, r.width, p.width);
    SideTest(r.y, r.height, p.height);
  }

  function Filter(rects: seq<Rect>, p: Mode): seq<Rect> {
    if rects == [] then []
    else (if Keeps(rects[0], p) then [rects[0]] else []) + Filter(rects[1..], p)
  }

  lemma FilterAt(rects: seq<Rect>, i: nat, p: Mode)
    requires i < |rects|
    ensures Filter(rects[i..], p) ==
            if Keeps(rects[i], p) then [rects[i]] + Filter(rects[i + 1..], p) else Filter(rects[i + 1..], p)
  {
    hide Keeps;
    assert rects[i..][0] == rects[i] && rects[i..][1..] == rects[i + 1..];
  }

  lemma FilterAtEnd(rects: seq<Rect>, p: Mode)
    ensures rects[..|rects|] + Filter(rects[|rects|..], p) == rects
  {}

  method CheckBoundingRectsBoundary(rects: seq<Rect>, p: Mode) returns (kept: seq<Rect>)
    ensures kept == Filter(rects, p)
  {
    hide Filter, Keeps;
    kept := rects;
    var i := 0;
    assert rects[..0] + Filter(rects[0..], p) == Filter(rects, p) by {
      assert rects[0..] == rects;
    }
    while i < |kept|
      invariant i <= |kept|
      invariant kept[..i] + Filter(kept[i..], p) == Filter(rects, p)
      decreases |kept| - i
    {
      FilterAt(kept, i, p);
      if !Keeps(kept[i], p) {
        ghost var before := kept;
        kept := kept[..i] + kept[i + 1..];
        assert kept[..i] == before[..i] && kept[i..] == before[i + 1..];
      } else {
        assert kept[..i + 1] == kept[..i] + [kept[i]];
        i := i + 1;
      }
    }
    FilterAtEnd(kept, p);
  }

  /** Every rectangle that passes stays as often as it was listed, and no other does. */
  lemma {:induction false} FilterSelects(rects: seq<Rect>, p: Mode, r: Rect)
    ensures multiset(Filter(rects, p))[r] == if Keeps(r, p) then multiset(rects)[r] else 0
  {
    if rects != [] {
      FilterSelects(rects[1..], p, r);
      assert rects == [rects[0]] + rects[1..];
    }
  }

  /** The order is kept: what comes from the front of the list stays in front. */
  lemma {:induction false} FilterKeepsOrder(a: seq<Rect>, b: seq<Rect>, p: Mode)
    ensures Filter(a + b, p) == Filter(a, p) + Filter(b, p)
  {
    if a == [] {
      assert a + b == b;
    } else {
      assert (a + b)[1..] == a[1..] + b;
      FilterKeepsOrder(a[1..], b, p);
    }
  }

  // ---------------------------------------------------------------- rotating a rectangle

  /** The per-rectangle formulas, with their unsigned 32-bit subtractions. */
  function RotateRect(r: Rect, p: Mode, turn: Rotation): Rect {
    match turn
    case Rotation0 => r
    case Rotation90 => Rect(ToInt32(ToUInt32(p.height - r.y - r.height)), r.x, r.height, r.width)
    case Rotation180 => Rect(ToInt32(ToUInt32(p.width - r.x - r.width)), ToInt32(ToUInt32(p.height - r.y - r.height)),
                             r.width, r.height)
    case Rotation270 => Rect(r.y, ToInt32(ToUInt32(p.width - r.x - r.width)), r.height, r.width)
  }

  /** Where the rotation takes a single pixel. */
  function RotatePixel(at: (int, int), p: Mode, turn: Rotation): (int, int) {
    match turn
    case Rotation0 => at
    case Rotation90 => (p.height - 1 - at.1, at.0)
    case Rotation180 => (p.width - 1 - at.0, p.height - 1 - at.1)
    case Rotation270 => (at.1, p.width - 1 - at.0)
  }

  predicate Covers(r: Rect, at: (int, int)) {
    r.x <= at.0 < r.x + r.width && r.y <= at.1 < r.y + r.height
  }

  lemma WrapOnce(x: int)
    ensures ToInt32(ToUInt32(x)) == ToInt32(x)
    ensures INT32_MIN <= x <= INT32_MAX ==> ToInt32(x) == x
    ensures INT32_MAX < x < 0x1_0000_0000 ==> ToInt32(x) == x - 0x1_0000_0000
  {}

  /** A difference may be wrapped before it is subtracted again. */
  lemma WrapBack(c: int, x: int)
    ensures ToInt32(c - ToInt32(x)) == ToInt32(c - x)
  {}

  /** The rotated rectangle's corner has coordinates that a 32-bit register holds; a panel has other corners only if
      one of its sides is 2^31 or more. */
  predicate CornerFits(r: Rect, p: Mode, turn: Rotation) {
    && (turn == Rotation90 || turn == Rotation180 ==> p.height - r.y - r.height <= INT32_MAX)
    && (turn == Rotation180 || turn == Rotation270 ==> p.width - r.x - r.width <= INT32_MAX)
  }

  /** An in-panel rectangle keeps its area. It comes to lie in the turned panel exactly if its new corner fits, and
      then it covers exactly the rotated pixels. */
  lemma RotateRectIsTheRotation(r: Rect, p: Mode, turn: Rotation)
    requires Inside(r, p)
    ensures var t := RotateRect(r, p, turn);
            && Area(t) == Area(r)
            && (Inside(t, Turned(p, turn)) <==> CornerFits(r, p, turn))
            && ((forall at :: Covers(r, at) <==> Covers(t, RotatePixel(at, p, turn))) <==>
                CornerFits(r, p, turn) || Area(r) == 0)
  {
    hide ToInt32, ToUInt32, Area;
    WrapOnce(p.height - r.y - r.height);
    WrapOnce(p.width - r.x - r.width);
    RotatedArea(r, p, turn);
    if Area(r) > 0 && !CornerFits(r, p, turn) {
      assert Covers(r, (r.x, r.y)) && !Covers(RotateRect(r, p, turn), RotatePixel((r.x, r.y), p, turn));
    }
  }

  lemma RotatedArea(r: Rect, p: Mode, turn: Rotation)
    ensures Area(RotateRect(r, p, turn)) == Area(r)
    ensures Area(r) > 0 <==> r.width > 0 && r.height > 0
  {
    hide ToInt32, ToUInt32;
  }

  function Quarters(turn: Rotation): nat {
    match turn case Rotation0 => 0 case Rotation90 => 1 case Rotation180 => 2 case Rotation270 => 3
  }

  function FromQuarters(n: nat): Rotation {
    match n % 4 case 0 => Rotation0 case 1 => Rotation90 case 2 => Rotation180 case _ => Rotation270
  }

  /** The formulas compose like rotations: 90 twice is 180, 180 twice and 90 then 270 are the identity, and so on. It
      makes no difference to this where a rectangle lies, and whether a subtraction wraps. */
  lemma RotateRectComposes(r: Rect, p: Mode, a: Rotation, b: Rotation)
    ensures RotateRect(RotateRect(r, p, a), Turned(p, a), b) ==
            RotateRect(r, p, FromQuarters(Quarters(a) + Quarters(b)))
  {
    hide ToInt32, ToUInt32;
    var x, y := p.width - r.x - r.width, p.height - r.y - r.height;
    WrapOnce(x);
    WrapOnce(y);
    WrapOnce(r.x);
    WrapOnce(r.y);
    WrapOnce(p.width - ToInt32(x) - r.width);
    WrapOnce(p.height - ToInt32(y) - r.height);
    WrapBack(p.width - r.width, x);
    WrapBack(p.height - r.height, y);
  }

  function RotateRects(rects: seq<Rect>, p: Mode, turn: Rotation): (t: seq<Rect>)
    ensures |t| == |rects| && forall i :: 0 <= i < |t| ==> t[i] == RotateRect(rects[i], p, turn)
  {
    seq(|rects|, i requires 0 <= i < |rects| => RotateRect(rects[i], p, turn))
  }

  /** What TransferBoundingRectsByRotation leaves in the caller's list: nothing for a display without rectangles, the
      list as it was if display or mode are missing, and nothing at 90 and 180 degrees, where the helpers take the
      result list by value, so that what they append is lost. */
  function Transferred(list: seq<Rect>, stored: Option<seq<Rect>>, turn: Option<Rotation>, mode: Option<Mode>):
      seq<Rect> {
    if stored.None? || stored.value == [] then []
    else match (turn, mode)
         case (None, _) => list
         case (Some(Rotation0), None) => stored.value
         case (Some(_), None) => list
         case (Some(Rotation0), Some(p)) => Filter(stored.value, p)
         case (Some(Rotation270), Some(p)) => RotateRects(Filter(stored.value, p), p, Rotation270)
         case _ => []
  }

  method TransferBoundingRects(list: seq<Rect>, stored: Option<seq<Rect>>, turn: Option<Rotation>, mode: Option<Mode>)
      returns (result: seq<Rect>)
    ensures result == Transferred(list, stored, turn, mode)
  {
    if stored.None? || stored.value == [] {
      return [];
    }
    if turn.None? {
      return list;
    }
    var filtered := stored.value;
    if mode.Some? {
      filtered := CheckBoundingRectsBoundary(filtered, mode.value);
    }
    if turn.value == Rotation0 {
      return filtered;
    }
    if mode.None? {
      return list;
    }
    result := [];
    if turn.value == Rotation270 {
      result := RotateBy270(filtered, mode.value);
    }
  }

  method RotateBy270(rects: seq<Rect>, p: Mode) returns (result: seq<Rect>)
    ensures result == RotateRects(rects, p, Rotation270)
  {
    result := [];
    var i := 0;
    while i < |rects|
      invariant i <= |rects| && result == RotateRects(rects, p, Rotation270)[..i]
    {
      var rect := rects[i];
      result := result + [Rect(rect.y, ToInt32(ToUInt32(p.width - rect.x - rect.width)), rect.height, rect.width)];
      i := i + 1;
    }
    assert RotateRects(rects, p, Rotation270)[..i] == RotateRects(rects, p, Rotation270);
  }

  /** The caller gets the rotated rectangles exactly when nothing turns by 90 or 180 degrees. */
  lemma TransferLosesQuarterAndHalfTurns(list: seq<Rect>, stored: seq<Rect>, turn: Rotation, p: Mode)
    ensures Transferred(list, Some(stored), Some(turn), Some(p)) == RotateRects(Filter(stored, p), p, turn)
            <==> turn == Rotation0 || turn == Rotation270 || Filter(stored, p) == []
  {
    hide RotateRect, Keeps;
    assert turn == Rotation0 ==> RotateRects(Filter(stored, p), p, turn) == Filter(stored, p) by {
      RotateByNothing(Filter(stored, p), p);
    }
  }

  /** What the caller gets otherwise: nothing at 90 and 180 degrees and for a display without rectangles, its own list
      back without a display or without a mode to rotate by, and the unfiltered rectangles at 0 degrees then. */
  lemma TransferWithoutRotation(list: seq<Rect>, stored: Option<seq<Rect>>, turn: Option<Rotation>, mode: Option<Mode>)
    ensures stored == None || stored == Some([]) ==> Transferred(list, stored, turn, mode) == []
    ensures stored.Some? && stored.value != [] ==>
              && Transferred(list, stored, None, mode) == list
              && Transferred(list, stored, Some(Rotation0), None) == stored.value
              && (turn.Some? && turn.value != Rotation0 ==> Transferred(list, stored, turn, None) == list)
              && (turn == Some(Rotation90) || turn == Some(Rotation180) ==>
                    forall p :: Transferred(list, stored, turn, Some(p)) == [])
  {}

  lemma RotateByNothing(rects: seq<Rect>, p: Mode)
    ensures RotateRects(rects, p, Rotation0) == rects
  {}

  // ---------------------------------------------------------------- waterfall strips

  datatype Boundary = Boundary(left: UInt32, top: UInt32, right: UInt32, bottom: UInt32)

  datatype Strips = Strips(left: Rect, top: Rect, right: Rect, bottom: Rect)

  const NO_STRIPS := Strips(EMPTY, EMPTY, EMPTY, EMPTY)

  predicate HalfSized(b: Boundary, p: Mode) {
    b.left <= p.width / 2 && b.right <= p.width / 2 && b.top <= p.height / 2 && b.bottom <= p.height / 2
  }

  function CreateWaterfallRect(left: int, top: int, width: UInt32, height: UInt32): Rect {
    if width == 0 || height == 0 then EMPTY
    else Rect(ToInt32(ToUInt32(left)), ToInt32(ToUInt32(top)), width, height)
  }

  function StripsAt(b: Boundary, p: Mode, turn: Rotation): Strips {
    match turn
    case Rotation0 =>
      Strips(CreateWaterfallRect(0, 0, b.left, p.height),
             CreateWaterfallRect(0, 0, p.width, b.top),
             CreateWaterfallRect(p.width - b.right, 0, b.right, p.height),
             CreateWaterfallRect(0, p.height - b.bottom, p.width, b.bottom))
    case Rotation90 =>
      Strips(CreateWaterfallRect(0, 0, b.bottom, p.width),
             CreateWaterfallRect(0, 0, p.height, b.left),
             CreateWaterfallRect(p.height - b.top, 0, b.top, p.width),
             CreateWaterfallRect(0, p.width - b.right, p.height, b.right))
    case Rotation180 =>
      Strips(CreateWaterfallRect(0, 0, b.right, p.height),
             CreateWaterfallRect(0, 0, b.bottom, p.width),
             CreateWaterfallRect(p.width - b.left, 0, b.left, p.height),
             CreateWaterfallRect(0, p.height - b.top, p.width, b.top))
    case Rotation270 =>
      Strips(CreateWaterfallRect(0, 0, b.top, p.width),
             CreateWaterfallRect(0, 0, p.height, b.right),
             CreateWaterfallRect(p.height - b.bottom, 0, b.bottom, p.width),
             CreateWaterfallRect(0, p.width - b.left, p.height, b.left))
  }

  /** The strips that rotating the four unrotated strips gives; an empty strip is all zero. */
  function RotatedStrips(b: Boundary, p: Mode, turn: Rotation): Strips {
    var s := StripsAt(b, p, Rotation0);
    var l, t, r, m := RotateStrip(s.left, p, turn), RotateStrip(s.top, p, turn), RotateStrip(s.right, p, turn),
                      RotateStrip(s.bottom, p, turn);
    match turn
    case Rotation0 => s
    case Rotation90 => Strips(m, l, t, r)
    case Rotation180 => Strips(r, m, l, t)
    case Rotation270 => Strips(t, r, m, l)
  }

  function RotateStrip(s: Rect, p: Mode, turn: Rotation): Rect {
    if s == EMPTY then EMPTY else RotateRect(s, p, turn)
  }

  lemma WaterfallRectIs(left: int, top: int, width: UInt32, height: UInt32)
    ensures CreateWaterfallRect(left, top, width, height) ==
            if width == 0 || height == 0 then EMPTY else Rect(ToInt32(left), ToInt32(top), width, height)
  {
    WrapOnce(left);
    WrapOnce(top);
  }

  /** A strip at (x, y) under a rotation, next to the strip it is the image of. */
  lemma StripIsRotated(x: int, y: int, w: UInt32, h: UInt32, p: Mode, turn: Rotation)
    ensures var s := CreateWaterfallRect(x, y, w, h);
            RotateStrip(s, p, turn) ==
              (match turn
               case Rotation0 => s
               case Rotation90 => CreateWaterfallRect(p.height - y - h, x, h, w)
               case Rotation180 => CreateWaterfallRect(p.width - x - w, p.height - y - h, w, h)
               case Rotation270 => CreateWaterfallRect(y, p.width - x - w, h, w))
  {
    hide ToInt32, ToUInt32, CreateWaterfallRect;
    WaterfallRectIs(x, y, w, h);
    WaterfallRectIs(p.height - y - h, x, h, w);
    WaterfallRectIs(p.width - x - w, p.height - y - h, w, h);
    WaterfallRectIs(y, p.width - x - w, h, w);
    WrapOnce(p.height - ToInt32(y) - h);
    WrapOnce(p.width - ToInt32(x) - w);
    WrapBack(p.height - h, y);
    WrapBack(p.width - w, x);
  }

  /** The strips written for each rotation are the rotated unrotated strips, whatever the sizes; for the top strip at
      180 degrees, whose sides are exchanged, only if it is empty or square. */
  lemma StripsAgreeWithRotation(b: Boundary, p: Mode, turn: Rotation)
    ensures turn != Rotation180 ==> StripsAt(b, p, turn) == RotatedStrips(b, p, turn)
    ensures turn == Rotation180 ==>
              var s, t := StripsAt(b, p, turn), RotatedStrips(b, p, turn);
              && s.left == t.left && s.right == t.right && s.bottom == t.bottom
              && (s.top == t.top <==> b.bottom == 0 || p.width == 0 || b.bottom == p.width)
  {
    hide ToInt32, ToUInt32, CreateWaterfallRect, RotateStrip;
    StripIsRotated(0, 0, b.left, p.height, p, turn);
    StripIsRotated(0, 0, p.width, b.top, p, turn);
    StripIsRotated(p.width - b.right, 0, b.right, p.height, p, turn);
    StripIsRotated(0, p.height - b.bottom, p.width, b.bottom, p, turn);
    if turn == Rotation180 {
      WaterfallRectIs(0, 0, b.bottom, p.width);
      WaterfallRectIs(0, 0, p.width, b.bottom);
    }
  }

  lemma StripInside(left: nat, top: nat, width: UInt32, height: UInt32, q: Mode)
    requires left + width <= q.width && top + height <= q.height
    ensures Inside(CreateWaterfallRect(left, top, width, height), q) <==>
              width == 0 || height == 0 || (left <= INT32_MAX && top <= INT32_MAX)
  {
    hide ToInt32;
    WaterfallRectIs(left, top, width, height);
    WrapOnce(left);
    WrapOnce(top);
  }

  lemma UnrotatedStripsLieInside(b: Boundary, p: Mode)
    requires HalfSized(b, p)
    ensures var s := StripsAt(b, p, Rotation0);
            && Inside(s.left, p) && Inside(s.top, p)
            && (Inside(s.right, p) <==> s.right == EMPTY || p.width - s.right.width <= INT32_MAX)
            && (Inside(s.bottom, p) <==> s.bottom == EMPTY || p.height - s.bottom.height <= INT32_MAX)
  {
    hide ToInt32, ToUInt32, CreateWaterfallRect, Inside;
    StripInside(0, 0, b.left, p.height, p);
    StripInside(0, 0, p.width, b.top, p);
    StripInside(p.width - b.right, 0, b.right, p.height, p);
    StripInside(0, p.height - b.bottom, p.width, b.bottom, p);
    WaterfallRectIs(p.width - b.right, 0, b.right, p.height);
    WaterfallRectIs(0, p.height - b.bottom, p.width, b.bottom);
  }

  /** The boundary as it is seen from the turned panel. */
  function TurnedBoundary(b: Boundary, turn: Rotation): Boundary {
    match turn
    case Rotation0 => b
    case Rotation90 => Boundary(b.bottom, b.left, b.top, b.right)
    case Rotation180 => Boundary(b.right, b.bottom, b.left, b.top)
    case Rotation270 => Boundary(b.top, b.right, b.bottom, b.left)
  }

  /** Which strips lie inside the turned panel: the left one always; the right and the bottom one exactly if their
      corners fit in 32 bits; the top one at 180 degrees exactly if its exchanged sides fit in the panel. */
  lemma StripsLieInside(b: Boundary, p: Mode, turn: Rotation)
    requires HalfSized(b, p)
    ensures var s, q := StripsAt(b, p, turn), Turned(p, turn);
            && Inside(s.left, q)
            && (Inside(s.right, q) <==> s.right == EMPTY || q.width - s.right.width <= INT32_MAX)
            && (Inside(s.bottom, q) <==> s.bottom == EMPTY || q.height - s.bottom.height <= INT32_MAX)
            && (Inside(s.top, q) <==>
                turn != Rotation180 || b.bottom == 0 || p.width == 0 || (b.bottom <= p.width && p.width <= p.height))
  {
    hide ToInt32, ToUInt32, CreateWaterfallRect;
    UnrotatedStripsLieInside(TurnedBoundary(b, turn), Turned(p, turn));
    if turn == Rotation180 {
      WaterfallRectIs(0, 0, b.bottom, p.width);
      WrapOnce(0);
    }
  }

  lemma PixelOfStrip(left: nat, top: nat, width: UInt32, height: UInt32, at: (int, int))
    requires width == 0 || height == 0 || (left <= INT32_MAX && top <= INT32_MAX)
    ensures Covers(CreateWaterfallRect(left, top, width, height), at) <==>
              left <= at.0 < left + width && top <= at.1 < top + height
  {
    hide ToInt32;
    WaterfallRectIs(left, top, width, height);
    WrapOnce(left);
    WrapOnce(top);
  }

  /** The unrotated strips by their pixels: each is what the boundary cuts off on its side of the panel. */
  lemma StripsByPixels(b: Boundary, p: Mode, at: (int, int))
    requires 2 * b.left <= p.width && 2 * b.right <= p.width && 2 * b.top <= p.height && 2 * b.bottom <= p.height
    requires b.right == 0 || p.height == 0 || p.width - b.right <= INT32_MAX
    requires b.bottom == 0 || p.width == 0 || p.height - b.bottom <= INT32_MAX
    requires 0 <= at.0 < p.width && 0 <= at.1 < p.height
    ensures var s := StripsAt(b, p, Rotation0);
            && (Covers(s.left, at) <==> at.0 < b.left)
            && (Covers(s.right, at) <==> at.0 >= p.width - b.right)
            && (Covers(s.top, at) <==> at.1 < b.top)
            && (Covers(s.bottom, at) <==> at.1 >= p.height - b.bottom)
  {
    hide CreateWaterfallRect, Covers;
    PixelOfStrip(0, 0, b.left, p.height, at);
    PixelOfStrip(0, 0, p.width, b.top, at);
    PixelOfStrip(p.width - b.right, 0, b.right, p.height, at);
    PixelOfStrip(0, p.height - b.bottom, p.width, b.bottom, at);
  }

  /** The same under every rotation: the strips of the turned panel cover the rotated pixels of the sides that are left,
      top, right and bottom after the turn. The top strip at 180 degrees does so only if it is empty or square. */
  lemma StripsByRotatedPixels(b: Boundary, p: Mode, turn: Rotation, at: (int, int))
    requires 2 * b.left <= p.width && 2 * b.right <= p.width && 2 * b.top <= p.height && 2 * b.bottom <= p.height
    requires p.width <= INT32_MAX && p.height <= INT32_MAX
    requires 0 <= at.0 < p.width && 0 <= at.1 < p.height
    ensures var s, to := StripsAt(b, p, turn), RotatePixel(at, p, turn);
            var left, right, top, bottom := at.0 < b.left, at.0 >= p.width - b.right,
                                            at.1 < b.top, at.1 >= p.height - b.bottom;
            match turn
            case Rotation0 => Covers(s.left, to) == left && Covers(s.top, to) == top
                              && Covers(s.right, to) == right && Covers(s.bottom, to) == bottom
            case Rotation90 => Covers(s.left, to) == bottom && Covers(s.top, to) == left
                               && Covers(s.right, to) == top && Covers(s.bottom, to) == right
            case Rotation180 => Covers(s.left, to) == right && Covers(s.right, to) == left
                                && Covers(s.bottom, to) == top
                                && (b.bottom == p.width ==> Covers(s.top, to) == bottom)
            case Rotation270 => Covers(s.left, to) == top && Covers(s.top, to) == right
                                && Covers(s.right, to) == bottom && Covers(s.bottom, to) == left
  {
    hide CreateWaterfallRect, Covers, ToInt32;
    StripsByPixels(TurnedBoundary(b, turn), Turned(p, turn), RotatePixel(at, p, turn));
  }

  // ---------------------------------------------------------------- the controller

  class CutoutController {
    var isWaterfallDisplay: bool
    var curvedScreenBoundary: seq<Int32>
    var waterfallRects: Strips

    constructor ()
      ensures curvedScreenBoundary == [] && waterfallRects == NO_STRIPS && !isWaterfallDisplay
    {
      isWaterfallDisplay, curvedScreenBoundary, waterfallRects := false, [], NO_STRIPS;
    }

    predicate Valid()
      reads this
    {
      curvedScreenBoundary == [] || |curvedScreenBoundary| >= 4
    }

    method SetCurvedScreenBoundary(boundary: seq<Int32>)
      modifies this`curvedScreenBoundary
      ensures Valid() && |curvedScreenBoundary| >= 4 && boundary <= curvedScreenBoundary
      ensures forall i :: |boundary| <= i < |curvedScreenBoundary| ==> curvedScreenBoundary[i] == 0
      ensures |boundary| >= 4 ==> curvedScreenBoundary == boundary
    {
      var padded := boundary;
      while |padded| < 4
        invariant boundary <= padded && (|padded| <= 4 || padded == boundary)
        invariant forall i :: |boundary| <= i < |padded| ==> padded[i] == 0
        decreases 4 - |padded|
      {
        padded := padded + [0];
      }
      curvedScreenBoundary := padded;
    }

    /** Negative entries become huge unsigned ones and fail the half-size test. */
    method CalcBuiltInDisplayWaterfallRects(mode: Option<Mode>, rotation: Rotation)
      requires Valid()
      modifies this`waterfallRects
      ensures waterfallRects ==
              if !isWaterfallDisplay || curvedScreenBoundary == [] || mode.None? then NO_STRIPS
              else
                var c, m := curvedScreenBoundary, mode.value;
                if !(forall i :: 0 <= i < 4 ==> c[i] >= 0) || 2 * c[0] > m.width || 2 * c[2] > m.width ||
                   2 * c[1] > m.height || 2 * c[3] > m.height
                then NO_STRIPS
                else StripsAt(Boundary(c[0], c[1], c[2], c[3]), mode.value, rotation)
    {
      hide StripsAt, ToUInt32, HalfSized;
      waterfallRects := NO_STRIPS;
      if !isWaterfallDisplay || curvedScreenBoundary == [] {
        return;
      }
      var c := curvedScreenBoundary;
      var left, top, right, bottom := ToUInt32(c[0]), ToUInt32(c[1]), ToUInt32(c[2]), ToUInt32(c[3]);
      UnsignedOf(c[0]);
      UnsignedOf(c[1]);
      UnsignedOf(c[2]);
      UnsignedOf(c[3]);
      if left == 0 && top == 0 && right == 0 && bottom == 0 {
        if mode.Some? {
          NoBoundaryNoStrips(mode.value, rotation);
        }
        return;
      }
      if mode.None? {
        return;
      }
      var p := mode.value;
      HalfSizedIs(Boundary(left, top, right, bottom), p);
      if left > p.width / 2 || right > p.width / 2 || top > p.height / 2 || bottom > p.height / 2 {
        return;
      }
      waterfallRects := StripsAt(Boundary(left, top, right, bottom), p, rotation);
    }
  }

  lemma UnsignedOf(x: Int32)
    ensures if x >= 0 then ToUInt32(x) == x else ToUInt32(x) > INT32_MAX
  {}

  lemma HalfSizedIs(b: Boundary, p: Mode)
    ensures HalfSized(b, p) <==> !(b.left > p.width / 2 || b.right > p.width / 2 ||
                                   b.top > p.height / 2 || b.bottom > p.height / 2)
    ensures HalfSized(b, p) ==>
              b.left <= INT32_MAX && b.top <= INT32_MAX && b.right <= INT32_MAX && b.bottom <= INT32_MAX
  {}

  lemma NoBoundaryNoStrips(p: Mode, turn: Rotation)
    ensures StripsAt(Boundary(0, 0, 0, 0), p, turn) == NO_STRIPS
  {}
}
