/**
 * A display of the server (AbstractDisplay): its size under rotation, the waterfall compression of the default
 * display when it is horizontal, and the update of its size when the screen's mode changes.
 */
module Displays {
  import opened DmTypes

  datatype Display = Display(
    id: Id, screenId: Id, width: Int32, height: Int32, offset: Point, rotation: Rotation, compressed: bool)

  /** What the display controller reads of a screen; `position` is its place in its own group. */
  datatype Screen = Screen(dmsId: Id, mode: Option<Mode>, rotation: Rotation, isVirtual: bool, position: Point)

  // ---------------------------------------------------------------- rotation

  function Rotate(d: Display, r: Rotation): Display {
    if IsVertical(r) != IsVertical(d.rotation) then d.(width := d.height, height := d.width, rotation := r)
    else d.(rotation := r)
  }

  function NewDisplay(id: Id, m: Mode, screenId: Id, r: Rotation): Display {
    Rotate(Display(id, screenId, ToInt32(m.width), ToInt32(m.height), ORIGIN, Rotation0, false), r)
  }

  /** The mode's size as seen under a rotation. */
  predicate IsOriented(d: Display, m: Mode) {
    if IsVertical(d.rotation) then d.width == ToInt32(m.width) && d.height == ToInt32(m.height)
    else d.width == ToInt32(m.height) && d.height == ToInt32(m.width)
  }

  function RotateAll(d: Display, rs: seq<Rotation>): Display {
    if rs == [] then d else Rotate(RotateAll(d, rs[..|rs| - 1]), rs[|rs| - 1])
  }

  /** After any rotations a display has its mode's size, oriented by the last one; nothing else has changed. */
  lemma {:induction false} RotationsKeepOrientation(id: Id, m: Mode, s: Id, r: Rotation, rs: seq<Rotation>)
    ensures var d := RotateAll(NewDisplay(id, m, s, r), rs);
            && IsOriented(d, m)
            && d.rotation == (if rs == [] then r else rs[|rs| - 1])
            && d.id == id && d.screenId == s && d.offset == ORIGIN && !d.compressed
  {
    if rs != [] {
      RotationsKeepOrientation(id, m, s, r, rs[..|rs| - 1]);
    }
  }

  // ---------------------------------------------------------------- size change

  /** The mode that the display's size is compared with: its size turned back. */
  function OwnSize(d: Display): Mode {
    if IsVertical(d.rotation) then Mode(ToUInt32(d.width), ToUInt32(d.height))
    else Mode(ToUInt32(d.height), ToUInt32(d.width))
  }

  function UpdateSize(d: Display, m: Mode, offset: Point): Display {
    (if OwnSize(d) == m then d else d.(width := ToInt32(m.width), height := ToInt32(m.height))).(offset := offset)
  }

  lemma CastIsInjective(a: UInt32, b: UInt32)
    ensures ToUInt32(ToInt32(a)) == a
    ensures ToInt32(a) == ToInt32(b) ==> a == b
  {}

  lemma CastsAreInverse(a: Int32, b: UInt32)
    ensures ToInt32(b) == a <==> b == ToUInt32(a)
  {}

  /** A size event leaves a display alone exactly when it carries the display's own offset and its size, turned back
      or as it is. The size turned back is the mode by which the display is oriented, if there is one. */
  lemma OwnModeAndOffsetChangeNothing(d: Display, m: Mode, offset: Point)
    ensures UpdateSize(d, m, offset) == d <==>
              offset == d.offset && (m == OwnSize(d) || m == Mode(ToUInt32(d.width), ToUInt32(d.height)))
    ensures IsOriented(d, m) <==> m == OwnSize(d)
    ensures IsOriented(d, m) ==> UpdateSize(d, m, offset) == d.(offset := offset)
  {
    hide ToInt32, ToUInt32;
    CastsAreInverse(d.width, m.width);
    CastsAreInverse(d.height, m.height);
    CastsAreInverse(d.width, m.height);
    CastsAreInverse(d.height, m.width);
  }

  /** A new mode is written as it is. The display is oriented by it exactly when no rotation was due. */
  lemma NewModeIsWrittenUnrotated(d: Display, m: Mode, offset: Point)
    ensures IsOriented(UpdateSize(d, m, offset), m) <==>
              IsVertical(d.rotation) || m.width == m.height || IsOriented(d, m)
    ensures var e := UpdateSize(d, m, offset);
            && e == d.(width := e.width, height := e.height, offset := offset)
            && (IsOriented(d, m) || (e.width == ToInt32(m.width) && e.height == ToInt32(m.height)))
  {
    hide ToInt32, ToUInt32;
    OwnModeAndOffsetChangeNothing(d, m, offset);
    CastIsInjective(m.width, m.height);
    CastIsInjective(m.height, m.width);
  }

  // ---------------------------------------------------------------- compression

  /** `sizeInPx` is the configured size times the pixel ratio, truncated; `sizeInVp` is the configured size. */
  datatype Compression = Compression(enabled: bool, sizeInVp: UInt32, sizeInPx: UInt32)

  predicate Effective(c: Compression, m: Mode) {
    c.enabled && c.sizeInVp != 0 && c.sizeInPx < m.height / 4 && c.sizeInPx < m.width / 4
  }

  /** The rotations that ScreenRotationController maps the two landscape device rotations to. */
  predicate IsHorizontal(m: Mode, r: Rotation) {
    var landscapeDevice := !(m.width < m.height);
    || r == (if landscapeDevice then Rotation0 else Rotation90)
    || r == (if landscapeDevice then Rotation180 else Rotation270)
  }

  function Compress(c: Compression, m: Mode, d: Display): Display {
    var defaultVertical := m.height > m.width;
    if !Effective(c, m) then d
    else if IsHorizontal(m, d.rotation) then
      var side := if defaultVertical then m.width else m.height;
      d.(offset := Point(0, c.sizeInPx), height := ToInt32(side - 2 * c.sizeInPx), compressed := true)
    else if !d.compressed then d
    else
      d.(offset := ORIGIN, compressed := false,
         width := ToInt32(if defaultVertical then m.width else m.height),
         height := ToInt32(if defaultVertical then m.height else m.width))
  }

  /** One rotation event of the screen of the default display. */
  function RotationEvent(c: Compression, m: Mode, d: Display, r: Rotation): Display {
    Compress(c, m, Rotate(d, r))
  }

  function RotationEvents(c: Compression, m: Mode, d: Display, rs: seq<Rotation>): Display {
    if rs == [] then d else RotationEvent(c, m, RotationEvents(c, m, d, rs[..|rs| - 1]), rs[|rs| - 1])
  }

  /** Where events end, in terms of the mode and the current rotation only. */
  predicate IsSettled(c: Compression, m: Mode, d: Display) {
    if Effective(c, m) && IsHorizontal(m, d.rotation) then
      && d.compressed
      && d.offset == Point(0, c.sizeInPx)
      && IsOriented(d.(height := ToInt32(Side(m, d.rotation))), m)
      && d.height == ToInt32(Side(m, d.rotation) - 2 * c.sizeInPx)
    else
      !d.compressed && d.offset == ORIGIN && IsOriented(d, m)
  }

  /** The full height under a rotation. */
  function Side(m: Mode, r: Rotation): UInt32 {
    if IsVertical(r) then m.height else m.width
  }

  lemma SettledIsUnique(c: Compression, m: Mode, a: Display, b: Display)
    requires IsSettled(c, m, a) && IsSettled(c, m, b)
    requires a.id == b.id && a.screenId == b.screenId && a.rotation == b.rotation
    ensures a == b
  {}

  /** The full-size display that nothing has compressed. */
  predicate IsPlain(m: Mode, d: Display) {
    !d.compressed && d.offset == ORIGIN && IsOriented(d, m)
  }

  lemma TurnSettles(c: Compression, m: Mode, d: Display, r: Rotation)
    requires IsPlain(m, d) || IsSettled(c, m, d)
    ensures var e := RotationEvent(c, m, d, r);
            IsSettled(c, m, e) && e.rotation == r && e.id == d.id && e.screenId == d.screenId
  {
    hide ToInt32;
  }

  lemma {:induction false} EventsSettle(c: Compression, m: Mode, d: Display, rs: seq<Rotation>)
    requires IsPlain(m, d)
    ensures var e := RotationEvents(c, m, d, rs);
            && (if rs == [] then e == d else e.rotation == rs[|rs| - 1] && IsSettled(c, m, e))
            && e.id == d.id && e.screenId == d.screenId
  {
    hide IsPlain, IsSettled, RotationEvent;
    if rs != [] {
      EventsSettle(c, m, d, rs[..|rs| - 1]);
      TurnSettles(c, m, RotationEvents(c, m, d, rs[..|rs| - 1]), rs[|rs| - 1]);
    }
  }

  /** From the start offset (0, 0) the display after any rotation events depends on the last rotation alone. */
  lemma CompressionIsPathIndependent(c: Compression, m: Mode, d: Display, rs: seq<Rotation>, rs': seq<Rotation>)
    requires IsPlain(m, d)
    requires rs != [] && rs' != [] && rs[|rs| - 1] == rs'[|rs'| - 1]
    ensures RotationEvents(c, m, d, rs) == RotationEvents(c, m, d, rs')
  {
    EventsSettle(c, m, d, rs);
    EventsSettle(c, m, d, rs');
    SettledIsUnique(c, m, RotationEvents(c, m, d, rs), RotationEvents(c, m, d, rs'));
  }

  ghost predicate PathIndependent(c: Compression, m: Mode, d: Display) {
    forall rs, rs' :: rs != [] && rs' != [] && rs[|rs| - 1] == rs'[|rs'| - 1] ==>
      RotationEvents(c, m, d, rs) == RotationEvents(c, m, d, rs')
  }

  /** Any other start offset is forgotten by a compression but not without one: (0, 0) is the exact condition. */
  lemma PathIndependentExactlyFromOrigin(c: Compression, m: Mode, d: Display)
    requires Effective(c, m) && !d.compressed && IsOriented(d, m)
    ensures PathIndependent(c, m, d) <==> d.offset == ORIGIN
  {
    if d.offset == ORIGIN {
      forall rs, rs' | rs != [] && rs' != [] && rs[|rs| - 1] == rs'[|rs'| - 1]
        ensures RotationEvents(c, m, d, rs) == RotationEvents(c, m, d, rs')
      {
        CompressionIsPathIndependent(c, m, d, rs, rs');
      }
    } else {
      var h := if m.width < m.height then Rotation90 else Rotation0;
      var v := if m.width < m.height then Rotation0 else Rotation90;
      var e := RotationEvent(c, m, d, h);
      assert RotationEvents(c, m, d, [v]) == RotationEvent(c, m, RotationEvents(c, m, d, []), v);
      assert [h, v][..1] == [h] && [h][..0] == [];
      assert RotationEvents(c, m, d, [h]) == e;
      assert RotationEvents(c, m, d, [h, v]) == RotationEvent(c, m, e, v);
      assert RotationEvents(c, m, d, [v]).offset != RotationEvents(c, m, d, [h, v]).offset;
      assert [v][|[v]| - 1] == [h, v][|[h, v]| - 1];
    }
  }

  /** The whole effect of any rotation events: if the compression is set up and less than a quarter of both sides, a
      display that is wider than high (or square and not turned by a quarter) loses the same strip above and below; any
      other is the full panel as its rotation shows it. */
  lemma CompressionCutsBothSides(c: Compression, m: Mode, d: Display, rs: seq<Rotation>)
    requires m.width <= INT32_MAX && m.height <= INT32_MAX
    requires IsPlain(m, d) && rs != []
    ensures var last := rs[|rs| - 1];
            var e, full := RotationEvents(c, m, d, rs), Rotate(d, last);
            var cuts := c.enabled && c.sizeInVp > 0 && 4 * c.sizeInPx + 4 <= m.width && 4 * c.sizeInPx + 4 <= m.height
                        && (full.width > full.height
                            || (full.width == full.height && (last == Rotation0 || last == Rotation180)));
            && e.compressed == cuts
            && (!cuts ==> e == full)
            && (cuts ==> e.offset.x == 0 && e.offset.y == c.sizeInPx && e.height == full.height - 2 * c.sizeInPx
                         && e.width == full.width && e.rotation == last && e.height > full.height / 2)
  {
    hide RotationEvents, IsSettled, IsPlain, ToInt32;
    EventsSettle(c, m, d, rs);
    PlainStaysPlain(m, d, rs[|rs| - 1]);
    SettledCuts(c, m, RotationEvents(c, m, d, rs), Rotate(d, rs[|rs| - 1]));
  }

  lemma PlainStaysPlain(m: Mode, d: Display, r: Rotation)
    requires IsPlain(m, d)
    ensures IsPlain(m, Rotate(d, r)) && Rotate(d, r).rotation == r
    ensures Rotate(d, r).id == d.id && Rotate(d, r).screenId == d.screenId
  {
    hide ToInt32;
  }

  /** A settled display next to the full panel under the same rotation. */
  lemma SettledCuts(c: Compression, m: Mode, e: Display, full: Display)
    requires m.width <= INT32_MAX && m.height <= INT32_MAX
    requires IsSettled(c, m, e) && IsPlain(m, full)
    requires e.rotation == full.rotation && e.id == full.id && e.screenId == full.screenId
    ensures var cuts := c.enabled && c.sizeInVp > 0 && 4 * c.sizeInPx + 4 <= m.width && 4 * c.sizeInPx + 4 <= m.height
                        && (full.width > full.height || (full.width == full.height && IsVertical(e.rotation)));
            && e.compressed == cuts
            && (!cuts ==> e == full)
            && (cuts ==> e.offset.x == 0 && e.offset.y == c.sizeInPx && e.height == full.height - 2 * c.sizeInPx
                         && e.width == full.width && e.height > full.height / 2)
  {
    hide ToInt32;
    SmallSizesFit(m.width);
    SmallSizesFit(m.height);
    assert Effective(c, m) <==>
        c.enabled && c.sizeInVp > 0 && 4 * c.sizeInPx + 4 <= m.width && 4 * c.sizeInPx + 4 <= m.height;
    hide Effective;
    if e.compressed {
      SmallSizesFit(Side(m, e.rotation) - 2 * c.sizeInPx);
    }
  }

  lemma SmallSizesFit(x: UInt32)
    requires x <= INT32_MAX
    ensures ToInt32(x) == x
  {}

  // ---------------------------------------------------------------- rotation and size events

  /** What happens to the default display while its screen keeps its mode and its start point (0, 0). */
  datatype Event = Turn(rotation: Rotation) | Resize

  function EventStep(c: Compression, m: Mode, d: Display, e: Event): Display {
    match e
    case Turn(r) => RotationEvent(c, m, d, r)
    case Resize => UpdateSize(d, m, ORIGIN)
  }

  function Events(c: Compression, m: Mode, d: Display, events: seq<Event>): Display {
    if events == [] then d
    else EventStep(c, m, Events(c, m, d, events[..|events| - 1]), events[|events| - 1])
  }

  function RotationAfter(r: Rotation, events: seq<Event>): Rotation {
    if events == [] then r
    else
      match events[|events| - 1]
      case Turn(r') => r'
      case Resize => RotationAfter(r, events[..|events| - 1])
  }

  /** A size event with the screen's own mode leaves a settled display settled exactly if it is not compressed, or
      compressed by nothing. */
  lemma ResizeKeepsSettled(c: Compression, m: Mode, d: Display, offset: Point)
    requires IsSettled(c, m, d)
    ensures IsSettled(c, m, UpdateSize(d, m, offset)) <==> offset == ORIGIN && (!d.compressed || c.sizeInPx == 0)
  {
    hide ToInt32, ToUInt32;
    OwnModeAndOffsetChangeNothing(d, m, offset);
    if Effective(c, m) && d.compressed {
      CastIsInjective(m.width, m.height);
      CastIsInjective(m.height, m.height - 2 * c.sizeInPx);
      CastIsInjective(m.width, m.width - 2 * c.sizeInPx);
    }
  }

  /** The turns that put a display right again. */
  predicate Repairs(m: Mode, e: Event) {
    e.Turn? && (!IsHorizontal(m, e.rotation) || m.width >= m.height)
  }

  /** Event j is a size event of a compressed display, and no later turn repairs what it does. */
  predicate Damages(c: Compression, m: Mode, r: Rotation, events: seq<Event>, j: nat)
    requires j < |events|
  {
    && Effective(c, m) && c.sizeInPx > 0
    && events[j].Resize? && IsHorizontal(m, RotationAfter(r, events[..j]))
    && forall k :: j < k < |events| ==> !Repairs(m, events[k])
  }

  predicate Damaged(c: Compression, m: Mode, r: Rotation, events: seq<Event>) {
    exists j :: 0 <= j < |events| && Damages(c, m, r, events, j)
  }

  lemma DamagedSnoc(c: Compression, m: Mode, r: Rotation, events: seq<Event>)
    requires events != []
    ensures var n := |events| - 1;
            Damaged(c, m, r, events) <==>
              || (Damaged(c, m, r, events[..n]) && !Repairs(m, events[n]))
              || (Effective(c, m) && c.sizeInPx > 0 && events[n].Resize?
                  && IsHorizontal(m, RotationAfter(r, events[..n])))
  {
    hide Effective, IsHorizontal, RotationAfter, Repairs;
    var n := |events| - 1;
    assert forall j :: 0 <= j < n ==> events[..n][..j] == events[..j] && events[..n][j] == events[j];
    if Damaged(c, m, r, events[..n]) && !Repairs(m, events[n]) {
      var j :| 0 <= j < n && Damages(c, m, r, events[..n], j);
      assert Damages(c, m, r, events, j);
    }
    if Damaged(c, m, r, events) {
      var j :| 0 <= j <= n && Damages(c, m, r, events, j);
      if j < n {
        assert Damages(c, m, r, events[..n], j);
      }
    }
    assert Damages(c, m, r, events, n) <==>
           Effective(c, m) && c.sizeInPx > 0 && events[n].Resize? && IsHorizontal(m, RotationAfter(r, events[..n]));
  }

  /** A compressed display whose panel was written over the cut: at full size at (0, 0), without the rotation, or, in
      a portrait panel that was turned again, with the two sides taken from the panel's width. */
  predicate IsDamaged(c: Compression, m: Mode, d: Display) {
    && Effective(c, m) && c.sizeInPx > 0 && IsHorizontal(m, d.rotation)
    && d.compressed && d.width == ToInt32(m.width)
    && (|| (d.offset == ORIGIN && d.height == ToInt32(m.height))
        || (m.width < m.height && d.offset == Point(0, c.sizeInPx) && d.height == ToInt32(m.width - 2 * c.sizeInPx)))
  }

  lemma DamagedIsNotSettled(c: Compression, m: Mode, d: Display)
    requires IsDamaged(c, m, d)
    ensures !IsSettled(c, m, d)
  {
    hide ToInt32;
    CastIsInjective(m.width, m.height);
  }

  lemma DamagedTurns(c: Compression, m: Mode, d: Display, r: Rotation)
    requires IsDamaged(c, m, d)
    ensures var e := RotationEvent(c, m, d, r);
            if Repairs(m, Turn(r)) then IsSettled(c, m, e) else IsDamaged(c, m, e) && e.offset != ORIGIN
  {
    hide ToInt32;
  }

  lemma DamagedIsResized(c: Compression, m: Mode, d: Display)
    requires IsDamaged(c, m, d) || (IsSettled(c, m, d) && d.compressed && c.sizeInPx > 0)
    ensures var e := UpdateSize(d, m, ORIGIN);
            IsDamaged(c, m, e) && e.offset == ORIGIN && e.rotation == d.rotation
  {
    hide ToInt32, ToUInt32;
    OwnModeAndOffsetChangeNothing(d, m, ORIGIN);
    CastIsInjective(m.width, m.height);
    CastIsInjective(m.height, m.height - 2 * c.sizeInPx);
    CastIsInjective(m.width, m.width - 2 * c.sizeInPx);
  }

  /** One event, on a settled or a damaged display. */
  lemma EventDamages(c: Compression, m: Mode, d: Display, e: Event)
    requires IsSettled(c, m, d) || IsDamaged(c, m, d)
    ensures var d' := EventStep(c, m, d, e);
            && d'.rotation == (if e.Turn? then e.rotation else d.rotation)
            && (if (IsDamaged(c, m, d) && !Repairs(m, e)) ||
                   (Effective(c, m) && c.sizeInPx > 0 && e.Resize? && IsHorizontal(m, d.rotation))
                then IsDamaged(c, m, d') && (d'.offset == ORIGIN <==> e.Resize?)
                else IsSettled(c, m, d'))
  {
    hide ToInt32, ToUInt32, Effective, IsHorizontal, RotationEvent, UpdateSize;
    RotationIsSet(c, m, d, e);
    match e
    case Turn(r) =>
      if IsDamaged(c, m, d) {
        DamagedTurns(c, m, d, r);
        DamagedIsNotSettled(c, m, d);
      } else {
        TurnSettles(c, m, d, r);
      }
    case Resize =>
      if IsDamaged(c, m, d) || (d.compressed && c.sizeInPx > 0) {
        DamagedIsResized(c, m, d);
      } else {
        ResizeKeepsSettled(c, m, d, ORIGIN);
      }
  }

  lemma RotationIsSet(c: Compression, m: Mode, d: Display, e: Event)
    ensures EventStep(c, m, d, e).rotation == if e.Turn? then e.rotation else d.rotation
  {}

  /** A display that was not turned yet ignores size events; its first turn settles it. */
  lemma {:induction false} PlainIgnoresResizes(c: Compression, m: Mode, d: Display, events: seq<Event>, r: Rotation)
    requires IsPlain(m, d) && forall i :: 0 <= i < |events| ==> events[i].Resize?
    ensures Events(c, m, d, events) == d
    ensures IsSettled(c, m, Events(c, m, d, events + [Turn(r)]))
  {
    hide RotationEvent, IsSettled, UpdateSize;
    assert (events + [Turn(r)])[..|events|] == events;
    TurnSettles(c, m, d, r);
    if events != [] {
      PlainIgnoresResizes(c, m, d, events[..|events| - 1], r);
      OwnModeAndOffsetChangeNothing(d, m, ORIGIN);
    }
  }

  /** What rotation and size events leave of a settled display: it is settled unless a size event came while it was
      compressed and was not repaired since; then it is damaged, and at (0, 0) exactly after a size event. */
  lemma {:induction false} MixedRuns(c: Compression, m: Mode, d: Display, events: seq<Event>)
    requires IsSettled(c, m, d)
    ensures var e := Events(c, m, d, events);
            && e.rotation == RotationAfter(d.rotation, events)
            && (IsSettled(c, m, e) <==> !Damaged(c, m, d.rotation, events))
            && (IsDamaged(c, m, e) <==> Damaged(c, m, d.rotation, events))
            && (IsDamaged(c, m, e) ==> (e.offset == ORIGIN <==> events[|events| - 1].Resize?))
  {
    hide IsSettled, IsDamaged, EventStep, Damages, IsHorizontal, Effective, Repairs;
    var e := Events(c, m, d, events);
    if events != [] {
      hide Damaged;
      var n := |events| - 1;
      MixedRuns(c, m, d, events[..n]);
      DamagedSnoc(c, m, d.rotation, events);
      EventDamages(c, m, Events(c, m, d, events[..n]), events[n]);
    }
    if IsDamaged(c, m, e) {
      DamagedIsNotSettled(c, m, e);
    }
  }

  // ---------------------------------------------------------------- binding to a screen

  function Bind(d: Display, s: Option<Screen>): Display {
    if s.None? || s.value.mode.None? then d
    else
      var m := s.value.mode.value;
      d.(offset := s.value.position, width := ToInt32(m.width), height := ToInt32(m.height), screenId := s.value.dmsId)
  }

  class AbstractDisplay {
    const id: Id
    var screenId: Id
    var width: Int32
    var height: Int32
    var offsetX: Int32
    var offsetY: Int32
    var rotation: Rotation
    var compressed: bool

    function View(): Display
      reads this
    {
      Display(id, screenId, width, height, Point(offsetX, offsetY), rotation, compressed)
    }

    constructor (id: Id, info: Mode, screenId: Id, rotation: Rotation)
      ensures View() == NewDisplay(id, info, screenId, rotation)
    {
      this.id, this.screenId := id, screenId;
      width, height := ToInt32(info.width), ToInt32(info.height);
      offsetX, offsetY := 0, 0;
      this.rotation, compressed := Rotation0, false;
      new;
      var _ := RequestRotation(rotation);
    }

    method RequestRotation(rotation: Rotation) returns (changed: bool)
      modifies this
      ensures View() == Rotate(old(View()), rotation)
      ensures changed <==> rotation != old(this.rotation)
    {
      if this.rotation == rotation {
        return false;
      }
      if IsVertical(rotation) != IsVertical(this.rotation) {
        width, height := height, width;
      }
      this.rotation := rotation;
      return true;
    }

    method SetOffset(x: Int32, y: Int32)
      modifies this
      ensures View() == old(View()).(offset := Point(x, y))
    {
      offsetX, offsetY := x, y;
    }

    method BindAbstractScreen(s: Option<Screen>) returns (bound: bool)
      modifies this
      ensures View() == Bind(old(View()), s)
      ensures bound <==> s.Some? && s.value.mode.Some?
    {
      if s.None? || s.value.mode.None? {
        return false;
      }
      var info := s.value.mode.value;
      offsetX, offsetY := s.value.position.x, s.value.position.y;
      width, height := ToInt32(info.width), ToInt32(info.height);
      screenId := s.value.dmsId;
      return true;
    }
  }

  method UpdateDisplaySize(d: AbstractDisplay, info: Option<Mode>, offset: Point) returns (changed: bool)
    modifies d
    ensures d.View() ==
            if info.Some? then UpdateSize(old(d.View()), info.value, offset) else old(d.View()).(offset := offset)
    ensures !changed ==> d.View() == old(d.View())
    ensures changed <==> offset != old(d.View().offset) || (info.Some? && info.value != OwnSize(old(d.View())))
  {
    changed := false;
    if info.Some? {
      var width, height := d.width, d.height;
      if d.rotation == Rotation90 || d.rotation == Rotation270 {
        width, height := d.height, d.width;
      }
      if !(info.value.width == ToUInt32(width) && info.value.height == ToUInt32(height)) {
        d.width := ToInt32(info.value.width);
        d.height := ToInt32(info.value.height);
        changed := true;
      }
    }
    if !(offset.x == d.offsetX && offset.y == d.offsetY) {
      d.offsetX := offset.x;
      d.offsetY := offset.y;
      changed := true;
    }
  }

  method ProcessDisplayCompression(d: AbstractDisplay, isDefault: bool, c: Compression, mode: Option<Mode>)
      returns (notify: bool)
    modifies d
    ensures d.View() == if isDefault && mode.Some? then Compress(c, mode.value, old(d.View())) else old(d.View())
    ensures notify <==> isDefault && mode.Some? && Effective(c, mode.value) &&
                        (IsHorizontal(mode.value, d.rotation) || old(d.compressed))
  {
    if !isDefault || !c.enabled || c.sizeInVp == 0 || mode.None? {
      return false;
    }
    var m := mode.value;
    if c.sizeInPx >= m.height / 4 || c.sizeInPx >= m.width / 4 {
      return false;
    }
    var isDefaultRotationVertical := m.height > m.width;
    if IsHorizontal(m, d.rotation) {
      var totalCompressedSize := c.sizeInPx * 2;
      var displayHeightAfter := if isDefaultRotationVertical then m.width - totalCompressedSize
                                else m.height - totalCompressedSize;
      d.offsetX := 0;
      d.offsetY := ToInt32(c.sizeInPx);
      d.height := ToInt32(displayHeightAfter);
      d.compressed := true;
    } else {
      if !d.compressed {
        return false;
      }
      d.offsetX := 0;
      d.offsetY := 0;
      d.height := ToInt32(if isDefaultRotationVertical then m.height else m.width);
      d.width := ToInt32(if isDefaultRotationVertical then m.width else m.height);
      d.compressed := false;
    }
    return true;
  }

  method ProcessDisplayRotationChange(d: AbstractDisplay, rotation: Rotation, isDefault: bool, c: Compression,
                                      mode: Option<Mode>)
    modifies d
    ensures d.View() == if isDefault && mode.Some? then RotationEvent(c, mode.value, old(d.View()), rotation)
                        else Rotate(old(d.View()), rotation)
  {
    var _ := d.RequestRotation(rotation);
    var _ := ProcessDisplayCompression(d, isDefault, c, mode);
  }
}
