/** The cursor and keyboard handling of the carousel: dragging rotates the
    card group, clicking a card zooms the camera onto it, and clicking again
    or pressing Escape goes back to the overview. Each handler is a pure step
    from one view state to the next; what the raycast hits is an input of the
    click. */
module Interaction {
  import opened Options
  import ResumeCards

  /** Index of a card in the carousel. */
  type CardIndex = i: int | 0 <= i < ResumeCards.CardCount

  datatype Vec3 = Vec3(x: real, y: real, z: real)

  /** Where the camera rests when no card is selected. */
  const HomeTarget: Vec3 := Vec3(0.0, 1.0, 7.0)
  /** Pixels the cursor must travel from the press before it counts as a
      drag. */
  const DragThreshold: int := 5
  /** Radians of carousel rotation per pixel of cursor travel. */
  const RotationPerPixel: real := 0.005

  /** The first card under the cursor, with the camera position and group
      rotation that face it (computed by the scene geometry). */
  datatype Hit = Hit(card: CardIndex, cameraTarget: Vec3, facingRotation: real)

  datatype Event =
    | MouseDown(x: int)
    | MouseMove(x: int)
    | MouseUp
    | Click(hit: Option<Hit>)
    | KeyDown(key: string)

  /** The interaction state: zoom and selection, the drag bookkeeping, the
      carousel's rotation and the camera's target. */
  datatype View = View(
    zoomed: bool,
    dragging: bool,
    selected: Option<CardIndex>,
    startClickX: int,
    lastMouseX: int,
    rotation: real,
    initialRotation: real,
    target: Vec3,
    targetRotation: real)

  /** The view once the handlers are installed: the component's field
      initialisers, a fresh card group with no rotation, and no press yet. */
  function Initial(): (v: View)
    ensures Consistent(v)
    ensures !v.zoomed && !v.dragging && v.selected == None && v.target == HomeTarget
    ensures v.startClickX == 0 && v.lastMouseX == 0
    ensures v.rotation == 0.0 && v.initialRotation == 0.0 && v.targetRotation == 0.0
  {
    View(false, false, None, 0, 0, 0.0, 0.0, HomeTarget, 0.0)
  }

  /** The state every reachable view is in: zoom and selection are set and
      cleared together, the camera rests at home unless zoomed, and a drag is
      never in progress while zoomed. */
  predicate Consistent(v: View) {
    && (v.zoomed <==> v.selected.Some?)
    && (!v.zoomed ==> v.target == HomeTarget)
    && (v.zoomed ==> !v.dragging)
  }

  function Abs(x: int): int {
    if x < 0 then -x else x
  }

  /** Back to the overview: camera home, nothing zoomed or selected. */
  function ResetView(v: View): (r: View)
    ensures !r.zoomed && r.selected == None && r.target == HomeTarget
    ensures r.(zoomed := v.zoomed, selected := v.selected, target := v.target) == v
  {
    v.(target := HomeTarget, zoomed := false, selected := None)
  }

  /** A press starts a possible drag at `x`; ignored while zoomed. */
  function OnMouseDown(v: View, x: int): (r: View)
    ensures v.zoomed ==> r == v
    ensures !v.zoomed ==> !r.dragging && r.startClickX == x && r.lastMouseX == x
    ensures !v.zoomed ==> r.initialRotation == v.rotation
    ensures r.(dragging := v.dragging, startClickX := v.startClickX, lastMouseX := v.lastMouseX,
               initialRotation := v.initialRotation) == v
  {
    if v.zoomed then v
    else v.(dragging := false, startClickX := x, lastMouseX := x, initialRotation := v.rotation)
  }

  /** Cursor travel: once more than the threshold away from the press it is
      a drag, and while dragging the carousel turns with the cursor. No
      button needs to be held. Ignored while zoomed. */
  function OnMouseMove(v: View, x: int): (r: View)
    ensures v.zoomed ==> r == v
    ensures r.dragging <==> v.dragging || (!v.zoomed && Abs(x - v.startClickX) > DragThreshold)
    ensures r.rotation != v.rotation || r.lastMouseX != v.lastMouseX ==> r.dragging
    ensures !v.zoomed && r.dragging ==>
      r.lastMouseX == x && r.rotation == v.rotation + (x - v.lastMouseX) as real * RotationPerPixel
    ensures r.(dragging := v.dragging, rotation := v.rotation, lastMouseX := v.lastMouseX) == v
  {
    if v.zoomed then v
    else
      var deltaX := x - v.lastMouseX;
      var dragging := v.dragging || Abs(x - v.startClickX) > DragThreshold;
      if dragging then
        v.(dragging := true, rotation := v.rotation + deltaX as real * RotationPerPixel, lastMouseX := x)
      else v
  }

  /** A click on the canvas: while zoomed it goes back to the overview; a
      click that ends a drag only ends the drag; otherwise a card under the
      cursor is selected and zoomed onto, and a miss clears the selection. */
  function OnClick(v: View, hit: Option<Hit>): (r: View)
    ensures v.zoomed ==> r == ResetView(v)
    ensures !v.zoomed && v.dragging ==> r == v.(dragging := false)
    ensures !v.zoomed && !v.dragging && hit.Some? ==>
      r == v.(zoomed := true, selected := Some(hit.value.card),
              target := hit.value.cameraTarget, targetRotation := hit.value.facingRotation)
    ensures !v.zoomed && !v.dragging && hit.None? ==> r == v.(selected := None)
    ensures r.rotation == v.rotation && r.startClickX == v.startClickX && r.lastMouseX == v.lastMouseX
  {
    if v.zoomed then ResetView(v)
    else if v.dragging then v.(dragging := false)
    else
      match hit
      case Some(h) =>
        v.(target := h.cameraTarget, targetRotation := h.facingRotation,
           selected := Some(h.card), zoomed := true)
      case None => v.(selected := None)
  }

  /** Escape goes back to the overview when zoomed; any other key, or Escape
      in the overview, does nothing. */
  function OnKeyDown(v: View, key: string): (r: View)
    ensures key == "Escape" && v.zoomed ==> r == ResetView(v)
    ensures !(key == "Escape" && v.zoomed) ==> r == v
  {
    if key == "Escape" && v.zoomed then ResetView(v) else v
  }

  /** One event. Every event keeps a consistent view consistent; the cursor
      does nothing while zoomed; releasing the button does nothing at all. */
  function Step(v: View, e: Event): (r: View)
    ensures Consistent(v) ==> Consistent(r)
    ensures v.zoomed && !e.Click? && !e.KeyDown? ==> r == v
    ensures e.MouseUp? ==> r == v
    ensures r.rotation != v.rotation ==> e.MouseMove? && r.dragging
  {
    match e
    case MouseDown(x) => OnMouseDown(v, x)
    case MouseMove(x) => OnMouseMove(v, x)
    case MouseUp => v
    case Click(hit) => OnClick(v, hit)
    case KeyDown(key) => OnKeyDown(v, key)
  }

  /** A sequence of events, in order. */
  function Run(v: View, events: seq<Event>): (r: View)
    ensures Consistent(v) ==> Consistent(r)
    decreases |events|
  {
    if |events| == 0 then v else Run(Step(v, events[0]), events[1..])
  }

  /** Every view the component can reach from its initial state keeps zoom
      and selection together. */
  lemma ReachableViewsConsistent(events: seq<Event>)
    ensures Consistent(Run(Initial(), events))
  {
  }

  /** A press and a click without cursor travel beyond the threshold selects
      the card under the cursor. */
  lemma PressAndClickSelects(v: View, x: int, y: int, h: Hit)
    requires Consistent(v) && !v.zoomed
    requires Abs(y - x) <= DragThreshold
    ensures var r := Run(v, [MouseDown(x), MouseMove(y), MouseUp, Click(Some(h))]);
      r.zoomed && r.selected == Some(h.card) && r.target == h.cameraTarget
  {
    var v1 := Step(v, MouseDown(x));
    var v2 := Step(v1, MouseMove(y));
    assert v2 == v1;
    assert Run(v, [MouseDown(x), MouseMove(y), MouseUp, Click(Some(h))])
        == Run(v1, [MouseMove(y), MouseUp, Click(Some(h))]);
    assert Run(v1, [MouseMove(y), MouseUp, Click(Some(h))]) == Run(v2, [MouseUp, Click(Some(h))]);
    assert Run(v2, [MouseUp, Click(Some(h))]) == Run(v2, [Click(Some(h))]);
    assert Run(v2, [Click(Some(h))]) == Run(Step(v2, Click(Some(h))), []);
  }

  /** A drag turns the carousel by the cursor's travel, and the click that
      ends it selects nothing, whatever is under the cursor. */
  lemma DragTurnsAndSwallowsClick(v: View, x: int, y: int, hit: Option<Hit>)
    requires Consistent(v) && !v.zoomed
    requires Abs(y - x) > DragThreshold
    ensures var r := Run(v, [MouseDown(x), MouseMove(y), MouseUp, Click(hit)]);
      && !r.zoomed && !r.dragging && r.selected == v.selected
      && r.rotation == v.rotation + (y - x) as real * RotationPerPixel
  {
    var v1 := Step(v, MouseDown(x));
    var v2 := Step(v1, MouseMove(y));
    assert v2.dragging;
    assert Run(v, [MouseDown(x), MouseMove(y), MouseUp, Click(hit)])
        == Run(v1, [MouseMove(y), MouseUp, Click(hit)]);
    assert Run(v1, [MouseMove(y), MouseUp, Click(hit)]) == Run(v2, [MouseUp, Click(hit)]);
    assert Run(v2, [MouseUp, Click(hit)]) == Run(v2, [Click(hit)]);
    assert Run(v2, [Click(hit)]) == Run(Step(v2, Click(hit)), []);
  }

  /** Moving the cursor with no button held still turns the carousel once
      it is past the threshold from the last press: after a press, a release
      and a click on empty space, plain cursor travel rotates the cards. */
  lemma HoverAfterPressTurns(v: View, x: int, y: int)
    requires Consistent(v) && !v.zoomed
    requires Abs(y - x) > DragThreshold
    ensures var r := Run(v, [MouseDown(x), MouseUp, Click(None), MouseMove(y)]);
      r.dragging && r.rotation == v.rotation + (y - x) as real * RotationPerPixel
  {
    var v1 := Step(v, MouseDown(x));
    var v3 := Step(v1, Click(None));
    assert Run(v, [MouseDown(x), MouseUp, Click(None), MouseMove(y)])
        == Run(v1, [MouseUp, Click(None), MouseMove(y)]);
    assert Run(v1, [MouseUp, Click(None), MouseMove(y)]) == Run(v1, [Click(None), MouseMove(y)]);
    assert Run(v1, [Click(None), MouseMove(y)]) == Run(v3, [MouseMove(y)]);
    assert Run(v3, [MouseMove(y)]) == Run(Step(v3, MouseMove(y)), []);
  }
}
