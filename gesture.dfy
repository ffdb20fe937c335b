/** The pane grid's gesture controller as pure functions: the entities it
    works with, its hit testing, the resize ratio and, for every input event,
    the outcome (new interaction state, published messages, event status).
    The class in module Widget performs the same steps imperatively and is
    proved to produce exactly these outcomes. */
module Gesture {
  import opened Search
  import opened Geometry
  import opened Input
  import Mouse

  /** Rust's `u16`. */
  type u16 = x: int | 0 <= x < 0x1_0000

  datatype Axis = Horizontal | Vertical

  /** Opaque identifiers of panes and splits. */
  datatype Pane = Pane(id: nat)
  datatype Split = Split(id: nat)

  /** The transient interaction state: nothing picked, a pane picked at an
      offset from its top-left corner, or a split picked with its axis. */
  datatype Action =
    | Idle
    | PanePicked(pane: Pane, origin: Point)
    | SplitPicked(split: Split, axis: Axis)

  datatype DragEvent =
    | Picked(pane: Pane)
    | Dropped(pane: Pane, target: Pane)
    | Canceled(pane: Pane)

  datatype ResizeEvent = ResizeEvent(split: Split, ratio: real)

  /** What the grid publishes: the application maps each domain event to its
      own message through the click, drag or resize handler. */
  datatype Message =
    | Clicked(pane: Pane)
    | Dragged(drag: DragEvent)
    | Resized(resize: ResizeEvent)

  /** The builder settings the controller reads: the spacing between panes,
      whether a click and a drag handler are set, and, when a resize handler
      is set, its leeway. */
  datatype Config = Config(spacing: u16, onClick: bool, onDrag: bool, onResize: Option<u16>)

  /** One entry of the split regions computed for the grid's size: the split,
      its axis, the rectangle it divides (relative to the grid) and its ratio. */
  datatype SplitRegion = SplitRegion(split: Split, axis: Axis, region: Rectangle, ratio: real)

  /** The shape of `Axis::split_line_bounds(region, ratio, spacing)`. */
  type LineBounds = (Axis, Rectangle, real, real) -> Rectangle

  /** The grid's layout node: its bounds and the bounds of its children, in
      absolute coordinates. */
  datatype Layout = Layout(bounds: Rectangle, children: seq<Rectangle>)

  /** One element of the grid: a pane and whether its content lets itself be
      picked at a point, given the content's bounds. */
  datatype Element = Element(pane: Pane, canBePickedAt: (Rectangle, Point) -> bool)

  /** A split found under the cursor, with its grab band. */
  datatype Hovered = Hovered(split: Split, axis: Axis, bounds: Rectangle)

  /** The result of handling one event at grid level. */
  datatype Outcome = Outcome(action: Action, messages: seq<Message>, status: Status)

  /*
   * Hit testing
   */

  /** The width of a split's grab band, `f32::from(spacing + leeway)`, where
      the sum is a `u16` addition (wrapping as in a release build). */
  function GrabWidth(spacing: u16, leeway: u16): (w: real)
    ensures 0.0 <= w < 65536.0
    ensures spacing + leeway < 0x1_0000 ==> w == (spacing + leeway) as real
    ensures spacing + leeway >= 0x1_0000 ==> w == (spacing + leeway - 0x1_0000) as real
  {
    ((spacing + leeway) % 0x1_0000) as real
  }

  /** The grab band of one split region. */
  function Band(lineBounds: LineBounds, s: SplitRegion, width: real): Rectangle {
    lineBounds(s.axis, s.region, s.ratio, width)
  }

  /** The first split, in iteration order, whose grab band contains the cursor. */
  function HoveredSplit(splits: seq<SplitRegion>, width: real, cursor: Point, lineBounds: LineBounds): (r: Option<Hovered>)
    ensures r.None? <==> forall i :: 0 <= i < |splits| ==> !Band(lineBounds, splits[i], width).Contains(cursor)
    ensures r.Some? ==> r.value.bounds.Contains(cursor)
    ensures r.Some? ==>
      exists i :: 0 <= i < |splits|
        && r.value == Hovered(splits[i].split, splits[i].axis, Band(lineBounds, splits[i], width))
        && forall j :: 0 <= j < i ==> !Band(lineBounds, splits[j], width).Contains(cursor)
  {
    match FirstMatch(splits, (s: SplitRegion) => Band(lineBounds, s, width).Contains(cursor))
    case None => None
    case Some(i) =>
      Some(Hovered(splits[i].split, splits[i].axis, Band(lineBounds, splits[i], width)))
  }

  /** The split a press or the cursor would grab: only when a resize handler
      is set, with the band widened by its leeway and the cursor taken
      relative to the grid's bounds. */
  function GrabbedSplit(cfg: Config, bounds: Rectangle, cursor: Point, splits: seq<SplitRegion>, lineBounds: LineBounds): (r: Option<Hovered>)
    ensures cfg.onResize.None? ==> r.None?
    ensures r.Some? ==> r.value.bounds.Contains(Minus(cursor, bounds.Position()))
    ensures cfg.onResize.Some? ==>
      (r.None? <==> forall i :: 0 <= i < |splits| ==>
        !Band(lineBounds, splits[i], GrabWidth(cfg.spacing, cfg.onResize.value)).Contains(Minus(cursor, bounds.Position())))
    ensures r.Some? ==>
      exists i :: 0 <= i < |splits|
        && r.value == Hovered(splits[i].split, splits[i].axis, Band(lineBounds, splits[i], GrabWidth(cfg.spacing, cfg.onResize.value)))
        && forall j :: 0 <= j < i ==>
          !Band(lineBounds, splits[j], GrabWidth(cfg.spacing, cfg.onResize.value)).Contains(Minus(cursor, bounds.Position()))
  {
    match cfg.onResize
    case None => None
    case Some(leeway) =>
      HoveredSplit(splits, GrabWidth(cfg.spacing, leeway), Minus(cursor, bounds.Position()), lineBounds)
  }

  /** The first child region (elements and children zipped) containing the
      cursor. */
  function ClickedRegion(elements: seq<Element>, children: seq<Rectangle>, cursor: Point): (r: Option<nat>)
    ensures r.Some? ==> r.value < |elements| && r.value < |children| && children[r.value].Contains(cursor)
    ensures r.Some? ==> forall j :: 0 <= j < r.value ==> !children[j].Contains(cursor)
    ensures r.None? <==> forall j :: 0 <= j < |elements| && j < |children| ==> !children[j].Contains(cursor)
  {
    var zipped := children[..Min(|elements|, |children|)];
    FirstMatch(zipped, (rect: Rectangle) => rect.Contains(cursor))
  }

  /** The position of the split with the given id among the regions, as a
      map lookup would find it. */
  function LookupSplit(splits: seq<SplitRegion>, split: Split): (r: Option<nat>)
    ensures r.Some? ==> r.value < |splits| && splits[r.value].split == split
    ensures r.None? <==> forall i :: 0 <= i < |splits| ==> splits[i].split != split
  {
    FirstMatch(splits, (s: SplitRegion) => s.split == split)
  }

  /** With distinct split ids, as the keys of a map are, the lookup finds
      exactly the entry carrying the id. */
  lemma LookupSplitDistinct(splits: seq<SplitRegion>, k: nat)
    requires k < |splits|
    requires forall i, j :: 0 <= i < j < |splits| ==> splits[i].split != splits[j].split
    ensures LookupSplit(splits, splits[k].split) == Some(k)
  {
  }

  /*
   * Resize ratio
   */

  /** The coordinate a split along `axis` moves in. */
  function Along(axis: Axis, p: Point): real {
    match axis
    case Horizontal => p.y
    case Vertical => p.x
  }

  /** The extent of a rectangle in that coordinate. */
  function Extent(axis: Axis, r: Rectangle): real {
    match axis
    case Horizontal => r.height
    case Vertical => r.width
  }

  /** `(position / extent).max(0.1).min(0.9)` in `f32`, where a zero extent
      gives an infinity or NaN: `+inf` clamps to 0.9, `-inf` and NaN to 0.1. */
  function ClampedRatio(position: real, extent: real): (ratio: real)
    ensures 0.1 <= ratio <= 0.9
    ensures extent > 0.0 && 0.1 * extent <= position <= 0.9 * extent ==> ratio * extent == position
    ensures extent > 0.0 && position <= 0.1 * extent ==> ratio == 0.1
    ensures extent > 0.0 && position >= 0.9 * extent ==> ratio == 0.9
    ensures extent == 0.0 ==> ratio == (if position > 0.0 then 0.9 else 0.1)
  {
    if extent == 0.0 then (if position > 0.0 then 0.9 else 0.1)
    else
      var q := position / extent;
      QuotientBounds(position, extent);
      var atLeast := if q < 0.1 then 0.1 else q;
      if atLeast > 0.9 then 0.9 else atLeast
  }

  /** How a quotient by a positive extent compares with the clamp bounds. */
  lemma QuotientBounds(position: real, extent: real)
    requires extent != 0.0
    ensures (position / extent) * extent == position
    ensures extent > 0.0 ==> (position / extent <= 0.1 <==> position <= 0.1 * extent)
    ensures extent > 0.0 ==> (position / extent >= 0.9 <==> position >= 0.9 * extent)
  {
    var q := position / extent;
    assert q * extent == position;
    if extent > 0.0 {
      ScaleCompare(q, 0.1, extent);
      ScaleCompare(0.9, q, extent);
    }
  }

  /** Scaling by a positive factor preserves order, both ways. */
  lemma ScaleCompare(a: real, b: real, e: real)
    requires e > 0.0
    ensures a <= b <==> a * e <= b * e
  {
    assert b * e - a * e == (b - a) * e;
    if a <= b {
      assert (b - a) * e >= 0.0;
    } else {
      assert (a - b) * e > 0.0;
    }
  }

  lemma ClampedRatioMonotone(p1: real, p2: real, extent: real)
    requires extent > 0.0 && p1 <= p2
    ensures ClampedRatio(p1, extent) <= ClampedRatio(p2, extent)
  {
    assert p1 / extent <= p2 / extent by {
      assert p2 / extent - p1 / extent == (p2 - p1) / extent;
    }
  }

  /** The ratio a cursor position gives to a split: the cursor's distance from
      the split region's origin (the region being relative to the grid's
      bounds), divided by the region's extent, clamped into [0.1, 0.9]. */
  function ResizeRatio(axis: Axis, bounds: Rectangle, region: Rectangle, cursor: Point): (ratio: real)
    ensures 0.1 <= ratio <= 0.9
    ensures var origin := Along(axis, bounds.Position()) + Along(axis, region.Position());
      var extent := Extent(axis, region);
      extent > 0.0 && origin + 0.1 * extent <= Along(axis, cursor) <= origin + 0.9 * extent ==>
        origin + ratio * extent == Along(axis, cursor)
    ensures var origin := Along(axis, bounds.Position()) + Along(axis, region.Position());
      var extent := Extent(axis, region);
      extent > 0.0 && Along(axis, cursor) <= origin + 0.1 * extent ==> ratio == 0.1
    ensures var origin := Along(axis, bounds.Position()) + Along(axis, region.Position());
      var extent := Extent(axis, region);
      extent > 0.0 && Along(axis, cursor) >= origin + 0.9 * extent ==> ratio == 0.9
    ensures var origin := Along(axis, bounds.Position()) + Along(axis, region.Position());
      Extent(axis, region) == 0.0 ==> ratio == (if Along(axis, cursor) > origin then 0.9 else 0.1)
  {
    ClampedRatio(Along(axis, cursor) - Along(axis, bounds.Position()) - Along(axis, region.Position()),
                 Extent(axis, region))
  }

  /*
   * Per-event outcomes
   */

  /** A press on the pane regions: the first region containing the cursor is
      clicked (published when a click handler is set) and, when a drag handler
      is set and the content allows it, picked with the cursor's offset from
      the region's corner (publishing Picked after the click). */
  function ClickPaneEffect(cfg: Config, elements: seq<Element>, children: seq<Rectangle>, cursor: Point, action: Action): (r: (Action, seq<Message>))
    ensures ClickedRegion(elements, children, cursor).None? ==> r == (action, [])
    ensures ClickedRegion(elements, children, cursor).Some? ==>
      var i := ClickedRegion(elements, children, cursor).value;
      var pane := elements[i].pane;
      var picks := cfg.onDrag && elements[i].canBePickedAt(children[i], cursor);
      && r.1 == (if cfg.onClick then [Clicked(pane)] else []) + (if picks then [Dragged(Picked(pane))] else [])
      && (picks ==> r.0.PanePicked? && r.0.pane == pane
                    && children[i].x + r.0.origin.x == cursor.x && children[i].y + r.0.origin.y == cursor.y)
      && (!picks ==> r.0 == action)
  {
    match ClickedRegion(elements, children, cursor)
    case None => (action, [])
    case Some(i) =>
      var pane := elements[i].pane;
      var clicked := if cfg.onClick then [Clicked(pane)] else [];
      if cfg.onDrag && elements[i].canBePickedAt(children[i], cursor) then
        (PanePicked(pane, Minus(cursor, children[i].Position())), clicked + [Dragged(Picked(pane))])
      else
        (action, clicked)
  }

  /** A press (left button or finger). */
  function PressOutcome(cfg: Config, elements: seq<Element>, action: Action, layout: Layout, cursor: Point,
                        splits: seq<SplitRegion>, lineBounds: LineBounds): (o: Outcome)
    ensures !layout.bounds.Contains(cursor) ==> o == Outcome(action, [], Ignored)
    ensures layout.bounds.Contains(cursor) ==> o.status == Captured
    ensures var h := GrabbedSplit(cfg, layout.bounds, cursor, splits, lineBounds);
      layout.bounds.Contains(cursor) && h.Some? ==>
        o.action == SplitPicked(h.value.split, h.value.axis) && o.messages == []
    ensures layout.bounds.Contains(cursor) && GrabbedSplit(cfg, layout.bounds, cursor, splits, lineBounds).None? ==>
      (o.action, o.messages) == ClickPaneEffect(cfg, elements, layout.children, cursor, action)
  {
    if !layout.bounds.Contains(cursor) then Outcome(action, [], Ignored)
    else
      match GrabbedSplit(cfg, layout.bounds, cursor, splits, lineBounds)
      case Some(h) => Outcome(SplitPicked(h.split, h.axis), [], Captured)
      case None =>
        var (a, ms) := ClickPaneEffect(cfg, elements, layout.children, cursor, action);
        Outcome(a, ms, Captured)
  }

  /** The drag event a release of `pane` produces: Dropped on the first region
      containing the cursor when that region belongs to another pane,
      Canceled otherwise. */
  function DropEvent(pane: Pane, elements: seq<Element>, children: seq<Rectangle>, cursor: Point): (e: DragEvent)
    ensures e.Dropped? || e.Canceled?
    ensures e.pane == pane
    ensures e.Dropped? ==> e.target != pane
    ensures var c := ClickedRegion(elements, children, cursor);
      e.Dropped? <==> c.Some? && elements[c.value].pane != pane
    ensures e.Dropped? ==> e.target == elements[ClickedRegion(elements, children, cursor).value].pane
  {
    match ClickedRegion(elements, children, cursor)
    case Some(i) =>
      if elements[i].pane != pane then Dropped(pane, elements[i].pane) else Canceled(pane)
    case None => Canceled(pane)
  }

  /** A release (left button, finger lifted or lost). */
  function ReleaseOutcome(cfg: Config, elements: seq<Element>, action: Action, children: seq<Rectangle>, cursor: Point): (o: Outcome)
    ensures o.action == Idle
    ensures action.Idle? ==> o == Outcome(action, [], Ignored)
    ensures action.SplitPicked? ==> o.messages == [] && o.status == Captured
    ensures action.PanePicked? ==> o.status == Captured
    ensures action.PanePicked? && !cfg.onDrag ==> o.messages == []
    ensures action.PanePicked? && cfg.onDrag ==>
      o.messages == [Dragged(DropEvent(action.pane, elements, children, cursor))]
  {
    match action
    case PanePicked(pane, _) =>
      var ms := if cfg.onDrag then [Dragged(DropEvent(pane, elements, children, cursor))] else [];
      Outcome(Idle, ms, Captured)
    case SplitPicked(_, _) => Outcome(Idle, [], Captured)
    case Idle => Outcome(Idle, [], Ignored)
  }

  /** A move while a split is picked: publish its new ratio, provided a resize
      handler is set and the split is among the regions; otherwise ignore it. */
  function ResizeOutcome(cfg: Config, action: Action, bounds: Rectangle, cursor: Point, splits: seq<SplitRegion>): (r: (seq<Message>, Status))
    ensures r.1 == Captured <==>
      cfg.onResize.Some? && action.SplitPicked? && LookupSplit(splits, action.split).Some?
    ensures r.1 == Ignored ==> r.0 == []
    ensures r.1 == Captured ==>
      var s := splits[LookupSplit(splits, action.split).value];
      r.0 == [Resized(ResizeEvent(action.split, ResizeRatio(s.axis, bounds, s.region, cursor)))]
  {
    if cfg.onResize.Some? && action.SplitPicked? then
      match LookupSplit(splits, action.split)
      case Some(i) =>
        ([Resized(ResizeEvent(action.split, ResizeRatio(splits[i].axis, bounds, splits[i].region, cursor)))], Captured)
      case None => ([], Ignored)
    else ([], Ignored)
  }

  /** True when all grid-level messages of an outcome are as the drag and
      resize protocol promises: a drop names another pane as its target and a
      ratio lies in [0.1, 0.9]. */
  ghost predicate WellFormed(m: Message) {
    && (m.Dragged? && m.drag.Dropped? ==> m.drag.target != m.drag.pane)
    && (m.Resized? ==> 0.1 <= m.resize.ratio <= 0.9)
  }

  /** The grid-level outcome of one event, before the event is forwarded to
      the panes' contents. */
  function EventOutcome(cfg: Config, elements: seq<Element>, action: Action, event: Event, layout: Layout,
                        cursor: Point, splits: seq<SplitRegion>, lineBounds: LineBounds): (o: Outcome)
    // messages are published only for an event the grid captures, at most two of them
    ensures o.messages != [] ==> o.status == Captured
    ensures |o.messages| <= 2
    ensures forall m :: m in o.messages ==> WellFormed(m)
    // a release always ends the gesture; only a press starts one
    ensures event.IsRelease() ==> o.action == Idle
    ensures o.action != action ==> event.IsPress() || (event.IsRelease() && o.action == Idle)
    ensures event.IsPress() && o.action != action ==> o.action.PanePicked? || o.action.SplitPicked?
    // a Picked message accompanies exactly the picking of that pane
    ensures forall p :: Dragged(Picked(p)) in o.messages ==> o.action.PanePicked? && o.action.pane == p
    ensures o.action != action && o.action.PanePicked? ==> Dragged(Picked(o.action.pane)) in o.messages
    // drops and cancels end a picked pane's gesture; resizes happen while a split is picked
    ensures forall m :: m in o.messages && m.Dragged? && !m.drag.Picked? ==>
      action.PanePicked? && m.drag.pane == action.pane
    ensures forall m :: m in o.messages && m.Dragged? && !m.drag.Picked? ==> o.messages == [m]
    ensures forall m :: m in o.messages && m.Dragged? && !m.drag.Picked? ==> event.IsRelease() && o.action == Idle
    ensures forall m :: m in o.messages && m.Resized? ==> action.SplitPicked? && action.split == m.resize.split
    // events the grid does not handle change nothing
    ensures !event.IsPress() && !event.IsRelease() && !event.IsMove() ==> o == Outcome(action, [], Ignored)
  {
    if event.IsPress() then PressOutcome(cfg, elements, action, layout, cursor, splits, lineBounds)
    else if event.IsRelease() then ReleaseOutcome(cfg, elements, action, layout.children, cursor)
    else if event.IsMove() then
      var (ms, status) := ResizeOutcome(cfg, action, layout.bounds, cursor, splits);
      Outcome(action, ms, status)
    else Outcome(action, [], Ignored)
  }

  /*
   * Cursor affordance
   */

  /** A split along an axis is resized by moving across it. */
  function ResizeCursor(axis: Axis): (i: Mouse.Interaction)
    ensures axis == Horizontal <==> i == Mouse.ResizingVertically
    ensures axis == Vertical <==> i == Mouse.ResizingHorizontally
  {
    match axis
    case Horizontal => Mouse.ResizingVertically
    case Vertical => Mouse.ResizingHorizontally
  }

  /** `.max().unwrap_or_default()` over the contents' affordances. */
  function MaxOrDefault(s: seq<Mouse.Interaction>): (r: Mouse.Interaction)
    ensures s == [] ==> r == Mouse.Default
    ensures s != [] ==> r in s
    ensures forall i :: 0 <= i < |s| ==> s[i].Rank() <= r.Rank()
    decreases |s|
  {
    if |s| == 0 then Mouse.Default
    else if |s| == 1 then s[0]
    else
      var m := MaxOrDefault(s[1..]);
      assert forall i :: 1 <= i < |s| ==> s[i] == s[1..][i - 1];
      if s[0].Rank() > m.Rank() then s[0] else m
  }
}
