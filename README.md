# Pane grid gesture controller

A Dafny model of the gesture controller of the iced toolkit's pane grid
widget (`native/src/widget/pane_grid.rs`). The pane grid tiles an
application's content into panes separated by horizontal and vertical
splits. The controller turns mouse and touch input into interaction state
and domain events:

- The interaction state is an `Action`: idle, a pane picked with the
  cursor's offset inside it, or a split picked with its axis.
- A **press** inside the widget first looks for a split grab band under the
  cursor, but only when resizing is enabled. A hit picks that split.
  Otherwise the first pane region under the cursor is clicked, and it is
  picked for dragging when a drag handler is set and its content allows it.
- A **move** while a split is picked publishes a resize to a clamped ratio.
- A **release** ends the gesture. For a picked pane it publishes a drop on
  another pane, or a cancel.
- Separately, the **cursor affordance** is grab, a resize cursor, or the
  highest affordance the panes' contents ask for.

Modules:

- `Search` (search.dfy): `Option`, and `FirstMatch`, the `filter(..).next()`
  first-match search that all hit testing uses.
- `Geometry` (geometry.dfy): points and rectangles with `real` coordinates,
  and closed containment.
- `Input` (input.dfy): the event kinds the grid reacts to; `Status` and the
  fold that merges the grid's status with the statuses of the panes' contents.
- `Mouse` (mouse.dfy): cursor affordances in declaration order.
- `Gesture` (gesture.dfy): the pure model. It holds the ids, `Action`, the
  drag and resize events, the configuration record, hit testing, the
  resize ratio, and one outcome function per kind of event
  (`PressOutcome`, `ReleaseOutcome`, `ResizeOutcome`, combined in
  `EventOutcome`). Each outcome is a new `Action`, the published messages
  and the grid-level status.
- `Widget` (widget.dfy): the widget as a class. `PaneGrid` has its
  configuration and elements as constants and the interaction state as a
  field. `OnEvent`, `ClickPane` and `TriggerResize` update that field step by
  step and publish on a `Shell`, as the source does. Each method is proved to
  produce exactly the outcome the `Gesture` functions describe.
  `MouseInteraction` is a function of the object's state.
- `Protocol` (protocol.dfy): the interaction state outlives the widget, which
  is rebuilt every frame. This module runs the controller over any sequence
  of frames and proves that the drag events it publishes are well bracketed.

Inputs that the widget gets from code outside this file are parameters of
the model:

- the split regions (`splits`, standing for `state.split_regions`);
- `Axis::split_line_bounds` (`lineBounds`, any function of that shape);
- the layout node (`Layout`: the widget's bounds and its children's bounds);
- each element's `can_be_picked_at` (`Element.canBePickedAt`);
- the statuses the panes' contents return, and the affordances they report.

## Model

| member | source | states |
|---|---|---|
| Search.FirstMatch | native/src/widget/pane_grid.rs:718-729 | the index selected is the first one whose element passes the filter; no earlier element passes it; none is selected exactly when no element passes |
| Geometry.Minus | native/src/widget/pane_grid.rs:222-225 | the picked origin is the cursor seen from the pane's corner: corner + origin = cursor |
| Input.Status.Merge | native/src/widget/pane_grid.rs:467 | merging two statuses captures exactly when either is captured |
| Input.MergeAll | native/src/widget/pane_grid.rs:449-467 | folding the contents' statuses into the grid's gives Captured exactly when the grid or some content captured the event |
| Gesture.GrabWidth | native/src/widget/pane_grid.rs:389-393 | the grab band width is spacing + leeway as a `u16` sum: exact when it fits, wrapped modulo 65536 otherwise |
| Gesture.HoveredSplit | native/src/widget/pane_grid.rs:713-730 | returns the first split in iteration order whose line bounds contain the cursor, with its axis and those bounds; the returned rectangle contains the cursor; none exactly when no band contains it |
| Gesture.GrabbedSplit | native/src/widget/pane_grid.rs:377-395 | without a resize handler no split is grabbed; with one, the grabbed split is the first in iteration order whose band, of width `GrabWidth(spacing, leeway)`, contains the cursor taken relative to the widget's bounds, and none is grabbed exactly when no such band contains it |
| Gesture.ClickedRegion | native/src/widget/pane_grid.rs:210-215 | the first child region, over elements zipped with layout children, that contains the cursor; no earlier region contains it; none exactly when no zipped region does |
| Gesture.LookupSplit | native/src/widget/pane_grid.rs:250 | a lookup by split id finds an entry with that id, and fails exactly when no entry has it |
| Gesture.LookupSplitDistinct | native/src/widget/pane_grid.rs:245-250 | when ids are distinct, as the keys of a map are, the lookup finds exactly the entry with the id |
| Gesture.ClampedRatio | native/src/widget/pane_grid.rs:256 | the ratio always lies in [0.1, 0.9]; within those bounds it is the exact quotient (ratio × extent = position); below or above it is 0.1 or 0.9; a zero extent gives 0.9 for a positive position and 0.1 otherwise, as f32 infinities and NaN do |
| Gesture.ClampedRatioMonotone | native/src/widget/pane_grid.rs:251-264 | for a positive extent, moving the cursor further along the axis never decreases the ratio |
| Gesture.ResizeRatio | native/src/widget/pane_grid.rs:251-264 | the ratio lies in [0.1, 0.9]; Horizontal measures y against height and Vertical x against width, from bounds origin plus region origin; within the clamp range the split line lands exactly under the cursor; at or before 10% of the extent it is exactly 0.1 and at or past 90% exactly 0.9; a zero extent gives 0.9 exactly when the cursor is past the origin, else 0.1 |
| Gesture.ClickPaneEffect | native/src/widget/pane_grid.rs:204-233 | no region under the cursor changes nothing; otherwise the first region's pane is clicked (published only with a click handler) and picked only with a drag handler and a content that allows it, publishing Picked after the click, with the origin anchoring the cursor to the pane's corner; when not picked the state is unchanged |
| Gesture.PressOutcome | native/src/widget/pane_grid.rs:370-406 | a press outside the bounds changes nothing, publishes nothing and is Ignored; inside it is Captured; a grabbed split is picked with its axis and nothing is published, so splits take priority; only when no split is grabbed does the pane click run |
| Gesture.DropEvent | native/src/widget/pane_grid.rs:412-427 | the event names the picked pane; it is Dropped exactly when the first region under the cursor belongs to a different pane, which becomes the target, and Canceled otherwise; a drop's target is never the dropped pane |
| Gesture.ReleaseOutcome | native/src/widget/pane_grid.rs:407-440 | any release leaves the state idle; with a picked pane it is Captured and publishes exactly one drag event when a drag handler is set (none otherwise); with a picked split it is Captured and publishes nothing; while idle nothing changes and it is Ignored |
| Gesture.ResizeOutcome | native/src/widget/pane_grid.rs:235-274 | Captured exactly when a resize handler is set, a split is picked and that split is among the regions; then exactly one Resized message for that split, with the ratio from the region's own axis and rectangle; otherwise Ignored and nothing published |
| Gesture.EventOutcome | native/src/widget/pane_grid.rs:358-447 | per event: messages only when Captured, at most two; drops never target the dropped pane and ratios lie in [0.1, 0.9]; a release always ends idle; only a press starts a gesture; Picked accompanies exactly the picking of that pane; drops and cancels come alone, only on a release, name the picked pane and leave the grid idle; resizes only for the picked split; other events change nothing |
| Gesture.ResizeCursor | native/src/widget/pane_grid.rs:504-509 | a Horizontal split gives ResizingVertically and a Vertical split ResizingHorizontally, and only those |
| Gesture.MaxOrDefault | native/src/widget/pane_grid.rs:511-523 | the result is an affordance some content asked for and ranks at least as high as every one of them; with no contents it is the default |
| Widget.Shell.Publish | native/src/widget/pane_grid.rs:217 | publishing appends the message to those already published |
| Widget.PaneGrid.constructor | native/src/widget/pane_grid.rs:113-136 | the grid keeps its configuration and elements and starts from a copy of the interaction state; Protocol threads that state from one frame to the next |
| Widget.PaneGrid.ClickPane | native/src/widget/pane_grid.rs:204-233 | the new state and the messages appended are those of `ClickPaneEffect` from the old state |
| Widget.PaneGrid.TriggerResize | native/src/widget/pane_grid.rs:235-274 | leaves the interaction state alone; appends the messages and returns the status of `ResizeOutcome` |
| Widget.PaneGrid.OnEvent | native/src/widget/pane_grid.rs:358-468 | the new state and appended messages are those of `EventOutcome` from the old state; the status returned is the grid's status merged with the contents' statuses |
| Widget.PaneGrid.MouseInteraction | native/src/widget/pane_grid.rs:470-524 | Grab while a pane is picked; else the picked split's axis decides; else, with resizing enabled, the hovered split's axis (perpendicular cursor); else the maximum content affordance, or the default when there are none |
| Protocol.Run | native/src/widget/pane_grid.rs:358-447 | over any sequence of frames every published message is well formed, and a run ending in a release ends idle |
| Protocol.LastPicked | native/src/widget/pane_grid.rs:277-284 | the pane reported is announced Picked in the history with no Picked message after that announcement, so it is the most recent one; none when no pane was ever announced |
| Protocol.LastPickedAppend | native/src/widget/pane_grid.rs:277-284 | the most recent Picked of a concatenation is the one of the later part if it has one, else of the earlier part |
| Protocol.StepKeepsProtocol | native/src/widget/pane_grid.rs:277-301 | one event keeps the drag protocol: each Dropped or Canceled follows a last Picked of the same pane, and a picked pane is the last one announced |
| Protocol.RunKeepsProtocol | native/src/widget/pane_grid.rs:277-301 | the same over any sequence of frames, each with its own handlers, elements and layout |
| Protocol.DragEventsBracketed | native/src/widget/pane_grid.rs:277-301 | starting idle, every Dropped or Canceled for a pane is preceded by a Picked of that pane with no other pick in between |
| Protocol.PickThenDrop | native/src/widget/pane_grid.rs:407-434 | a press that picks a pane followed by a release over another pane publishes Picked, ends with Dropped onto that pane, and leaves the grid idle |

Where the widget's design and its code differ, the model follows the code:

- The cursor affordance uses the picked split's axis even without a resize
  handler. Only the hovered-split case needs a handler
  (`pane_grid.rs:481-502`).
- A move is Captured only with a resize handler, a picked split, and that
  split present in the regions. A picked split alone is not enough
  (`pane_grid.rs:241-273`).
- A click is published only when a click handler is set.
- A release with a picked pane publishes nothing when no drag handler is
  set. It still returns to idle and is Captured.
- A release looks only at the first region under the cursor. If that region
  belongs to the picked pane itself, the result is Canceled.
- The resize ratio uses the axis stored with the split region, not the axis
  recorded when the split was picked.

Assumptions about files that are not part of this model:

- `Rectangle::contains` is taken as containment closed on all four sides.
- `Status::merge` makes a captured status win.
- The ordering of `mouse::Interaction` is taken as its declaration order:
  Idle, Pointer, Grab, Text, Crosshair, Working, Grabbing,
  ResizingHorizontally, ResizingVertically.
- `pick_pane`, `pick_split` and `idle` (in state.rs) are taken to replace
  the interaction state outright.

## Left out

- state.rs, node.rs, axis.rs, content.rs and rectangle.rs are not part of
  this model. The region solver, `split_line_bounds`, `can_be_picked_at`
  and the tree mutators (`split`, `close`, `swap`, `resize`) are inputs or
  function parameters, not definitions.
- The split regions come from the map `split_regions` returns (state.rs,
  not part of this model). The model takes them as a sequence in any
  iteration order: "first" hovered split means first in that order.
- Forwarding the event to each pane's content (`pane_grid.rs:449-466`) is
  left out, because the content widgets are external. This covers the
  `is_picked` flag they receive and any messages they publish. Only the
  statuses they return are modelled, as a parameter folded into the result.
- Coordinates are exact reals, not `f32`. Rounding is not modelled, and
  0.1 and 0.9 are exact. Division by a zero extent follows the IEEE outcome
  through the clamp.
- Gesture.GrabWidth: a `u16` overflow of spacing + leeway panics in a debug
  build; the model gives the release-build wrap-around instead.
- The application's handlers (`on_click`, `on_drag`, `on_resize`) are
  modelled by whether they are present. The message published is the domain
  event itself, because the closures that map it to an application message
  are external.
- Builder setters (`pane_grid.rs:138-197`) are summarised as the
  configuration record passed to the constructor. Width, height and style
  do not affect the controller and are left out.
- `draw`, `layout`, `hash_layout`, `overlay` and the conversion into an
  element (`pane_grid.rs:329-356`, `526-708`) are left out. They are
  rendering and widget-framework plumbing.
- Event payloads (finger ids, positions) are dropped. The controller only
  reads the cursor position it is given separately.
- native/src/command/action.rs and internal/src/lib.rs are left out. They
  hold future-mapping wrappers and module re-exports, with no controller
  logic.
