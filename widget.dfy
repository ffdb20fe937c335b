/** The pane grid widget as a stateful object: its configuration and elements
    are fixed when it is built, its interaction state is updated in place by
    the event handlers, and the messages it emits are appended to a shell. */
module Widget {
  import opened Search
  import opened Geometry
  import opened Input
  import Mouse
  import opened Gesture

  /** The channel messages are published on, in order. */
  class Shell {
    var messages: seq<Message>

    constructor ()
      ensures messages == []
    {
      messages := [];
    }

    method Publish(m: Message)
      modifies this
      ensures messages == old(messages) + [m]
    {
      messages := messages + [m];
    }
  }

  class PaneGrid {
    const config: Config
    const elements: seq<Element>
    var action: Action

    /** A grid over existing interaction state, with its builder settings. */
    constructor (config: Config, elements: seq<Element>, action: Action)
      ensures this.config == config && this.elements == elements && this.action == action
    {
      this.config := config;
      this.elements := elements;
      this.action := action;
    }

    /** Handles a press on the pane regions. */
    method ClickPane(layout: Layout, cursor: Point, shell: Shell)
      modifies this, shell
      ensures var (a, ms) := ClickPaneEffect(config, elements, layout.children, cursor, old(action));
        action == a && shell.messages == old(shell.messages) + ms
    {
      var clicked := ClickedRegion(elements, layout.children, cursor);
      if clicked.Some? {
        var i := clicked.value;
        var pane := elements[i].pane;
        if config.onClick {
          shell.Publish(Clicked(pane));
        }
        if config.onDrag {
          if elements[i].canBePickedAt(layout.children[i], cursor) {
            var origin := Minus(cursor, layout.children[i].Position());
            action := PanePicked(pane, origin);
            shell.Publish(Dragged(Picked(pane)));
          }
        }
      }
    }

    /** Handles a move: resizes the picked split, if any. */
    method TriggerResize(layout: Layout, cursor: Point, splits: seq<SplitRegion>, shell: Shell) returns (status: Status)
      modifies shell
      ensures var (ms, st) := ResizeOutcome(config, action, layout.bounds, cursor, splits);
        shell.messages == old(shell.messages) + ms && status == st
    {
      if config.onResize.Some? {
        if action.SplitPicked? {
          var split := action.split;
          var bounds := layout.bounds;
          var found := LookupSplit(splits, split);
          if found.Some? {
            var entry := splits[found.value];
            var ratio := ResizeRatio(entry.axis, bounds, entry.region, cursor);
            shell.Publish(Resized(ResizeEvent(split, ratio)));
            return Captured;
          }
        }
      }
      return Ignored;
    }

    /** Handles one input event. `splits` are the split regions computed for
        the grid's current size, `contentStatuses` what the panes' contents
        report when the event is forwarded to them. Returns the merged status. */
    method OnEvent(event: Event, layout: Layout, cursor: Point, splits: seq<SplitRegion>,
                   lineBounds: LineBounds, contentStatuses: seq<Status>, shell: Shell)
      returns (status: Status)
      modifies this, shell
      ensures var o := EventOutcome(config, elements, old(action), event, layout, cursor, splits, lineBounds);
        && action == o.action
        && shell.messages == old(shell.messages) + o.messages
        && status == MergeAll(o.status, contentStatuses)
    {
      var eventStatus := Ignored;
      if event.IsPress() {
        var bounds := layout.bounds;
        if bounds.Contains(cursor) {
          eventStatus := Captured;
          match config.onResize {
            case Some(leeway) =>
              var relativeCursor := Minus(cursor, bounds.Position());
              var clickedSplit := HoveredSplit(splits, GrabWidth(config.spacing, leeway), relativeCursor, lineBounds);
              if clickedSplit.Some? {
                action := SplitPicked(clickedSplit.value.split, clickedSplit.value.axis);
              } else {
                ClickPane(layout, cursor, shell);
              }
            case None =>
              ClickPane(layout, cursor, shell);
          }
        }
      } else if event.IsRelease() {
        if action.PanePicked? {
          var pane := action.pane;
          if config.onDrag {
            var clicked := ClickedRegion(elements, layout.children, cursor);
            var drag := Canceled(pane);
            if clicked.Some? && pane != elements[clicked.value].pane {
              drag := Dropped(pane, elements[clicked.value].pane);
            }
            shell.Publish(Dragged(drag));
          }
          action := Idle;
          eventStatus := Captured;
        } else if action.SplitPicked? {
          action := Idle;
          eventStatus := Captured;
        }
      } else if event.IsMove() {
        eventStatus := TriggerResize(layout, cursor, splits, shell);
      }
      status := MergeAll(eventStatus, contentStatuses);
    }

    /** The cursor affordance: grab while a pane is picked; resize across the
        picked split, or else across the split under the cursor when resizing
        is enabled; otherwise the highest affordance the contents ask for. */
    function MouseInteraction(layout: Layout, cursor: Point, splits: seq<SplitRegion>,
                              lineBounds: LineBounds, contents: seq<Mouse.Interaction>): (r: Mouse.Interaction)
      reads this
      ensures action.PanePicked? ==> r == Mouse.Grab
      ensures action.SplitPicked? ==> r == ResizeCursor(action.axis)
      ensures var h := GrabbedSplit(config, layout.bounds, cursor, splits, lineBounds);
        action.Idle? && h.Some? ==> r == ResizeCursor(h.value.axis)
      ensures action.Idle? && GrabbedSplit(config, layout.bounds, cursor, splits, lineBounds).None? ==>
        && (contents == [] ==> r == Mouse.Default)
        && (contents != [] ==> r in contents)
        && forall i :: 0 <= i < |contents| ==> contents[i].Rank() <= r.Rank()
    {
      match action
      case PanePicked(_, _) => Mouse.Grab
      case SplitPicked(_, axis) => ResizeCursor(axis)
      case Idle =>
        match GrabbedSplit(config, layout.bounds, cursor, splits, lineBounds)
        case Some(h) => ResizeCursor(h.axis)
        case None => MaxOrDefault(contents)
    }
  }
}
