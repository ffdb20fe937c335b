/** The controller across frames. The interaction state outlives each widget
    instance, which is rebuilt every frame with possibly different elements,
    handlers and layout; these lemmas follow that state and the stream of
    published messages over any sequence of frames. */
module Protocol {
  import opened Search
  import opened Geometry
  import opened Input
  import opened Gesture

  /** One frame: the grid as built for it, the event and what the layout
      reports for it. */
  datatype Frame = Frame(config: Config, elements: seq<Element>, event: Event, layout: Layout,
                         cursor: Point, splits: seq<SplitRegion>, lineBounds: LineBounds)

  function Step(action: Action, f: Frame): Outcome {
    EventOutcome(f.config, f.elements, action, f.event, f.layout, f.cursor, f.splits, f.lineBounds)
  }

  /** The final interaction state and every message published, in order, when
      the frames are handled one after another. */
  function Run(action: Action, frames: seq<Frame>): (r: (Action, seq<Message>))
    ensures frames != [] && frames[|frames| - 1].event.IsRelease() ==> r.0 == Idle
    ensures forall m :: m in r.1 ==> WellFormed(m)
    decreases |frames|
  {
    if |frames| == 0 then (action, [])
    else
      var o := Step(action, frames[0]);
      var rest := Run(o.action, frames[1..]);
      (rest.0, o.messages + rest.1)
  }

  /** The pane of the most recent Picked message. */
  function LastPicked(h: seq<Message>): (r: Option<Pane>)
    ensures r.Some? ==> Dragged(Picked(r.value)) in h
    ensures r.Some? ==>
      exists i :: 0 <= i < |h| && h[i] == Dragged(Picked(r.value))
        && forall j :: i < j < |h| ==> !(h[j].Dragged? && h[j].drag.Picked?)
    ensures r.None? ==> forall p :: Dragged(Picked(p)) !in h
    decreases |h|
  {
    if |h| == 0 then None
    else if h[|h| - 1].Dragged? && h[|h| - 1].drag.Picked? then Some(h[|h| - 1].drag.pane)
    else
      assert h == h[..|h| - 1] + [h[|h| - 1]];
      LastPicked(h[..|h| - 1])
  }

  lemma {:induction false} LastPickedAppend(h: seq<Message>, ms: seq<Message>)
    ensures LastPicked(h + ms) == if LastPicked(ms).Some? then LastPicked(ms) else LastPicked(h)
    decreases |ms|
  {
    if |ms| > 0 {
      var hm := h + ms;
      assert hm[|hm| - 1] == ms[|ms| - 1];
      assert hm[..|hm| - 1] == h + ms[..|ms| - 1];
      LastPickedAppend(h, ms[..|ms| - 1]);
    } else {
      assert h + ms == h;
    }
  }

  /** Drag protocol: every Dropped or Canceled message for a pane comes after
      a Picked message for that same pane, with no other pane picked in
      between. */
  ghost predicate Bracketed(h: seq<Message>) {
    forall k :: 0 <= k < |h| && h[k].Dragged? && !h[k].drag.Picked? ==>
      LastPicked(h[..k]) == Some(h[k].drag.pane)
  }

  /** A picked pane is the one most recently announced as Picked. */
  ghost predicate Consistent(action: Action, h: seq<Message>) {
    action.PanePicked? ==> LastPicked(h) == Some(action.pane)
  }

  lemma StepKeepsProtocol(action: Action, h: seq<Message>, f: Frame)
    requires Consistent(action, h) && Bracketed(h)
    ensures var o := Step(action, f);
      Consistent(o.action, h + o.messages) && Bracketed(h + o.messages)
  {
    var o := Step(action, f);
    var ms := o.messages;
    LastPickedAppend(h, ms);
    var hm := h + ms;
    forall k | 0 <= k < |hm| && hm[k].Dragged? && !hm[k].drag.Picked?
      ensures LastPicked(hm[..k]) == Some(hm[k].drag.pane)
    {
      if k < |h| {
        assert hm[..k] == h[..k];
        assert hm[k] == h[k];
      } else {
        assert hm[k] == ms[k - |h|];
        assert ms[k - |h|] in ms;
        assert ms == [hm[k]];
        assert hm[..k] == h;
      }
    }
  }

  lemma Regroup(action: Action, h: seq<Message>, ms: seq<Message>, rest: seq<Message>)
    requires Consistent(action, (h + ms) + rest) && Bracketed((h + ms) + rest)
    ensures Consistent(action, h + (ms + rest)) && Bracketed(h + (ms + rest))
  {
    assert (h + ms) + rest == h + (ms + rest);
  }

  lemma {:induction false} RunKeepsProtocol(action: Action, h: seq<Message>, frames: seq<Frame>)
    requires Consistent(action, h) && Bracketed(h)
    ensures var r := Run(action, frames);
      Consistent(r.0, h + r.1) && Bracketed(h + r.1)
    decreases |frames|
  {
    if |frames| == 0 {
      assert h + [] == h;
    } else {
      var o := Step(action, frames[0]);
      var rest := Run(o.action, frames[1..]);
      StepKeepsProtocol(action, h, frames[0]);
      RunKeepsProtocol(o.action, h + o.messages, frames[1..]);
      Regroup(rest.0, h, o.messages, rest.1);
    }
  }

  /** From an idle grid, the published drag events are well bracketed over
      any sequence of frames, and a pane still picked at the end is the last
      one announced. */
  lemma DragEventsBracketed(frames: seq<Frame>)
    ensures var r := Run(Idle, frames);
      Bracketed(r.1) && Consistent(r.0, r.1)
  {
    RunKeepsProtocol(Idle, [], frames);
    assert [] + Run(Idle, frames).1 == Run(Idle, frames).1;
  }

  /** A drag gesture over two frames: a press that picks a pane, then a
      release over another pane, announces the pick and ends with the drop
      onto that pane, leaving the grid idle. */
  lemma PickThenDrop(press: Frame, release: Frame)
    requires press.event.IsPress() && release.event.IsRelease() && release.config.onDrag
    requires Step(Idle, press).action.PanePicked?
    requires var c := ClickedRegion(release.elements, release.layout.children, release.cursor);
      c.Some? && release.elements[c.value].pane != Step(Idle, press).action.pane
    ensures var p := Step(Idle, press).action.pane;
      var target := release.elements[ClickedRegion(release.elements, release.layout.children, release.cursor).value].pane;
      var r := Run(Idle, [press, release]);
      r.0 == Idle && Dragged(Picked(p)) in r.1 && r.1[|r.1| - 1] == Dragged(Dropped(p, target))
  {
    var o1 := Step(Idle, press);
    var o2 := Step(o1.action, release);
    assert [press, release][1..] == [release];
    assert Run(o1.action, [release]) == (o2.action, o2.messages + []);
  }
}
