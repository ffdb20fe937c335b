/** The input events the pane grid reacts to, and the event status it reports. */
module Input {

  datatype MouseButton = Left | Right | Middle | OtherButton(code: nat)

  /** Mouse and touch events. The payloads the pane grid does not read
      (finger ids, positions carried by the event) are dropped: the grid
      uses the cursor position it is handed separately. */
  datatype Event =
    | ButtonPressed(button: MouseButton)
    | ButtonReleased(button: MouseButton)
    | CursorMoved
    | FingerPressed
    | FingerMoved
    | FingerLifted
    | FingerLost
    | Other
  {
    /** Left mouse button pressed, or a finger put down. */
    predicate IsPress() {
      (ButtonPressed? && button == Left) || FingerPressed?
    }

    /** Left mouse button released, or a finger lifted or lost. */
    predicate IsRelease() {
      (ButtonReleased? && button == Left) || FingerLifted? || FingerLost?
    }

    /** The cursor or a finger moved. */
    predicate IsMove() {
      CursorMoved? || FingerMoved?
    }
  }

  datatype Status = Ignored | Captured {

    /** A captured status absorbs whatever follows; an ignored one yields to it. */
    function Merge(other: Status): (r: Status)
      ensures r == Captured <==> this == Captured || other == Captured
    {
      match this
      case Ignored => other
      case Captured => Captured
    }
  }

  /** `rest.iter().fold(s, Status::merge)`. */
  function MergeAll(s: Status, rest: seq<Status>): (r: Status)
    ensures r == Captured <==> s == Captured || Captured in rest
    decreases |rest|
  {
    if |rest| == 0 then s
    else
      assert rest == [rest[0]] + rest[1..];
      MergeAll(s.Merge(rest[0]), rest[1..])
  }
}
