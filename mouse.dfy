/** The cursor affordances a widget can ask for. */
module Mouse {

  datatype Interaction =
    | Idle
    | Pointer
    | Grab
    | Text
    | Crosshair
    | Working
    | Grabbing
    | ResizingHorizontally
    | ResizingVertically
  {
    /** Position in declaration order, which the derived ordering follows. */
    function Rank(): nat {
      match this
      case Idle => 0
      case Pointer => 1
      case Grab => 2
      case Text => 3
      case Crosshair => 4
      case Working => 5
      case Grabbing => 6
      case ResizingHorizontally => 7
      case ResizingVertically => 8
    }
  }

  /** The default affordance. */
  const Default: Interaction := Idle
}
