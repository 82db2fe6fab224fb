/** Where the walkthrough's callout goes, given the bounding rectangle of the
    element it describes. Coordinates are exact reals; the browser's float
    arithmetic and the "px" formatting are not modelled. */
module Layout {

  /** A bounding client rectangle: its top-left corner and its size. */
  datatype Rect = Rect(top: real, left: real, width: real, height: real)

  /** The callout's `top` and `left` style values. */
  datatype Position = Position(top: real, left: real)

  /** Horizontal gap between the target's right edge and the callout. */
  const CalloutGap: real := 10.0

  function Right(r: Rect): real { r.left + r.width }

  function Bottom(r: Rect): real { r.top + r.height }

  /** The callout is centred vertically on the target and sits `CalloutGap`
      to the right of the target's right edge. */
  function Placement(r: Rect): (p: Position)
    ensures p.top - r.top == Bottom(r) - p.top
    ensures p.left - Right(r) == CalloutGap
  {
    Position(r.height / 2.0 + r.top, r.width + r.left + CalloutGap)
  }

  /** The two properties above determine the placement: any position that is
      vertically centred on the target and one gap to its right is the one
      `Placement` computes. */
  lemma PlacementUnique(r: Rect, p: Position)
    requires p.top - r.top == Bottom(r) - p.top
    requires p.left - Right(r) == CalloutGap
    ensures p == Placement(r)
  {
  }
}
