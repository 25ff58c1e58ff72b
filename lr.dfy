/** The Delaunay library's left/right side tag and its flip. */
module LR {

  /** Side, with the enum's underlying values LEFT = 0 and RIGHT = 1. */
  datatype Side = LEFT | RIGHT {
    function Ordinal(): (n: nat)
      ensures n < 2
      ensures n == 0 <==> this == LEFT
    {
      if LEFT? then 0 else 1
    }
  }

  /** SideHelper.Other: the opposite side. */
  function Other(s: Side): (o: Side)
    ensures o != s
    ensures o.Ordinal() == 1 - s.Ordinal()
  {
    if s == LEFT then RIGHT else LEFT
  }

  lemma OtherLeftIsRight()
    ensures Other(LEFT) == RIGHT
  {
  }

  lemma OtherRightIsLeft()
    ensures Other(RIGHT) == LEFT
  {
  }

  /** Flipping twice gives the side back. */
  lemma OtherInvolution(s: Side)
    ensures Other(Other(s)) == s
  {
  }
}
