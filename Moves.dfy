/** One step of a piece: origin (x, y), destination (x2, y2) and the square
    (xb, yb) of the piece it captures, where xb == -1 means no capture. */
module Moves {

  datatype Move = Move(x: int, y: int, x2: int, y2: int, xb: int, yb: int)
  {
    /** A move that removes an enemy piece. */
    predicate IsCapture()
    {
      xb != -1
    }
  }

  /** The quiet move built from four coordinates: both capture fields -1. */
  function QuietMove(x: int, y: int, x2: int, y2: int): (mv: Move)
    ensures !mv.IsCapture()
    ensures mv.x == x && mv.y == y && mv.x2 == x2 && mv.y2 == y2
  {
    Move(x, y, x2, y2, -1, -1)
  }

  /** Concatenation regroups freely. */
  lemma AppendAssoc<T>(a: seq<T>, b: seq<T>, c: seq<T>)
    ensures (a + b) + c == a + (b + c)
  {
  }
}
