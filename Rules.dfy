/** The rules of Russian draughts as the engine applies them, stated as
    functions of a board matrix: the moves of one piece, the moves of one
    side under the mandatory-capture rule, a move applied to a copy of the
    board, and the material count behind the position score. The class in
    module Logic computes the same things with loops and is proved to agree
    with these functions. */
module Rules {
  import opened Matrix
  import opened Moves
  import BoardState

  // ---------------------------------------------------------------------
  // Applying a move to a copy of the board

  /** The code that travels with `turn`: the origin's, except in the
      degenerate move whose capture square is its own origin, where the
      capture has already emptied it. */
  function Moving(m: Mtx, turn: Move): int
    requires IsMatrix(m) && InBounds(turn.x, turn.y)
  {
    if turn.IsCapture() && turn.xb == turn.x && turn.yb == turn.y then EMPTY else m[turn.x][turn.y]
  }

  /** The board after `turn`: the captured piece (if any) is removed, the
      moving piece is promoted when it lands on its far row, it is copied
      to the destination and the origin is emptied. */
  function MakeTurn(m: Mtx, turn: Move): (r: Mtx)
    requires IsMatrix(m) && InBounds(turn.x, turn.y) && InBounds(turn.x2, turn.y2)
    requires turn.IsCapture() ==> InBounds(turn.xb, turn.yb)
    ensures IsMatrix(r)
    ensures forall a, b :: InBounds(a, b) ==>
      r[a][b] == (if a == turn.x && b == turn.y then EMPTY
                  else if a == turn.x2 && b == turn.y2 then Promote(Moving(m, turn), turn.x2)
                  else if turn.IsCapture() && a == turn.xb && b == turn.yb then EMPTY
                  else m[a][b])
  {
    var m1 := if turn.IsCapture() then Set(m, turn.xb, turn.yb, EMPTY) else m;
    var p := Promote(m1[turn.x][turn.y], turn.x2);
    Set(Set(Set(m1, turn.x, turn.y, p), turn.x2, turn.y2, p), turn.x, turn.y, EMPTY)
  }

  /** On a move whose three squares are distinct, the destination receives
      the moving piece, promoted exactly when a white man lands on row 0 or
      a black man on row 7; a king keeps its code. The result stays a
      well-formed board. */
  lemma MakeTurnPromotion(m: Mtx, turn: Move)
    requires WellFormed(m) && InBounds(turn.x, turn.y) && InBounds(turn.x2, turn.y2)
    requires turn.IsCapture() ==> InBounds(turn.xb, turn.yb) && (turn.xb, turn.yb) != (turn.x, turn.y)
    requires (turn.x, turn.y) != (turn.x2, turn.y2)
    ensures WellFormed(MakeTurn(m, turn))
    ensures var v, r := m[turn.x][turn.y], MakeTurn(m, turn)[turn.x2][turn.y2];
      && (v == WHITE_MAN ==> r == (if turn.x2 == 0 then WHITE_KING else WHITE_MAN))
      && (v == BLACK_MAN ==> r == (if turn.x2 == 7 then BLACK_KING else BLACK_MAN))
      && (v == WHITE_KING || v == BLACK_KING ==> r == v)
  {
  }

  /** make_turn on a virtual board and move_piece on the authoritative
      board agree: when the destination is free and the origin occupied
      once the capture is cleared, the matrix the board ends with is the
      one make_turn computes. */
  lemma MakeTurnMatchesBoard(m: Mtx, turn: Move)
    requires IsMatrix(m) && InBounds(turn.x, turn.y) && InBounds(turn.x2, turn.y2)
    requires turn.IsCapture() ==> InBounds(turn.xb, turn.yb)
    requires BoardState.ClearCaptured(m, turn)[turn.x2][turn.y2] == EMPTY
    requires BoardState.ClearCaptured(m, turn)[turn.x][turn.y] != EMPTY
    ensures MakeTurn(m, turn) == BoardState.AfterMove(BoardState.ClearCaptured(m, turn), turn.x, turn.y, turn.x2, turn.y2)
  {
    SameCells(MakeTurn(m, turn), BoardState.AfterMove(BoardState.ClearCaptured(m, turn), turn.x, turn.y, turn.x2, turn.y2));
  }

  // ---------------------------------------------------------------------
  // Geometry of diagonal rays

  predicate Dir(d: int)
  {
    d == -1 || d == 1
  }

  /** The coordinate k steps from p in direction d. */
  function Along(p: int, d: int, k: int): int
  {
    if d == 1 then p + k else p - k
  }

  /** The number of steps from p to q in direction d. */
  function Dist(p: int, d: int, q: int): int
  {
    if d == 1 then q - p else p - q
  }

  /** A measure that falls by one per step along a ray in direction d. */
  function RayLeft(i: int, d: int): int
  {
    if d == 1 then 8 - i else i + 1
  }

  /** The cells at steps a, a+1, ..., b-1 from (x, y) along (di, dj) are
      all on the board and empty. */
  predicate EmptyRun(m: Mtx, x: int, y: int, di: int, dj: int, a: int, b: int)
    requires WellFormed(m)
    decreases b - a
  {
    a >= b ||
    (InBounds(Along(x, di, a), Along(y, dj, a)) && m[Along(x, di, a)][Along(y, dj, a)] == EMPTY
     && EmptyRun(m, x, y, di, dj, a + 1, b))
  }

  /** The piece on (a, b) is of the other parity than the piece on (x, y). */
  predicate Enemy(m: Mtx, x: int, y: int, a: int, b: int)
    requires WellFormed(m) && InBounds(x, y) && InBounds(a, b)
  {
    m[a][b] != EMPTY && m[a][b] % 2 != m[x][y] % 2
  }

  // ---------------------------------------------------------------------
  // The moves of a man

  /** The capture of the man on (x, y) that lands on (i, j) two steps away,
      if the landing is on the board and empty and the square between holds
      a piece of the other parity. */
  function ManJump(m: Mtx, x: int, y: int, i: int, j: int): seq<Move>
    requires WellFormed(m) && InBounds(x, y)
    requires (i == x - 2 || i == x + 2) && (j == y - 2 || j == y + 2)
  {
    if i < 0 || i > 7 || j < 0 || j > 7 then []
    else
      var mx, my := (x + i) / 2, (y + j) / 2;
      if m[i][j] != EMPTY || m[mx][my] == EMPTY || m[mx][my] % 2 == m[x][y] % 2 then []
      else [Move(x, y, i, j, mx, my)]
  }

  /** The captures landing on row i, column y - 2 first. */
  function ManJumpRow(m: Mtx, x: int, y: int, i: int): seq<Move>
    requires WellFormed(m) && InBounds(x, y) && (i == x - 2 || i == x + 2)
  {
    ManJump(m, x, y, i, y - 2) + ManJump(m, x, y, i, y + 2)
  }

  /** A man's captures, in all four diagonal directions. */
  function ManCaptures(m: Mtx, x: int, y: int): (r: seq<Move>)
    requires WellFormed(m) && InBounds(x, y)
    ensures |r| <= 4
    ensures forall mv :: mv in r ==> mv.x == x && mv.y == y && mv.IsCapture()
  {
    ManJumpRow(m, x, y, x - 2) + ManJumpRow(m, x, y, x + 2)
  }

  /** The row a man's quiet step goes to: white (odd codes) moves up to
      x - 1, black (even codes) down to x + 1. */
  function Forward(x: int, v: int): int
  {
    if v % 2 == 1 then x - 1 else x + 1
  }

  /** The quiet step of the man on (x, y) to (dx, dy), if that cell is on
      the board and empty. */
  function ManStep(m: Mtx, x: int, y: int, dx: int, dy: int): seq<Move>
    requires WellFormed(m)
  {
    if dx < 0 || dx > 7 || dy < 0 || dy > 7 || m[dx][dy] != EMPTY then []
    else [QuietMove(x, y, dx, dy)]
  }

  /** A man's quiet moves: one diagonal step forward, column y - 1 first. */
  function ManQuiet(m: Mtx, x: int, y: int): (r: seq<Move>)
    requires WellFormed(m) && InBounds(x, y)
    ensures |r| <= 2
    ensures forall mv :: mv in r ==> mv.x == x && mv.y == y && !mv.IsCapture() && mv.x2 == Forward(x, m[x][y])
  {
    var dx := Forward(x, m[x][y]);
    ManStep(m, x, y, dx, y - 1) + ManStep(m, x, y, dx, y + 1)
  }

  /** A legal capture of a man, described by its shape: two diagonal steps
      onto an empty cell of the board, over the midpoint, which holds a
      piece of the other parity and is the captured square. */
  predicate ManCaptureShape(m: Mtx, x: int, y: int, mv: Move)
    requires WellFormed(m) && InBounds(x, y)
  {
    && mv.x == x && mv.y == y
    && (mv.x2 == x - 2 || mv.x2 == x + 2) && (mv.y2 == y - 2 || mv.y2 == y + 2)
    && InBounds(mv.x2, mv.y2) && m[mv.x2][mv.y2] == EMPTY
    && mv.xb == (x + mv.x2) / 2 && mv.yb == (y + mv.y2) / 2
    && Enemy(m, x, y, mv.xb, mv.yb)
  }

  /** A legal quiet move of a man, described by its shape: one diagonal
      step forward onto an empty cell of the board, capturing nothing. */
  predicate ManStepShape(m: Mtx, x: int, y: int, mv: Move)
    requires WellFormed(m) && InBounds(x, y)
  {
    && mv.x == x && mv.y == y
    && mv.x2 == Forward(x, m[x][y]) && (mv.y2 == y - 1 || mv.y2 == y + 1)
    && InBounds(mv.x2, mv.y2) && m[mv.x2][mv.y2] == EMPTY
    && mv.xb == -1 && mv.yb == -1
  }

  /** The man's capture list holds exactly the captures of that shape. */
  lemma {:induction false} ManCapturesIff(m: Mtx, x: int, y: int, mv: Move)
    requires WellFormed(m) && InBounds(x, y)
    ensures mv in ManCaptures(m, x, y) <==> ManCaptureShape(m, x, y, mv)
  {
    ManJumpIff(m, x, y, x - 2, y - 2, mv);
    ManJumpIff(m, x, y, x - 2, y + 2, mv);
    ManJumpIff(m, x, y, x + 2, y - 2, mv);
    ManJumpIff(m, x, y, x + 2, y + 2, mv);
    assert mv in ManCaptures(m, x, y) <==>
      || mv in ManJump(m, x, y, x - 2, y - 2) || mv in ManJump(m, x, y, x - 2, y + 2)
      || mv in ManJump(m, x, y, x + 2, y - 2) || mv in ManJump(m, x, y, x + 2, y + 2);
  }

  /** One jump of a man holds exactly the capture of that shape landing
      on (i, j). */
  lemma ManJumpIff(m: Mtx, x: int, y: int, i: int, j: int, mv: Move)
    requires WellFormed(m) && InBounds(x, y)
    requires (i == x - 2 || i == x + 2) && (j == y - 2 || j == y + 2)
    ensures mv in ManJump(m, x, y, i, j) <==> ManCaptureShape(m, x, y, mv) && mv.x2 == i && mv.y2 == j
  {
  }

  /** The man's quiet list holds exactly the forward steps of that shape. */
  lemma ManQuietIff(m: Mtx, x: int, y: int, mv: Move)
    requires WellFormed(m) && InBounds(x, y)
    ensures mv in ManQuiet(m, x, y) <==> ManStepShape(m, x, y, mv)
  {
  }

  // ---------------------------------------------------------------------
  // The moves of a king

  /** The scan of a king's capture ray in direction (di, dj), from cell
      (i2, j2) on, having met the enemy piece on (lbx, lby) already (lbx ==
      -1: none yet). An own piece, or a second piece after the enemy one,
      ends the ray; every empty cell after the enemy piece is a landing
      square. */
  function RayCaptures(m: Mtx, x: int, y: int, di: int, dj: int, i2: int, j2: int, lbx: int, lby: int): seq<Move>
    requires WellFormed(m) && InBounds(x, y) && Dir(di) && Dir(dj)
    requires -1 <= i2 <= 8 && -1 <= j2 <= 8
    requires lbx == -1 || InBounds(lbx, lby)
    decreases RayLeft(i2, di)
  {
    if !InBounds(i2, j2) then []
    else if m[i2][j2] != EMPTY && (m[i2][j2] % 2 == m[x][y] % 2 || (lbx != -1 && lbx != i2)) then []
    else
      var bx := if m[i2][j2] != EMPTY then i2 else lbx;
      var bj := if m[i2][j2] != EMPTY then j2 else lby;
      (if bx != -1 && bx != i2 then [Move(x, y, i2, j2, bx, bj)] else [])
      + RayCaptures(m, x, y, di, dj, i2 + di, j2 + dj, bx, bj)
  }

  /** The capture ray scan ends at a piece of the king's own parity and at
      a second piece met after the remembered one. */
  lemma RayCapturesBlocked(m: Mtx, x: int, y: int, di: int, dj: int, i2: int, j2: int, lbx: int, lby: int)
    requires WellFormed(m) && InBounds(x, y) && Dir(di) && Dir(dj)
    requires InBounds(i2, j2) && (lbx == -1 || InBounds(lbx, lby))
    requires m[i2][j2] != EMPTY && (m[i2][j2] % 2 == m[x][y] % 2 || (lbx != -1 && lbx != i2))
    ensures RayCaptures(m, x, y, di, dj, i2, j2, lbx, lby) == []
  {
  }

  /** One cell of the capture ray scan that does not end it: the cell is
      remembered when it holds the enemy piece, and it is a landing once an
      enemy piece lies behind it. */
  lemma RayCapturesUnfold(m: Mtx, x: int, y: int, di: int, dj: int, i2: int, j2: int,
                           lbx: int, lby: int, nx: int, ny: int)
    requires WellFormed(m) && InBounds(x, y) && Dir(di) && Dir(dj)
    requires InBounds(i2, j2) && (lbx == -1 || InBounds(lbx, lby))
    requires !(m[i2][j2] != EMPTY && (m[i2][j2] % 2 == m[x][y] % 2 || (lbx != -1 && lbx != i2)))
    requires nx == (if m[i2][j2] != EMPTY then i2 else lbx)
    requires ny == (if m[i2][j2] != EMPTY then j2 else lby)
    ensures RayCaptures(m, x, y, di, dj, i2, j2, lbx, lby)
      == (if nx != -1 && nx != i2 then [Move(x, y, i2, j2, nx, ny)] else [])
         + RayCaptures(m, x, y, di, dj, i2 + di, j2 + dj, nx, ny)
  {
  }

  /** The whole capture ray of the king on (x, y) in direction (di, dj). */
  function RayCapturesFrom(m: Mtx, x: int, y: int, di: int, dj: int): seq<Move>
    requires WellFormed(m) && InBounds(x, y) && Dir(di) && Dir(dj)
  {
    RayCaptures(m, x, y, di, dj, x + di, y + dj, -1, -1)
  }

  /** The king's captures along the two rays with row direction di. */
  function KingCapturesDir(m: Mtx, x: int, y: int, di: int): seq<Move>
    requires WellFormed(m) && InBounds(x, y) && Dir(di)
  {
    RayCapturesFrom(m, x, y, di, -1) + RayCapturesFrom(m, x, y, di, 1)
  }

  /** A king's captures along its four rays. */
  function KingCaptures(m: Mtx, x: int, y: int): seq<Move>
    requires WellFormed(m) && InBounds(x, y)
  {
    KingCapturesDir(m, x, y, -1) + KingCapturesDir(m, x, y, 1)
  }

  /** The scan of a king's quiet ray from (i2, j2) on: every empty cell up
      to the first occupied one. */
  function RaySteps(m: Mtx, x: int, y: int, di: int, dj: int, i2: int, j2: int): (r: seq<Move>)
    requires WellFormed(m) && Dir(di) && Dir(dj)
    requires -1 <= i2 <= 8 && -1 <= j2 <= 8
    ensures |r| <= RayLeft(i2, di)
    decreases RayLeft(i2, di)
  {
    if !InBounds(i2, j2) || m[i2][j2] != EMPTY then []
    else [QuietMove(x, y, i2, j2)] + RaySteps(m, x, y, di, dj, i2 + di, j2 + dj)
  }

  /** One on-board cell of the quiet ray scan. */
  lemma RayStepsCell(m: Mtx, x: int, y: int, di: int, dj: int, i2: int, j2: int)
    requires WellFormed(m) && Dir(di) && Dir(dj) && InBounds(i2, j2)
    ensures RaySteps(m, x, y, di, dj, i2, j2)
      == if m[i2][j2] != EMPTY then [] else [QuietMove(x, y, i2, j2)] + RaySteps(m, x, y, di, dj, i2 + di, j2 + dj)
  {
  }

  /** The whole quiet ray of the king on (x, y) in direction (di, dj). */
  function RayStepsFrom(m: Mtx, x: int, y: int, di: int, dj: int): seq<Move>
    requires WellFormed(m) && InBounds(x, y) && Dir(di) && Dir(dj)
  {
    RaySteps(m, x, y, di, dj, x + di, y + dj)
  }

  /** The king's quiet moves along the two rays with row direction di. */
  function KingQuietDir(m: Mtx, x: int, y: int, di: int): seq<Move>
    requires WellFormed(m) && InBounds(x, y) && Dir(di)
  {
    RayStepsFrom(m, x, y, di, -1) + RayStepsFrom(m, x, y, di, 1)
  }

  /** A king's quiet moves along its four rays. */
  function KingQuiet(m: Mtx, x: int, y: int): seq<Move>
    requires WellFormed(m) && InBounds(x, y)
  {
    KingQuietDir(m, x, y, -1) + KingQuietDir(m, x, y, 1)
  }

  /** A king's capture along (di, dj) found no earlier than step s, by its
      shape: the enemy piece k steps away is the first piece met from step s
      on, and the landing l steps away comes after it with only empty cells
      of the board in between. */
  predicate KingCaptureFrom(m: Mtx, x: int, y: int, di: int, dj: int, s: int, mv: Move)
    requires WellFormed(m) && InBounds(x, y)
  {
    var l, k := Dist(x, di, mv.x2), Dist(x, di, mv.xb);
    && mv == Move(x, y, Along(x, di, l), Along(y, dj, l), Along(x, di, k), Along(y, dj, k))
    && s <= k < l
    && EmptyRun(m, x, y, di, dj, s, k)
    && InBounds(mv.xb, mv.yb) && Enemy(m, x, y, mv.xb, mv.yb)
    && EmptyRun(m, x, y, di, dj, k + 1, l + 1)
  }

  /** A king's capture along (di, dj): the first piece on the ray is an
      enemy, it is the captured one, and the landing is any cell after it
      up to the next piece. */
  predicate KingCaptureShape(m: Mtx, x: int, y: int, di: int, dj: int, mv: Move)
    requires WellFormed(m) && InBounds(x, y)
  {
    KingCaptureFrom(m, x, y, di, dj, 1, mv)
  }

  /** A king's capture along (di, dj) with the enemy piece already met k0
      steps away and the scan at step s: the landing is any later empty
      cell up to the next piece. */
  predicate KingLandingFrom(m: Mtx, x: int, y: int, di: int, dj: int, k0: int, s: int, mv: Move)
    requires WellFormed(m)
  {
    var l := Dist(x, di, mv.x2);
    && mv == Move(x, y, Along(x, di, l), Along(y, dj, l), Along(x, di, k0), Along(y, dj, k0))
    && s <= l && EmptyRun(m, x, y, di, dj, s, l + 1)
  }

  /** A king's quiet move along (di, dj) from step s on: an empty cell of
      the board with only empty cells between. */
  predicate KingStepFrom(m: Mtx, x: int, y: int, di: int, dj: int, s: int, mv: Move)
    requires WellFormed(m)
  {
    var l := Dist(x, di, mv.x2);
    && mv == QuietMove(x, y, Along(x, di, l), Along(y, dj, l))
    && s <= l && EmptyRun(m, x, y, di, dj, s, l + 1)
  }

  /** A king's quiet move along (di, dj): any cell before the first piece. */
  predicate KingStepShape(m: Mtx, x: int, y: int, di: int, dj: int, mv: Move)
    requires WellFormed(m)
  {
    KingStepFrom(m, x, y, di, dj, 1, mv)
  }

  /** After the enemy piece, the ray scan yields exactly the landings
      described by KingLandingFrom. */
  lemma {:induction false} RayLandingsIff(m: Mtx, x: int, y: int, di: int, dj: int, k0: int, s: int, mv: Move)
    requires WellFormed(m) && InBounds(x, y) && Dir(di) && Dir(dj)
    requires 1 <= k0 < s
    requires InBounds(Along(x, di, s - 1), Along(y, dj, s - 1))
    requires InBounds(Along(x, di, k0), Along(y, dj, k0))
    ensures mv in RayCaptures(m, x, y, di, dj, Along(x, di, s), Along(y, dj, s), Along(x, di, k0), Along(y, dj, k0))
            <==> KingLandingFrom(m, x, y, di, dj, k0, s, mv)
    decreases 8 - s
  {
    var i2, j2 := Along(x, di, s), Along(y, dj, s);
    if !InBounds(i2, j2) || m[i2][j2] != EMPTY {
      LandingStopsAt(m, x, y, di, dj, k0, s, mv);
    } else {
      LandingPassesEmpty(m, x, y, di, dj, k0, s, mv);
      RayLandingsIff(m, x, y, di, dj, k0, s + 1, mv);
    }
  }

  /** After the captured piece, the landings end at the first cell that is
      off the board or occupied. */
  lemma LandingStopsAt(m: Mtx, x: int, y: int, di: int, dj: int, k0: int, s: int, mv: Move)
    requires WellFormed(m) && InBounds(x, y) && Dir(di) && Dir(dj)
    requires 1 <= k0 < s
    requires InBounds(Along(x, di, s - 1), Along(y, dj, s - 1))
    requires InBounds(Along(x, di, k0), Along(y, dj, k0))
    requires var i2, j2 := Along(x, di, s), Along(y, dj, s); !InBounds(i2, j2) || m[i2][j2] != EMPTY
    ensures RayCaptures(m, x, y, di, dj, Along(x, di, s), Along(y, dj, s), Along(x, di, k0), Along(y, dj, k0)) == []
    ensures !KingLandingFrom(m, x, y, di, dj, k0, s, mv)
  {
    var i2, j2 := Along(x, di, s), Along(y, dj, s);
    var bx := Along(x, di, k0);
    assert InBounds(i2, j2) ==> bx != i2;
    var l := Dist(x, di, mv.x2);
    if s <= l {
      assert !EmptyRun(m, x, y, di, dj, s, l + 1);
    }
  }

  /** After the captured piece, an empty cell is a landing and the
      landings go on past it. */
  lemma LandingPassesEmpty(m: Mtx, x: int, y: int, di: int, dj: int, k0: int, s: int, mv: Move)
    requires WellFormed(m) && InBounds(x, y) && Dir(di) && Dir(dj)
    requires 1 <= k0 < s
    requires InBounds(Along(x, di, k0), Along(y, dj, k0))
    requires var i2, j2 := Along(x, di, s), Along(y, dj, s); InBounds(i2, j2) && m[i2][j2] == EMPTY
    ensures var i2, j2 := Along(x, di, s), Along(y, dj, s);
      var bx, bj := Along(x, di, k0), Along(y, dj, k0);
      RayCaptures(m, x, y, di, dj, i2, j2, bx, bj)
        == [Move(x, y, i2, j2, bx, bj)] + RayCaptures(m, x, y, di, dj, Along(x, di, s + 1), Along(y, dj, s + 1), bx, bj)
    ensures KingLandingFrom(m, x, y, di, dj, k0, s, mv) <==>
      mv == Move(x, y, Along(x, di, s), Along(y, dj, s), Along(x, di, k0), Along(y, dj, k0))
      || KingLandingFrom(m, x, y, di, dj, k0, s + 1, mv)
  {
    var i2, j2 := Along(x, di, s), Along(y, dj, s);
    assert i2 + di == Along(x, di, s + 1) && j2 + dj == Along(y, dj, s + 1);
    assert Along(x, di, k0) != i2;
    var l := Dist(x, di, mv.x2);
    if mv == Move(x, y, i2, j2, Along(x, di, k0), Along(y, dj, k0)) {
      assert l == s;
      assert EmptyRun(m, x, y, di, dj, s + 1, s + 1);
    }
    if KingLandingFrom(m, x, y, di, dj, k0, s, mv) && l > s {
      assert EmptyRun(m, x, y, di, dj, s + 1, l + 1);
    }
  }

  /** A capture cannot be found from step s when the cell there is off
      the board or holds a piece of the king's own parity. */
  lemma CaptureStopsAt(m: Mtx, x: int, y: int, di: int, dj: int, s: int, mv: Move)
    requires WellFormed(m) && InBounds(x, y)
    requires var i2, j2 := Along(x, di, s), Along(y, dj, s);
      !InBounds(i2, j2) || (m[i2][j2] != EMPTY && m[i2][j2] % 2 == m[x][y] % 2)
    ensures !KingCaptureFrom(m, x, y, di, dj, s, mv)
  {
    var k := Dist(x, di, mv.xb);
    if s < k {
      assert !EmptyRun(m, x, y, di, dj, s, k);
    }
  }

  /** An empty cell at step s is passed over by the capture scan. */
  lemma CaptureSkipsEmpty(m: Mtx, x: int, y: int, di: int, dj: int, s: int, mv: Move)
    requires WellFormed(m) && InBounds(x, y)
    requires InBounds(Along(x, di, s), Along(y, dj, s)) && m[Along(x, di, s)][Along(y, dj, s)] == EMPTY
    ensures KingCaptureFrom(m, x, y, di, dj, s, mv) <==> KingCaptureFrom(m, x, y, di, dj, s + 1, mv)
  {
    var k := Dist(x, di, mv.xb);
    if KingCaptureFrom(m, x, y, di, dj, s, mv) {
      assert k != s;
      assert EmptyRun(m, x, y, di, dj, s + 1, k);
    }
  }

  /** An enemy piece at step s is the captured one: the captures found
      from s are the landings after it. */
  lemma CaptureMeetsEnemy(m: Mtx, x: int, y: int, di: int, dj: int, s: int, mv: Move)
    requires WellFormed(m) && InBounds(x, y) && 1 <= s
    requires InBounds(Along(x, di, s), Along(y, dj, s)) && Enemy(m, x, y, Along(x, di, s), Along(y, dj, s))
    ensures KingCaptureFrom(m, x, y, di, dj, s, mv) <==> KingLandingFrom(m, x, y, di, dj, s, s + 1, mv)
  {
    var k := Dist(x, di, mv.xb);
    assert s < k ==> !EmptyRun(m, x, y, di, dj, s, k);
    if KingCaptureFrom(m, x, y, di, dj, s, mv) {
      assert k == s;
    }
    if KingLandingFrom(m, x, y, di, dj, s, s + 1, mv) {
      assert EmptyRun(m, x, y, di, dj, s, s);
    }
  }

  /** Before any enemy piece is met, the ray scan from step s yields
      exactly the captures described by KingCaptureFrom. */
  lemma {:induction false} RayCapturesIffFrom(m: Mtx, x: int, y: int, di: int, dj: int, s: int, mv: Move)
    requires WellFormed(m) && InBounds(x, y) && Dir(di) && Dir(dj)
    requires 1 <= s && InBounds(Along(x, di, s - 1), Along(y, dj, s - 1))
    ensures mv in RayCaptures(m, x, y, di, dj, Along(x, di, s), Along(y, dj, s), -1, -1)
            <==> KingCaptureFrom(m, x, y, di, dj, s, mv)
    decreases 8 - s
  {
    var i2, j2 := Along(x, di, s), Along(y, dj, s);
    if !InBounds(i2, j2) || (m[i2][j2] != EMPTY && m[i2][j2] % 2 == m[x][y] % 2) {
      CaptureRayEnds(m, x, y, di, dj, s, mv);
    } else if m[i2][j2] == EMPTY {
      RayCapturesIffFrom(m, x, y, di, dj, s + 1, mv);
      CaptureEmptyStep(m, x, y, di, dj, s, mv);
    } else {
      RayLandingsIff(m, x, y, di, dj, s, s + 1, mv);
      CaptureEnemyStep(m, x, y, di, dj, s, mv);
    }
  }

  /** The capture scan, before any enemy, ends at a cell off the board or
      holding a piece of the king's own parity, with no capture from there. */
  lemma CaptureRayEnds(m: Mtx, x: int, y: int, di: int, dj: int, s: int, mv: Move)
    requires WellFormed(m) && InBounds(x, y) && Dir(di) && Dir(dj)
    requires 1 <= s && InBounds(Along(x, di, s - 1), Along(y, dj, s - 1))
    requires var i2, j2 := Along(x, di, s), Along(y, dj, s);
      !InBounds(i2, j2) || (m[i2][j2] != EMPTY && m[i2][j2] % 2 == m[x][y] % 2)
    ensures RayCaptures(m, x, y, di, dj, Along(x, di, s), Along(y, dj, s), -1, -1) == []
    ensures !KingCaptureFrom(m, x, y, di, dj, s, mv)
  {
    CaptureStopsAt(m, x, y, di, dj, s, mv);
  }

  /** Before any enemy, an empty cell at step s changes neither the scan's
      result nor the captures described from there, so the scan agrees
      with KingCaptureFrom at s when it does at s + 1. */
  lemma CaptureEmptyStep(m: Mtx, x: int, y: int, di: int, dj: int, s: int, mv: Move)
    requires WellFormed(m) && InBounds(x, y) && Dir(di) && Dir(dj)
    requires InBounds(Along(x, di, s), Along(y, dj, s)) && m[Along(x, di, s)][Along(y, dj, s)] == EMPTY
    requires mv in RayCaptures(m, x, y, di, dj, Along(x, di, s + 1), Along(y, dj, s + 1), -1, -1)
             <==> KingCaptureFrom(m, x, y, di, dj, s + 1, mv)
    ensures mv in RayCaptures(m, x, y, di, dj, Along(x, di, s), Along(y, dj, s), -1, -1)
            <==> KingCaptureFrom(m, x, y, di, dj, s, mv)
  {
    CaptureScanPasses(m, x, y, di, dj, s);
    CaptureSkipsEmpty(m, x, y, di, dj, s, mv);
  }

  /** Before any enemy, an enemy piece at step s is remembered by the scan
      and becomes the captured piece of every capture described from s, so
      the scan agrees with KingCaptureFrom at s when the landings after it
      agree with KingLandingFrom. */
  lemma CaptureEnemyStep(m: Mtx, x: int, y: int, di: int, dj: int, s: int, mv: Move)
    requires WellFormed(m) && InBounds(x, y) && Dir(di) && Dir(dj) && 1 <= s
    requires var i2, j2 := Along(x, di, s), Along(y, dj, s);
      InBounds(i2, j2) && m[i2][j2] != EMPTY && m[i2][j2] % 2 != m[x][y] % 2
    requires mv in RayCaptures(m, x, y, di, dj, Along(x, di, s + 1), Along(y, dj, s + 1), Along(x, di, s), Along(y, dj, s))
             <==> KingLandingFrom(m, x, y, di, dj, s, s + 1, mv)
    ensures mv in RayCaptures(m, x, y, di, dj, Along(x, di, s), Along(y, dj, s), -1, -1)
            <==> KingCaptureFrom(m, x, y, di, dj, s, mv)
  {
    CaptureScanPasses(m, x, y, di, dj, s);
    CaptureMeetsEnemy(m, x, y, di, dj, s, mv);
  }

  /** Before any capture, the capture ray scan passes over an empty cell
      and remembers the first enemy piece it meets. */
  lemma CaptureScanPasses(m: Mtx, x: int, y: int, di: int, dj: int, s: int)
    requires WellFormed(m) && InBounds(x, y) && Dir(di) && Dir(dj)
    requires var i2, j2 := Along(x, di, s), Along(y, dj, s);
      InBounds(i2, j2) && (m[i2][j2] == EMPTY || m[i2][j2] % 2 != m[x][y] % 2)
    ensures var i2, j2 := Along(x, di, s), Along(y, dj, s);
      var ray := RayCaptures(m, x, y, di, dj, i2, j2, -1, -1);
      && (m[i2][j2] == EMPTY ==> ray == RayCaptures(m, x, y, di, dj, Along(x, di, s + 1), Along(y, dj, s + 1), -1, -1))
      && (m[i2][j2] != EMPTY ==> ray == RayCaptures(m, x, y, di, dj, Along(x, di, s + 1), Along(y, dj, s + 1), i2, j2))
  {
    assert Along(x, di, s) + di == Along(x, di, s + 1) && Along(y, dj, s) + dj == Along(y, dj, s + 1);
  }

  /** The capture ray of a king holds exactly the captures of
      KingCaptureShape in that direction. */
  lemma RayCapturesIff(m: Mtx, x: int, y: int, di: int, dj: int, mv: Move)
    requires WellFormed(m) && InBounds(x, y) && Dir(di) && Dir(dj)
    ensures mv in RayCapturesFrom(m, x, y, di, dj) <==> KingCaptureShape(m, x, y, di, dj, mv)
  {
    assert Along(x, di, 0) == x && Along(y, dj, 0) == y;
    RayCapturesIffFrom(m, x, y, di, dj, 1, mv);
  }

  /** A quiet move cannot be found from step s when the cell there is off
      the board or occupied. */
  lemma StepStopsAt(m: Mtx, x: int, y: int, di: int, dj: int, s: int, mv: Move)
    requires WellFormed(m)
    requires var i2, j2 := Along(x, di, s), Along(y, dj, s);
      !InBounds(i2, j2) || m[i2][j2] != EMPTY
    ensures !KingStepFrom(m, x, y, di, dj, s, mv)
  {
    var l := Dist(x, di, mv.x2);
    if s <= l {
      assert !EmptyRun(m, x, y, di, dj, s, l + 1);
    }
  }

  /** An empty cell at step s is a quiet landing, and the scan goes on. */
  lemma StepPassesEmpty(m: Mtx, x: int, y: int, di: int, dj: int, s: int, mv: Move)
    requires WellFormed(m)
    requires InBounds(Along(x, di, s), Along(y, dj, s)) && m[Along(x, di, s)][Along(y, dj, s)] == EMPTY
    ensures KingStepFrom(m, x, y, di, dj, s, mv) <==>
      mv == QuietMove(x, y, Along(x, di, s), Along(y, dj, s)) || KingStepFrom(m, x, y, di, dj, s + 1, mv)
  {
    var l := Dist(x, di, mv.x2);
    if mv == QuietMove(x, y, Along(x, di, s), Along(y, dj, s)) {
      assert l == s;
      assert EmptyRun(m, x, y, di, dj, s + 1, s + 1);
    }
    if KingStepFrom(m, x, y, di, dj, s, mv) && l > s {
      assert EmptyRun(m, x, y, di, dj, s + 1, l + 1);
    }
  }

  /** The quiet ray scan over an empty cell at step s records it and goes on. */
  lemma StepScanPasses(m: Mtx, x: int, y: int, di: int, dj: int, s: int)
    requires WellFormed(m) && Dir(di) && Dir(dj)
    requires InBounds(Along(x, di, s), Along(y, dj, s)) && m[Along(x, di, s)][Along(y, dj, s)] == EMPTY
    ensures RaySteps(m, x, y, di, dj, Along(x, di, s), Along(y, dj, s))
      == [QuietMove(x, y, Along(x, di, s), Along(y, dj, s))] + RaySteps(m, x, y, di, dj, Along(x, di, s + 1), Along(y, dj, s + 1))
  {
    assert Along(x, di, s) + di == Along(x, di, s + 1) && Along(y, dj, s) + dj == Along(y, dj, s + 1);
  }

  /** From step s on, the quiet ray scan yields exactly the moves described
      by KingStepFrom. */
  lemma {:induction false} RayStepsIffFrom(m: Mtx, x: int, y: int, di: int, dj: int, s: int, mv: Move)
    requires WellFormed(m) && InBounds(x, y) && Dir(di) && Dir(dj)
    requires 1 <= s && InBounds(Along(x, di, s - 1), Along(y, dj, s - 1))
    ensures mv in RaySteps(m, x, y, di, dj, Along(x, di, s), Along(y, dj, s)) <==> KingStepFrom(m, x, y, di, dj, s, mv)
    decreases 8 - s
  {
    var i2, j2 := Along(x, di, s), Along(y, dj, s);
    if !InBounds(i2, j2) || m[i2][j2] != EMPTY {
      assert RaySteps(m, x, y, di, dj, i2, j2) == [];
      StepStopsAt(m, x, y, di, dj, s, mv);
    } else {
      StepScanPasses(m, x, y, di, dj, s);
      StepPassesEmpty(m, x, y, di, dj, s, mv);
      RayStepsIffFrom(m, x, y, di, dj, s + 1, mv);
    }
  }

  /** The quiet ray of a king holds exactly the moves of KingStepShape in
      that direction. */
  lemma RayStepsIff(m: Mtx, x: int, y: int, di: int, dj: int, mv: Move)
    requires WellFormed(m) && InBounds(x, y) && Dir(di) && Dir(dj)
    ensures mv in RayStepsFrom(m, x, y, di, dj) <==> KingStepShape(m, x, y, di, dj, mv)
  {
    assert Along(x, di, 0) == x && Along(y, dj, 0) == y;
    RayStepsIffFrom(m, x, y, di, dj, 1, mv);
  }

  /** A king's capture list holds exactly its captures in the four
      directions. */
  lemma KingCapturesIff(m: Mtx, x: int, y: int, mv: Move)
    requires WellFormed(m) && InBounds(x, y)
    ensures mv in KingCaptures(m, x, y) <==>
      KingCaptureShape(m, x, y, -1, -1, mv) || KingCaptureShape(m, x, y, -1, 1, mv) ||
      KingCaptureShape(m, x, y, 1, -1, mv) || KingCaptureShape(m, x, y, 1, 1, mv)
  {
    RayCapturesIff(m, x, y, -1, -1, mv);
    RayCapturesIff(m, x, y, -1, 1, mv);
    RayCapturesIff(m, x, y, 1, -1, mv);
    RayCapturesIff(m, x, y, 1, 1, mv);
  }

  /** A king's quiet list holds exactly its quiet moves in the four
      directions. */
  lemma KingQuietIff(m: Mtx, x: int, y: int, mv: Move)
    requires WellFormed(m) && InBounds(x, y)
    ensures mv in KingQuiet(m, x, y) <==>
      KingStepShape(m, x, y, -1, -1, mv) || KingStepShape(m, x, y, -1, 1, mv) ||
      KingStepShape(m, x, y, 1, -1, mv) || KingStepShape(m, x, y, 1, 1, mv)
  {
    RayStepsIff(m, x, y, -1, -1, mv);
    RayStepsIff(m, x, y, -1, 1, mv);
    RayStepsIff(m, x, y, 1, -1, mv);
    RayStepsIff(m, x, y, 1, 1, mv);
  }

  // ---------------------------------------------------------------------
  // The moves of one piece

  /** Codes 1 and 2 move as men; every other code, the empty code
      included, takes the king's branch. */
  predicate IsMan(v: int)
  {
    v == WHITE_MAN || v == BLACK_MAN
  }

  /** The captures of the piece on (x, y). */
  function PieceCaptures(m: Mtx, x: int, y: int): seq<Move>
    requires WellFormed(m) && InBounds(x, y)
  {
    if IsMan(m[x][y]) then ManCaptures(m, x, y) else KingCaptures(m, x, y)
  }

  /** The quiet moves of the piece on (x, y). */
  function PieceQuiet(m: Mtx, x: int, y: int): seq<Move>
    requires WellFormed(m) && InBounds(x, y)
  {
    if IsMan(m[x][y]) then ManQuiet(m, x, y) else KingQuiet(m, x, y)
  }

  /** The moves of the piece on (x, y): its captures if it has any, its
      quiet moves otherwise. */
  function PieceTurns(m: Mtx, x: int, y: int): (r: seq<Move>)
    requires WellFormed(m) && InBounds(x, y)
    ensures forall mv :: mv in r ==>
      mv.x == x && mv.y == y && (mv.IsCapture() <==> |PieceCaptures(m, x, y)| > 0)
  {
    PieceMovesShape(m, x, y);
    if |PieceCaptures(m, x, y)| > 0 then PieceCaptures(m, x, y) else PieceQuiet(m, x, y)
  }

  /** A move of a piece starts on the piece's cell and lands on the
      board; a capture names a square of the board (so xb != -1) and a
      quiet move names none. */
  lemma PieceMovesShape(m: Mtx, x: int, y: int)
    requires WellFormed(m) && InBounds(x, y)
    ensures forall mv :: mv in PieceCaptures(m, x, y) ==>
      mv.x == x && mv.y == y && InBounds(mv.x2, mv.y2) && InBounds(mv.xb, mv.yb) && mv.IsCapture()
    ensures forall mv :: mv in PieceQuiet(m, x, y) ==>
      mv.x == x && mv.y == y && InBounds(mv.x2, mv.y2) && !mv.IsCapture()
  {
    forall mv | mv in PieceCaptures(m, x, y)
      ensures mv.x == x && mv.y == y && InBounds(mv.x2, mv.y2) && InBounds(mv.xb, mv.yb) && mv.IsCapture()
    {
      if IsMan(m[x][y]) {
        ManCapturesIff(m, x, y, mv);
      } else {
        KingCapturesIff(m, x, y, mv);
        if KingCaptureShape(m, x, y, -1, -1, mv) {
          KingCaptureLandsOnBoard(m, x, y, -1, -1, mv);
        } else if KingCaptureShape(m, x, y, -1, 1, mv) {
          KingCaptureLandsOnBoard(m, x, y, -1, 1, mv);
        } else if KingCaptureShape(m, x, y, 1, -1, mv) {
          KingCaptureLandsOnBoard(m, x, y, 1, -1, mv);
        } else {
          KingCaptureLandsOnBoard(m, x, y, 1, 1, mv);
        }
      }
    }
    forall mv | mv in PieceQuiet(m, x, y)
      ensures mv.x == x && mv.y == y && InBounds(mv.x2, mv.y2) && !mv.IsCapture()
    {
      if IsMan(m[x][y]) {
        ManQuietIff(m, x, y, mv);
      } else {
        KingQuietIff(m, x, y, mv);
        if KingStepShape(m, x, y, -1, -1, mv) {
          KingStepLandsOnBoard(m, x, y, -1, -1, mv);
        } else if KingStepShape(m, x, y, -1, 1, mv) {
          KingStepLandsOnBoard(m, x, y, -1, 1, mv);
        } else if KingStepShape(m, x, y, 1, -1, mv) {
          KingStepLandsOnBoard(m, x, y, 1, -1, mv);
        } else {
          KingStepLandsOnBoard(m, x, y, 1, 1, mv);
        }
      }
    }
  }

  /** The landing square of a run of empty cells is on the board. */
  lemma {:induction false} EmptyRunLast(m: Mtx, x: int, y: int, di: int, dj: int, a: int, b: int)
    requires WellFormed(m) && a < b && EmptyRun(m, x, y, di, dj, a, b)
    ensures InBounds(Along(x, di, b - 1), Along(y, dj, b - 1))
    decreases b - a
  {
    if a + 1 < b {
      EmptyRunLast(m, x, y, di, dj, a + 1, b);
    }
  }

  /** A king's capture lands on the board. */
  lemma KingCaptureLandsOnBoard(m: Mtx, x: int, y: int, di: int, dj: int, mv: Move)
    requires WellFormed(m) && InBounds(x, y) && KingCaptureShape(m, x, y, di, dj, mv)
    ensures mv.x == x && mv.y == y && InBounds(mv.x2, mv.y2) && InBounds(mv.xb, mv.yb)
  {
    var l, k := Dist(x, di, mv.x2), Dist(x, di, mv.xb);
    assert KingCaptureFrom(m, x, y, di, dj, 1, mv);
    EmptyRunLast(m, x, y, di, dj, k + 1, l + 1);
  }

  /** A king's quiet move lands on the board. */
  lemma KingStepLandsOnBoard(m: Mtx, x: int, y: int, di: int, dj: int, mv: Move)
    requires WellFormed(m) && KingStepShape(m, x, y, di, dj, mv)
    ensures mv.x == x && mv.y == y && InBounds(mv.x2, mv.y2)
  {
    var l := Dist(x, di, mv.x2);
    assert KingStepFrom(m, x, y, di, dj, 1, mv);
    EmptyRunLast(m, x, y, di, dj, 1, l + 1);
  }

  /** One piece's moves never mix kinds: when it has a capture it reports
      only captures, otherwise only quiet moves. */
  lemma PieceTurnsNeverMix(m: Mtx, x: int, y: int)
    requires WellFormed(m) && InBounds(x, y)
    ensures |PieceCaptures(m, x, y)| > 0 ==> forall mv :: mv in PieceTurns(m, x, y) ==> mv.IsCapture()
    ensures |PieceCaptures(m, x, y)| == 0 ==> forall mv :: mv in PieceTurns(m, x, y) ==> !mv.IsCapture()
  {
    PieceMovesShape(m, x, y);
  }

  // ---------------------------------------------------------------------
  // The moves of one side

  /** The row of the cell at position c of the row-major scan. */
  function CellRow(c: int): (r: int)
    requires 0 <= c
    ensures 8 * r <= c < 8 * r + 8
  {
    if c < 8 then 0 else 1 + CellRow(c - 8)
  }

  /** The column of the cell at position c of the row-major scan. */
  function CellCol(c: int): int
    requires 0 <= c
  {
    c - 8 * CellRow(c)
  }

  /** Cell (i, j) sits at position c = 8 * i + j of the scan. */
  lemma {:induction false} CellAt(i: int, j: int, c: int)
    requires 0 <= i && 0 <= j < 8 && c == 8 * i + j
    ensures CellRow(c) == i && CellCol(c) == j
  {
    if i > 0 {
      CellAt(i - 1, j, c - 8);
    }
  }

  /** The captures of the pieces of `color` among the first c cells of the
      row-major scan, concatenated in scan order. */
  function OwnCaptures(m: Mtx, color: bool, c: int): (r: seq<Move>)
    requires WellFormed(m) && 0 <= c <= 64
    ensures forall mv :: mv in r ==> mv.IsCapture()
    decreases c
  {
    if c == 0 then []
    else
      var i, j := CellRow(c - 1), CellCol(c - 1);
      PieceMovesShape(m, i, j);
      OwnCaptures(m, color, c - 1) + (if Owns(m[i][j], color) then PieceCaptures(m, i, j) else [])
  }

  /** The quiet moves of the pieces of `color` among the first c cells of
      the row-major scan, concatenated in scan order. */
  function OwnQuiet(m: Mtx, color: bool, c: int): (r: seq<Move>)
    requires WellFormed(m) && 0 <= c <= 64
    ensures forall mv :: mv in r ==> !mv.IsCapture()
    decreases c
  {
    if c == 0 then []
    else
      var i, j := CellRow(c - 1), CellCol(c - 1);
      PieceMovesShape(m, i, j);
      OwnQuiet(m, color, c - 1) + (if Owns(m[i][j], color) then PieceQuiet(m, i, j) else [])
  }

  /** Whether a capture has been met among the first c cells of the scan. */
  predicate ScanFound(m: Mtx, color: bool, c: int)
    requires WellFormed(m) && 0 <= c <= 64
  {
    |OwnCaptures(m, color, c)| > 0
  }

  /** The list collected over the first c cells of the scan: the captures
      once one has been met, the quiet moves until then. */
  function ScanResult(m: Mtx, color: bool, c: int): seq<Move>
    requires WellFormed(m) && 0 <= c <= 64
  {
    if ScanFound(m, color, c) then OwnCaptures(m, color, c) else OwnQuiet(m, color, c)
  }

  /** One more cell of the scan, at position c = 8 * i + j. A cell the side
      does not own changes nothing. The first piece with a capture replaces
      the quiet moves collected so far by its captures; later pieces add
      their captures; before any capture, pieces add their quiet moves;
      after one, quiet moves are dropped. */
  lemma ScanStep(m: Mtx, color: bool, i: int, j: int, c: int)
    requires WellFormed(m) && InBounds(i, j) && c == 8 * i + j
    ensures var pc := PieceCaptures(m, i, j);
      && (!Owns(m[i][j], color) ==>
            ScanFound(m, color, c + 1) == ScanFound(m, color, c) && ScanResult(m, color, c + 1) == ScanResult(m, color, c))
      && (Owns(m[i][j], color) ==> ScanFound(m, color, c + 1) == (ScanFound(m, color, c) || |pc| > 0))
      && (Owns(m[i][j], color) && |pc| > 0 && !ScanFound(m, color, c) ==> ScanResult(m, color, c + 1) == pc)
      && (Owns(m[i][j], color) && |pc| > 0 && ScanFound(m, color, c) ==>
            ScanResult(m, color, c + 1) == ScanResult(m, color, c) + pc)
      && (Owns(m[i][j], color) && |pc| == 0 && ScanFound(m, color, c) ==>
            ScanResult(m, color, c + 1) == ScanResult(m, color, c))
      && (Owns(m[i][j], color) && |pc| == 0 && !ScanFound(m, color, c) ==>
            ScanResult(m, color, c + 1) == ScanResult(m, color, c) + PieceQuiet(m, i, j))
  {
    CellAt(i, j, c);
    ScanUnfold(m, color, c);
    var caps := OwnCaptures(m, color, c);
    if Owns(m[i][j], color) && |PieceCaptures(m, i, j)| > 0 && !ScanFound(m, color, c) {
      assert caps == [];
    }
  }

  /** The capture and quiet lists grow by the moves of the piece on cell c
      of the scan, if the side owns it. */
  lemma ScanUnfold(m: Mtx, color: bool, c: int)
    requires WellFormed(m) && 0 <= c < 64
    ensures var i, j := CellRow(c), CellCol(c);
      && OwnCaptures(m, color, c + 1) == OwnCaptures(m, color, c) + (if Owns(m[i][j], color) then PieceCaptures(m, i, j) else [])
      && OwnQuiet(m, color, c + 1) == OwnQuiet(m, color, c) + (if Owns(m[i][j], color) then PieceQuiet(m, i, j) else [])
  {
  }

  function ColorCaptures(m: Mtx, color: bool): seq<Move>
    requires WellFormed(m)
  {
    OwnCaptures(m, color, |m| * |m|)
  }

  function ColorQuiet(m: Mtx, color: bool): seq<Move>
    requires WellFormed(m)
  {
    OwnQuiet(m, color, |m| * |m|)
  }

  /** The legal moves of a side before shuffling: every capture of its
      pieces if there is one anywhere, every quiet move otherwise. */
  function ColorTurns(m: Mtx, color: bool): (r: seq<Move>)
    requires WellFormed(m)
    ensures forall mv :: mv in r ==> (mv.IsCapture() <==> |ColorCaptures(m, color)| > 0)
  {
    if |ColorCaptures(m, color)| > 0 then ColorCaptures(m, color) else ColorQuiet(m, color)
  }

  /** The side's capture list after c cells holds exactly the captures of
      its pieces scanned so far. */
  lemma {:induction false} OwnCapturesIff(m: Mtx, color: bool, c: int, mv: Move)
    requires WellFormed(m) && 0 <= c <= 64
    ensures mv in OwnCaptures(m, color, c) <==>
      InBounds(mv.x, mv.y) && 8 * mv.x + mv.y < c && Owns(m[mv.x][mv.y], color)
      && mv in PieceCaptures(m, mv.x, mv.y)
    decreases c
  {
    if c > 0 {
      OwnCapturesIff(m, color, c - 1, mv);
      var i, j := CellRow(c - 1), CellCol(c - 1);
      PieceMovesShape(m, i, j);
      if InBounds(mv.x, mv.y) && 8 * mv.x + mv.y == c - 1 {
        CellAt(mv.x, mv.y, c - 1);
      }
    }
  }

  /** The side's quiet list after c cells holds exactly the quiet moves of
      its pieces scanned so far. */
  lemma {:induction false} OwnQuietIff(m: Mtx, color: bool, c: int, mv: Move)
    requires WellFormed(m) && 0 <= c <= 64
    ensures mv in OwnQuiet(m, color, c) <==>
      InBounds(mv.x, mv.y) && 8 * mv.x + mv.y < c && Owns(m[mv.x][mv.y], color)
      && mv in PieceQuiet(m, mv.x, mv.y)
    decreases c
  {
    if c > 0 {
      OwnQuietIff(m, color, c - 1, mv);
      var i, j := CellRow(c - 1), CellCol(c - 1);
      PieceMovesShape(m, i, j);
      if InBounds(mv.x, mv.y) && 8 * mv.x + mv.y == c - 1 {
        CellAt(mv.x, mv.y, c - 1);
      }
    }
  }

  /** The first move of a piece's capture list starts on that piece. */
  lemma FirstCapture(m: Mtx, i: int, j: int) returns (mv: Move)
    requires WellFormed(m) && InBounds(i, j) && |PieceCaptures(m, i, j)| > 0
    ensures mv in PieceCaptures(m, i, j) && mv.x == i && mv.y == j
  {
    mv := PieceCaptures(m, i, j)[0];
    PieceMovesShape(m, i, j);
  }

  /** The first move of a piece's quiet list starts on that piece. */
  lemma FirstQuiet(m: Mtx, i: int, j: int) returns (mv: Move)
    requires WellFormed(m) && InBounds(i, j) && |PieceQuiet(m, i, j)| > 0
    ensures mv in PieceQuiet(m, i, j) && mv.x == i && mv.y == j
  {
    mv := PieceQuiet(m, i, j)[0];
    PieceMovesShape(m, i, j);
  }

  /** Mandatory capture, side-wide: the side has a capture exactly when
      one of its pieces has one. */
  lemma ColorCapturesExist(m: Mtx, color: bool)
    requires WellFormed(m)
    ensures |ColorCaptures(m, color)| > 0 <==>
      exists i, j :: InBounds(i, j) && Owns(m[i][j], color) && |PieceCaptures(m, i, j)| > 0
  {
    if exists i, j :: InBounds(i, j) && Owns(m[i][j], color) && |PieceCaptures(m, i, j)| > 0 {
      var i, j :| InBounds(i, j) && Owns(m[i][j], color) && |PieceCaptures(m, i, j)| > 0;
      var first := FirstCapture(m, i, j);
      assert |m| * |m| == 64;
      OwnCapturesIff(m, color, |m| * |m|, first);
    }
    if |ColorCaptures(m, color)| > 0 {
      var first := ColorCaptures(m, color)[0];
      OwnCapturesIff(m, color, |m| * |m|, first);
    }
  }

  /** The side's moves: when it has a capture, exactly the captures of its
      pieces; otherwise exactly the quiet moves of its pieces. */
  lemma ColorTurnsIff(m: Mtx, color: bool, mv: Move)
    requires WellFormed(m)
    ensures |ColorCaptures(m, color)| > 0 ==>
      (mv in ColorTurns(m, color) <==>
        InBounds(mv.x, mv.y) && Owns(m[mv.x][mv.y], color) && mv in PieceCaptures(m, mv.x, mv.y))
    ensures |ColorCaptures(m, color)| == 0 ==>
      (mv in ColorTurns(m, color) <==>
        InBounds(mv.x, mv.y) && Owns(m[mv.x][mv.y], color) && mv in PieceQuiet(m, mv.x, mv.y))
  {
    assert |m| * |m| == 64;
    OwnCapturesIff(m, color, |m| * |m|, mv);
    OwnQuietIff(m, color, |m| * |m|, mv);
  }

  /** A side's moves never mix kinds, start on its own pieces, and the
      capture flag says which kind they are. */
  lemma ColorTurnsNeverMix(m: Mtx, color: bool)
    requires WellFormed(m)
    ensures forall mv :: mv in ColorTurns(m, color) ==>
      && InBounds(mv.x, mv.y) && Owns(m[mv.x][mv.y], color)
      && (mv.IsCapture() <==> |ColorCaptures(m, color)| > 0)
  {
    forall mv | mv in ColorTurns(m, color)
      ensures InBounds(mv.x, mv.y) && Owns(m[mv.x][mv.y], color)
      ensures mv.IsCapture() <==> |ColorCaptures(m, color)| > 0
    {
      ColorTurnsIff(m, color, mv);
      PieceMovesShape(m, mv.x, mv.y);
    }
  }

  /** A side has a legal move exactly when one of its pieces has a move of
      its own. */
  lemma ColorHasTurns(m: Mtx, color: bool)
    requires WellFormed(m)
    ensures |ColorTurns(m, color)| > 0 <==>
      exists i, j :: InBounds(i, j) && Owns(m[i][j], color) && |PieceTurns(m, i, j)| > 0
  {
    ColorCapturesExist(m, color);
    if |ColorTurns(m, color)| > 0 {
      var mv := ColorTurns(m, color)[0];
      ColorTurnsIff(m, color, mv);
      assert InBounds(mv.x, mv.y) && Owns(m[mv.x][mv.y], color) && |PieceTurns(m, mv.x, mv.y)| > 0;
    }
    if exists i, j :: InBounds(i, j) && Owns(m[i][j], color) && |PieceTurns(m, i, j)| > 0 {
      var i, j :| InBounds(i, j) && Owns(m[i][j], color) && |PieceTurns(m, i, j)| > 0;
      if |ColorCaptures(m, color)| == 0 {
        assert |PieceCaptures(m, i, j)| == 0;
        var mv := FirstQuiet(m, i, j);
        ColorTurnsIff(m, color, mv);
      }
    }
  }

  // ---------------------------------------------------------------------
  // Position score

  /** How the bot weighs material: men and kings only, or men also by how
      far they have advanced. */
  datatype ScoringMode = NumberOnly | NumberAndPotential

  /** The score of a position the bot has won. */
  const INF := 1000000000

  /** A score as the fraction num / den. Both parts are kept in twentieths
      of a man, so the positional bonus of 0.05 per row is a whole number. */
  datatype Score = Score(num: int, den: int)

  /** The material of both sides in twentieths of a man. */
  datatype Tally = Tally(whitePawns: int, whiteQueens: int, blackPawns: int, blackQueens: int)

  /** The weight of a king relative to a man. */
  function QueenWeight(mode: ScoringMode): int
  {
    if mode == NumberAndPotential then 5 else 4
  }

  /** How many rows a man of code v on row i has advanced: white men move
      towards row 0, black men towards row 7. */
  function Advance(v: int, i: int): int
  {
    if v == WHITE_MAN then 7 - i else i
  }

  /** The positional bonus of the men of code v in the first k rows, in
      twentieths: one per row advanced. */
  function Potential(m: Mtx, v: int, k: int): int
    requires IsMatrix(m) && 0 <= k <= 8
  {
    if k == 0 then 0 else Potential(m, v, k - 1) + CountRow(m[k - 1], v, 8) * Advance(v, k - 1)
  }

  /** The sum of w over the first n cells of a row that hold code v. */
  function Weighted(row: seq<int>, v: int, w: int, n: int): int
    requires 0 <= n <= |row|
  {
    if n == 0 then 0 else Weighted(row, v, w, n - 1) + (if row[n - 1] == v then w else 0)
  }

  /** Summing w per matching cell is counting and multiplying by w. */
  lemma {:induction false} WeightedCount(row: seq<int>, v: int, w: int, n: int)
    requires 0 <= n <= |row|
    ensures Weighted(row, v, w, n) == CountRow(row, v, n) * w
  {
    if n > 0 {
      WeightedCount(row, v, w, n - 1);
      var b := if row[n - 1] == v then 1 else 0;
      assert (CountRow(row, v, n - 1) + b) * w == CountRow(row, v, n - 1) * w + b * w;
    }
  }

  /** The code of a man and of a king of `color`. */
  function ManOf(color: bool): int { if color then BLACK_MAN else WHITE_MAN }
  function KingOf(color: bool): int { if color then BLACK_KING else WHITE_KING }

  /** The number of pieces of `color` on the board. */
  function Material(m: Mtx, color: bool): nat
    requires IsMatrix(m)
  {
    Count(m, ManOf(color)) + Count(m, KingOf(color))
  }

  /** The material count of a position, as the nested loop over all cells
      accumulates it. */
  function TallyOf(m: Mtx, mode: ScoringMode): (t: Tally)
    requires IsMatrix(m)
    ensures t.whitePawns >= 0 && t.whiteQueens >= 0 && t.blackPawns >= 0 && t.blackQueens >= 0
    ensures t.whitePawns + t.whiteQueens == 0 <==> Material(m, false) == 0
    ensures t.blackPawns + t.blackQueens == 0 <==> Material(m, true) == 0
  {
    PotentialBounds(m, WHITE_MAN, 8);
    PotentialBounds(m, BLACK_MAN, 8);
    var bonus := mode == NumberAndPotential;
    Tally(20 * Count(m, WHITE_MAN) + (if bonus then Potential(m, WHITE_MAN, 8) else 0),
          20 * Count(m, WHITE_KING),
          20 * Count(m, BLACK_MAN) + (if bonus then Potential(m, BLACK_MAN, 8) else 0),
          20 * Count(m, BLACK_KING))
  }

  /** The score of a tally for the bot playing `firstBotColor`: the sides
      are swapped when the bot plays white, a side without material decides
      the score (the opponent's check first), and otherwise the score is the
      bot's weighted material over the opponent's. */
  function ScoreOf(t: Tally, firstBotColor: bool, mode: ScoringMode): (s: Score)
    ensures t.whitePawns >= 0 && t.whiteQueens >= 0 && t.blackPawns >= 0 && t.blackQueens >= 0 ==>
      s.num >= 0 && s.den > 0
  {
    var s := if firstBotColor then t else Tally(t.blackPawns, t.blackQueens, t.whitePawns, t.whiteQueens);
    if s.whitePawns + s.whiteQueens == 0 then Score(INF, 1)
    else if s.blackPawns + s.blackQueens == 0 then Score(0, 1)
    else
      var q := QueenWeight(mode);
      Score(s.blackPawns + s.blackQueens * q, s.whitePawns + s.whiteQueens * q)
  }

  /** The score of a position. */
  function CalcScore(m: Mtx, firstBotColor: bool, mode: ScoringMode): (s: Score)
    requires IsMatrix(m)
    ensures s.num >= 0 && s.den > 0
  {
    ScoreOf(TallyOf(m, mode), firstBotColor, mode)
  }

  /** The weighted material of `color`, in twentieths. */
  function Strength(m: Mtx, color: bool, mode: ScoringMode): int
    requires IsMatrix(m)
  {
    var bonus := mode == NumberAndPotential;
    20 * Count(m, ManOf(color)) + (if bonus then Potential(m, ManOf(color), 8) else 0)
    + 20 * Count(m, KingOf(color)) * QueenWeight(mode)
  }

  /** The positional bonus is never negative, and is zero when there are
      no men of code v in the rows counted. */
  lemma {:induction false} PotentialBounds(m: Mtx, v: int, k: int)
    requires IsMatrix(m) && 0 <= k <= 8 && (v == WHITE_MAN || v == BLACK_MAN)
    ensures 0 <= Potential(m, v, k)
    ensures CountRows(m, v, k) == 0 ==> Potential(m, v, k) == 0
  {
    if k > 0 {
      PotentialBounds(m, v, k - 1);
      var c, a := CountRow(m[k - 1], v, 8), Advance(v, k - 1);
      assert 0 <= a;
      assert 0 <= c * a;
    }
  }

  /** A side has positive strength exactly when it has a piece. */
  lemma StrengthPositive(m: Mtx, color: bool, mode: ScoringMode)
    requires IsMatrix(m)
    ensures Strength(m, color, mode) >= 0
    ensures Strength(m, color, mode) > 0 <==> Material(m, color) > 0
  {
    PotentialBounds(m, ManOf(color), 8);
  }

  /** The score from the bot's side: INF when the opponent has no piece
      left, else 0 when the bot has none, else the bot's strength over the
      opponent's, both positive. */
  lemma ScoreByMaterial(m: Mtx, firstBotColor: bool, mode: ScoringMode)
    requires IsMatrix(m)
    ensures Material(m, !firstBotColor) == 0 ==> CalcScore(m, firstBotColor, mode) == Score(INF, 1)
    ensures Material(m, !firstBotColor) > 0 && Material(m, firstBotColor) == 0 ==>
      CalcScore(m, firstBotColor, mode) == Score(0, 1)
    ensures Material(m, !firstBotColor) > 0 && Material(m, firstBotColor) > 0 ==>
      && CalcScore(m, firstBotColor, mode) == Score(Strength(m, firstBotColor, mode), Strength(m, !firstBotColor, mode))
      && CalcScore(m, firstBotColor, mode).num > 0 && CalcScore(m, firstBotColor, mode).den > 0
  {
    StrengthPositive(m, true, mode);
    StrengthPositive(m, false, mode);
    PotentialBounds(m, WHITE_MAN, 8);
    PotentialBounds(m, BLACK_MAN, 8);
    var t, q := TallyOf(m, mode), QueenWeight(mode);
    assert Strength(m, true, mode) == t.blackPawns + t.blackQueens * q;
    assert Strength(m, false, mode) == t.whitePawns + t.whiteQueens * q;
    assert t.blackPawns + t.blackQueens == 0 <==> Material(m, true) == 0;
    assert t.whitePawns + t.whiteQueens == 0 <==> Material(m, false) == 0;
  }

  /** Swapping the bot's colour turns a decisive score around: if exactly
      one side has pieces, one colour scores INF and the other 0. */
  lemma ScoreSwapsWithColor(m: Mtx, mode: ScoringMode)
    requires IsMatrix(m)
    requires (Material(m, true) == 0) != (Material(m, false) == 0)
    ensures {CalcScore(m, true, mode), CalcScore(m, false, mode)} == {Score(INF, 1), Score(0, 1)}
  {
    ScoreByMaterial(m, true, mode);
    ScoreByMaterial(m, false, mode);
  }
}
