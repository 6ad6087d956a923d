/** The rules engine object: it keeps the move list `turns` and the flag
    `haveBeats` that its move generators overwrite, the random engine that
    shuffles a side's moves, and the scoring mode. Every method is proved
    to compute what the functions of module Rules describe. */
module Logic {
  import opened Matrix
  import opened Moves
  import opened Rules
  import BoardState

  /** The modulus of the minimal-standard Lehmer generator. */
  const MODULUS := 2147483647

  /** The generator's state for a seed: the seed reduced modulo MODULUS,
      with 1 in place of 0, which would be a fixed point. */
  function SeedState(seed: int): (st: int)
    ensures 0 < st < MODULUS
  {
    if seed % MODULUS == 0 then 1 else seed % MODULUS
  }

  /** One step of the generator. */
  function NextRandom(st: int): int
  {
    st * 16807 % MODULUS
  }

  class Logic {
    /** The authoritative board whose position the public generators read. */
    const board: BoardState.Board
    const scoringMode: ScoringMode
    /** The moves found by the last generator call. */
    var turns: seq<Move>
    /** Whether those moves are captures. */
    var haveBeats: bool
    /** The state of the random engine. */
    var randState: int

    /** The engine is seeded with 0 when randomness is switched off and
        with the clock, truncated to 32 bits, otherwise. */
    constructor (board: BoardState.Board, scoringMode: ScoringMode, noRandom: bool, clock: int)
      ensures this.board == board && this.scoringMode == scoringMode
      ensures randState == SeedState(if noRandom then 0 else clock % 0x1_0000_0000)
      ensures turns == [] && !haveBeats
    {
      this.board := board;
      this.scoringMode := scoringMode;
      randState := SeedState(if noRandom then 0 else clock % 0x1_0000_0000);
      turns := [];
      haveBeats := false;
    }

    /** The moves of the side `color` on the current board. */
    method FindTurnsOfColor(color: bool)
      requires board.Valid()
      modifies this`turns, this`haveBeats, this`randState
      ensures multiset(turns) == multiset(ColorTurns(board.Cells(), color))
      ensures haveBeats == (|ColorCaptures(board.Cells(), color)| > 0)
    {
      var m := board.GetBoard();
      FindColorTurns(color, m);
    }

    /** The moves of the piece on (x, y) of the current board. */
    method FindTurnsOfCell(x: int, y: int)
      requires board.Valid() && InBounds(x, y)
      modifies this`turns, this`haveBeats
      ensures turns == PieceTurns(board.Cells(), x, y)
      ensures haveBeats == (|PieceCaptures(board.Cells(), x, y)| > 0)
    {
      var m := board.GetBoard();
      FindCellTurns(x, y, m);
    }

    /** The moves of the side `color` on m: the pieces are visited in
        row-major order; the first piece with a capture discards the quiet
        moves collected so far, and from then on only captures are kept.
        The list is shuffled before it is stored. */
    method FindColorTurns(color: bool, m: Mtx)
      requires WellFormed(m)
      modifies this`turns, this`haveBeats, this`randState
      ensures multiset(turns) == multiset(ColorTurns(m, color))
      ensures haveBeats == (|ColorCaptures(m, color)| > 0)
    {
      var resultTurns: seq<Move> := [];
      var foundBeats := false;
      ghost var c := 0;
      var i := 0;
      while i < 8
        invariant 0 <= i <= 8 && c == 8 * i
        invariant foundBeats == ScanFound(m, color, c)
        invariant resultTurns == ScanResult(m, color, c)
      {
        var j := 0;
        while j < 8
          invariant 0 <= j <= 8 && c == 8 * i + j
          invariant foundBeats == ScanFound(m, color, c)
          invariant resultTurns == ScanResult(m, color, c)
        {
          foundBeats, resultTurns := ScanCell(color, m, i, j, c, foundBeats, resultTurns);
          c := c + 1;
          j := j + 1;
        }
        i := i + 1;
      }
      assert c == |m| * |m|;
      assert resultTurns == ColorTurns(m, color);
      assert foundBeats == (|ColorCaptures(m, color)| > 0);
      turns := resultTurns;
      Shuffle();
      haveBeats := foundBeats;
    }

    /** One cell of the side scan: a piece of the side on (i, j) has its
        moves generated; its first capture discards the quiet moves
        collected so far, later quiet moves are dropped once a capture has
        been met, and everything else is appended. */
    method ScanCell(color: bool, m: Mtx, i: int, j: int, ghost c: int, foundBeats: bool, resultTurns: seq<Move>)
      returns (found: bool, result: seq<Move>)
      requires WellFormed(m) && InBounds(i, j) && c == 8 * i + j
      requires foundBeats == ScanFound(m, color, c)
      requires resultTurns == ScanResult(m, color, c)
      modifies this`turns, this`haveBeats
      ensures found == ScanFound(m, color, c + 1)
      ensures result == ScanResult(m, color, c + 1)
      ensures m[i][j] != EMPTY && m[i][j] % 2 != (if color then 1 else 0) ==>
        turns == PieceTurns(m, i, j) && haveBeats == (|PieceCaptures(m, i, j)| > 0)
      ensures !(m[i][j] != EMPTY && m[i][j] % 2 != (if color then 1 else 0)) ==>
        turns == old(turns) && haveBeats == old(haveBeats)
    {
      ScanStep(m, color, i, j, c);
      found, result := foundBeats, resultTurns;
      if m[i][j] != EMPTY && m[i][j] % 2 != (if color then 1 else 0) {
        FindCellTurns(i, j, m);
        if haveBeats && !found {
          found := true;
          result := [];
        }
        if (found && haveBeats) || !found {
          result := result + turns;
        }
      }
    }

    /** Reorders `turns` at random (Fisher-Yates driven by the engine):
        the moves are the same, only their order changes. */
    method Shuffle()
      modifies this`turns, this`randState
      ensures multiset(turns) == multiset(old(turns))
    {
      var i := |turns|;
      while i > 1
        invariant 0 <= i <= |turns|
        invariant multiset(turns) == multiset(old(turns))
      {
        randState := NextRandom(randState);
        var k := randState % i;
        turns := turns[i - 1 := turns[k]][k := turns[i - 1]];
        i := i - 1;
      }
    }

    /** The moves of the piece on (x, y) of m: its captures if it has any
        (and then `haveBeats`), its quiet moves otherwise. Codes 1 and 2
        move as men, every other code as a king. */
    method FindCellTurns(x: int, y: int, m: Mtx)
      requires WellFormed(m) && InBounds(x, y)
      modifies this`turns, this`haveBeats
      ensures turns == PieceTurns(m, x, y)
      ensures haveBeats == (|PieceCaptures(m, x, y)| > 0)
    {
      turns := [];
      haveBeats := false;
      var pieceType := m[x][y];
      if IsMan(pieceType) {
        AddManCaptures(x, y, m);
      } else {
        AddKingCaptures(x, y, m);
      }
      if |turns| > 0 {
        haveBeats := true;
        return;
      }
      if IsMan(pieceType) {
        AddManSteps(x, y, m);
      } else {
        AddKingSteps(x, y, m);
      }
    }

    /** Appends the captures of the man on (x, y). */
    method AddManCaptures(x: int, y: int, m: Mtx)
      requires WellFormed(m) && InBounds(x, y)
      modifies this`turns
      ensures turns == old(turns) + ManCaptures(m, x, y)
    {
      var pieceType := m[x][y];
      var i := x - 2;
      while i <= x + 2
        invariant i == x - 2 || i == x + 2 || i == x + 6
        invariant turns == old(turns) + (if i == x - 2 then [] else if i == x + 2 then ManJumpRow(m, x, y, x - 2) else ManCaptures(m, x, y))
      {
        ghost var rowStart := turns;
        var j := y - 2;
        while j <= y + 2
          invariant j == y - 2 || j == y + 2 || j == y + 6
          invariant turns == rowStart + (if j == y - 2 then [] else if j == y + 2 then ManJump(m, x, y, i, y - 2) else ManJumpRow(m, x, y, i))
        {
          ghost var before := turns;
          if !(i < 0 || i > 7 || j < 0 || j > 7) {
            var middleX, middleY := (x + i) / 2, (y + j) / 2;
            if !(m[i][j] != EMPTY || m[middleX][middleY] == EMPTY || m[middleX][middleY] % 2 == pieceType % 2) {
              turns := turns + [Move(x, y, i, j, middleX, middleY)];
            }
          }
          assert turns == before + ManJump(m, x, y, i, j);
          if j == y + 2 {
            AppendAssoc(rowStart, ManJump(m, x, y, i, y - 2), ManJump(m, x, y, i, y + 2));
          }
          j := j + 4;
        }
        if i == x + 2 {
          AppendAssoc(old(turns), ManJumpRow(m, x, y, x - 2), ManJumpRow(m, x, y, x + 2));
        }
        i := i + 4;
      }
    }

    /** Appends the captures of the king on (x, y), ray by ray. */
    method AddKingCaptures(x: int, y: int, m: Mtx)
      requires WellFormed(m) && InBounds(x, y)
      modifies this`turns
      ensures turns == old(turns) + KingCaptures(m, x, y)
    {
      var di := -1;
      while di <= 1
        invariant di == -1 || di == 1 || di == 3
        invariant turns == old(turns) + (if di == -1 then [] else if di == 1 then KingCapturesDir(m, x, y, -1) else KingCaptures(m, x, y))
      {
        ghost var dirStart := turns;
        var dj := -1;
        while dj <= 1
          invariant dj == -1 || dj == 1 || dj == 3
          invariant turns == dirStart + (if dj == -1 then [] else if dj == 1 then RayCapturesFrom(m, x, y, di, -1) else KingCapturesDir(m, x, y, di))
        {
          AddRayCaptures(x, y, di, dj, m);
          if dj == 1 {
            AppendAssoc(dirStart, RayCapturesFrom(m, x, y, di, -1), RayCapturesFrom(m, x, y, di, 1));
          }
          dj := dj + 2;
        }
        if di == 1 {
          AppendAssoc(old(turns), KingCapturesDir(m, x, y, -1), KingCapturesDir(m, x, y, 1));
        }
        di := di + 2;
      }
    }

    /** Appends the captures along one ray of the king on (x, y): the scan
        remembers the enemy piece it has jumped (lastBlockedX == -1: none
        yet) and stops at an own piece or at a second piece. */
    method AddRayCaptures(x: int, y: int, di: int, dj: int, m: Mtx)
      requires WellFormed(m) && InBounds(x, y) && Dir(di) && Dir(dj)
      modifies this`turns
      ensures turns == old(turns) + RayCapturesFrom(m, x, y, di, dj)
    {
      var pieceType := m[x][y];
      var lastBlockedX, lastBlockedY := -1, -1;
      var i2, j2 := x + di, y + dj;
      ghost var all := old(turns) + RayCapturesFrom(m, x, y, di, dj);
      while i2 != 8 && j2 != 8 && i2 != -1 && j2 != -1
        invariant -1 <= i2 <= 8 && -1 <= j2 <= 8
        invariant lastBlockedX == -1 || InBounds(lastBlockedX, lastBlockedY)
        invariant turns + RayCaptures(m, x, y, di, dj, i2, j2, lastBlockedX, lastBlockedY) == all
        decreases RayLeft(i2, di)
      {
        ghost var lastBlockedX0, lastBlockedY0 := lastBlockedX, lastBlockedY;
        if m[i2][j2] != EMPTY {
          if m[i2][j2] % 2 == pieceType % 2 || (lastBlockedX != -1 && lastBlockedX != i2) {
            RayCapturesBlocked(m, x, y, di, dj, i2, j2, lastBlockedX, lastBlockedY);
            break;
          }
          lastBlockedX, lastBlockedY := i2, j2;
        }
        RayCapturesUnfold(m, x, y, di, dj, i2, j2, lastBlockedX0, lastBlockedY0, lastBlockedX, lastBlockedY);
        ghost var rest := RayCaptures(m, x, y, di, dj, i2 + di, j2 + dj, lastBlockedX, lastBlockedY);
        if lastBlockedX != -1 && lastBlockedX != i2 {
          AppendAssoc(turns, [Move(x, y, i2, j2, lastBlockedX, lastBlockedY)], rest);
          turns := turns + [Move(x, y, i2, j2, lastBlockedX, lastBlockedY)];
        } else {
          assert [] + rest == rest;
        }
        assert turns + rest == all;
        i2, j2 := i2 + di, j2 + dj;
      }
    }

    /** Appends the quiet moves of the man on (x, y): one step forward,
        column y - 1 first. */
    method AddManSteps(x: int, y: int, m: Mtx)
      requires WellFormed(m) && InBounds(x, y)
      modifies this`turns
      ensures turns == old(turns) + ManQuiet(m, x, y)
    {
      var pieceType := m[x][y];
      var dx := if pieceType % 2 == 1 then x - 1 else x + 1;
      var dy := y - 1;
      while dy <= y + 1
        invariant dy == y - 1 || dy == y + 1 || dy == y + 3
        invariant turns == old(turns) + (if dy == y - 1 then [] else if dy == y + 1 then ManStep(m, x, y, dx, y - 1) else ManQuiet(m, x, y))
      {
        if !(dx < 0 || dx > 7 || dy < 0 || dy > 7 || m[dx][dy] != EMPTY) {
          turns := turns + [QuietMove(x, y, dx, dy)];
        }
        dy := dy + 2;
      }
    }

    /** Appends the quiet moves of the king on (x, y), ray by ray. */
    method AddKingSteps(x: int, y: int, m: Mtx)
      requires WellFormed(m) && InBounds(x, y)
      modifies this`turns
      ensures turns == old(turns) + KingQuiet(m, x, y)
    {
      var di := -1;
      while di <= 1
        invariant di == -1 || di == 1 || di == 3
        invariant turns == old(turns) + (if di == -1 then [] else if di == 1 then KingQuietDir(m, x, y, -1) else KingQuiet(m, x, y))
      {
        ghost var dirStart := turns;
        var dj := -1;
        while dj <= 1
          invariant dj == -1 || dj == 1 || dj == 3
          invariant turns == dirStart + (if dj == -1 then [] else if dj == 1 then RayStepsFrom(m, x, y, di, -1) else KingQuietDir(m, x, y, di))
        {
          AddRaySteps(x, y, di, dj, m);
          if dj == 1 {
            AppendAssoc(dirStart, RayStepsFrom(m, x, y, di, -1), RayStepsFrom(m, x, y, di, 1));
          }
          dj := dj + 2;
        }
        if di == 1 {
          AppendAssoc(old(turns), KingQuietDir(m, x, y, -1), KingQuietDir(m, x, y, 1));
        }
        di := di + 2;
      }
    }

    /** Appends the empty cells along one ray of the king on (x, y), up to
        the first occupied cell. */
    method AddRaySteps(x: int, y: int, di: int, dj: int, m: Mtx)
      requires WellFormed(m) && InBounds(x, y) && Dir(di) && Dir(dj)
      modifies this`turns
      ensures turns == old(turns) + RayStepsFrom(m, x, y, di, dj)
    {
      var i2, j2 := x + di, y + dj;
      ghost var all := old(turns) + RayStepsFrom(m, x, y, di, dj);
      while i2 != 8 && j2 != 8 && i2 != -1 && j2 != -1
        invariant -1 <= i2 <= 8 && -1 <= j2 <= 8
        invariant turns + RaySteps(m, x, y, di, dj, i2, j2) == all
        decreases RayLeft(i2, di)
      {
        RayStepsCell(m, x, y, di, dj, i2, j2);
        if m[i2][j2] != EMPTY {
          break;
        }
        ghost var rest := RaySteps(m, x, y, di, dj, i2 + di, j2 + dj);
        AppendAssoc(turns, [QuietMove(x, y, i2, j2)], rest);
        turns := turns + [QuietMove(x, y, i2, j2)];
        assert turns + rest == all;
        i2, j2 := i2 + di, j2 + dj;
      }
    }

    /** The material of m, counted cell by cell in twentieths of a man,
        with the positional bonus of the men in the engine's scoring mode. */
    method CountMaterial(m: Mtx) returns (whitePawns: int, whiteQueens: int, blackPawns: int, blackQueens: int)
      requires WellFormed(m)
      ensures Tally(whitePawns, whiteQueens, blackPawns, blackQueens) == TallyOf(m, scoringMode)
    {
      whitePawns, whiteQueens, blackPawns, blackQueens := 0, 0, 0, 0;
      var bonus := scoringMode == NumberAndPotential;
      var i := 0;
      while i < 8
        invariant 0 <= i <= 8
        invariant whitePawns == 20 * CountRows(m, WHITE_MAN, i) + (if bonus then Potential(m, WHITE_MAN, i) else 0)
        invariant whiteQueens == 20 * CountRows(m, WHITE_KING, i)
        invariant blackPawns == 20 * CountRows(m, BLACK_MAN, i) + (if bonus then Potential(m, BLACK_MAN, i) else 0)
        invariant blackQueens == 20 * CountRows(m, BLACK_KING, i)
      {
        var wp, wq, bp, bq := CountRowMaterial(m[i], i, bonus);
        WeightedCount(m[i], WHITE_MAN, 7 - i, 8);
        WeightedCount(m[i], BLACK_MAN, i, 8);
        whitePawns, whiteQueens := whitePawns + wp, whiteQueens + wq;
        blackPawns, blackQueens := blackPawns + bp, blackQueens + bq;
        i := i + 1;
      }
    }

    /** The material on row i (its cells 0..7), in twentieths of a man,
        with the positional bonus of its men when `bonus` holds. */
    method CountRowMaterial(row: seq<int>, i: int, bonus: bool) returns (wp: int, wq: int, bp: int, bq: int)
      requires |row| == 8
      ensures wp == 20 * CountRow(row, WHITE_MAN, 8) + (if bonus then Weighted(row, WHITE_MAN, 7 - i, 8) else 0)
      ensures wq == 20 * CountRow(row, WHITE_KING, 8)
      ensures bp == 20 * CountRow(row, BLACK_MAN, 8) + (if bonus then Weighted(row, BLACK_MAN, i, 8) else 0)
      ensures bq == 20 * CountRow(row, BLACK_KING, 8)
    {
      wp, wq, bp, bq := 0, 0, 0, 0;
      var j := 0;
      while j < 8
        invariant 0 <= j <= 8
        invariant wp == 20 * CountRow(row, WHITE_MAN, j) + (if bonus then Weighted(row, WHITE_MAN, 7 - i, j) else 0)
        invariant wq == 20 * CountRow(row, WHITE_KING, j)
        invariant bp == 20 * CountRow(row, BLACK_MAN, j) + (if bonus then Weighted(row, BLACK_MAN, i, j) else 0)
        invariant bq == 20 * CountRow(row, BLACK_KING, j)
      {
        var v := row[j];
        wp := wp + 20 * (if v == WHITE_MAN then 1 else 0);
        wq := wq + 20 * (if v == WHITE_KING then 1 else 0);
        bp := bp + 20 * (if v == BLACK_MAN then 1 else 0);
        bq := bq + 20 * (if v == BLACK_KING then 1 else 0);
        if bonus {
          wp := wp + (if v == WHITE_MAN then 7 - i else 0);
          bp := bp + (if v == BLACK_MAN then i else 0);
        }
        j := j + 1;
      }
    }

    /** The score of m for the bot playing `firstBotColor`, in the engine's
        scoring mode. */
    method CalcScoreOf(m: Mtx, firstBotColor: bool) returns (s: Score)
      requires WellFormed(m)
      ensures s == CalcScore(m, firstBotColor, scoringMode)
    {
      var whitePawns, whiteQueens, blackPawns, blackQueens := CountMaterial(m);
      if !firstBotColor {
        whitePawns, blackPawns := blackPawns, whitePawns;
        whiteQueens, blackQueens := blackQueens, whiteQueens;
      }
      if whitePawns + whiteQueens == 0 {
        return Score(INF, 1);
      }
      if blackPawns + blackQueens == 0 {
        return Score(0, 1);
      }
      var queenCoefficient := 4;
      if scoringMode == NumberAndPotential {
        queenCoefficient := 5;
      }
      s := Score(blackPawns + blackQueens * queenCoefficient, whitePawns + whiteQueens * queenCoefficient);
    }
  }
}
