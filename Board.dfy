/** The authoritative board: the cell matrix the game writes in place, the
    list of snapshots taken after every move, and the parallel list of
    capture-chain tags that lets an undo take back a whole chain at once. */
module BoardState {
  import opened Matrix
  import opened Moves

  /** The runtime errors the board raises on a guard failure. */
  datatype BoardError = FinalNotEmpty | BeginEmpty | CannotPromote

  datatype Outcome = Ok | Fail(error: BoardError)

  /** Starting code of cell (i, j): black men on the dark squares of rows
      0..2, white men on the dark squares of rows 5..7. */
  function StartCell(i: int, j: int): int
  {
    if i < 3 && (i + j) % 2 == 1 then BLACK_MAN
    else if i > 4 && (i + j) % 2 == 1 then WHITE_MAN
    else EMPTY
  }

  /** The starting position. */
  function StartMatrix(): (m: Mtx)
    ensures WellFormed(m)
    ensures forall i, j :: InBounds(i, j) ==>
      && (m[i][j] == BLACK_MAN <==> i < 3 && (i + j) % 2 == 1)
      && (m[i][j] == WHITE_MAN <==> i > 4 && (i + j) % 2 == 1)
      && (m[i][j] == EMPTY <==> !((i < 3 || i > 4) && (i + j) % 2 == 1))
  {
    seq(8, i => seq(8, j => StartCell(i, j)))
  }

  /** In row i of the starting position, the first k cells hold k/2 or
      (k+1)/2 pieces (by the row's parity) of the code that row starts with,
      and no other piece. */
  lemma {:induction false} StartRowPrefixCount(i: int, k: nat, v: int)
    requires 0 <= i < 8 && k <= 8 && v != EMPTY
    ensures CountRow(StartMatrix()[i], v, k) ==
      (if v == StartCell(i, 1 - i % 2) then (if i % 2 == 0 then k / 2 else (k + 1) / 2) else 0)
  {
    var row := StartMatrix()[i];
    if k > 0 {
      StartRowPrefixCount(i, k - 1, v);
      assert row[k - 1] == StartCell(i, k - 1);
      assert StartCell(i, k - 1) == (if (k - 1) % 2 == 1 - i % 2 then StartCell(i, 1 - i % 2) else EMPTY);
      if i % 2 == 0 {
        assert k / 2 == (k - 1) / 2 + (if (k - 1) % 2 == 1 then 1 else 0);
      } else {
        assert (k + 1) / 2 == k / 2 + (if (k - 1) % 2 == 0 then 1 else 0);
      }
    }
  }

  /** The first k rows of the starting position hold four black men per
      row among rows 0..2, four white men per row among rows 5..7, and no
      kings. */
  lemma {:induction false} StartRowsCount(k: nat, v: int)
    requires k <= 8 && v != EMPTY
    ensures CountRows(StartMatrix(), v, k) ==
      4 * (if v == BLACK_MAN then (if k < 3 then k else 3)
           else if v == WHITE_MAN then (if k > 5 then k - 5 else 0)
           else 0)
  {
    if k > 0 {
      StartRowsCount(k - 1, v);
      StartRowPrefixCount(k - 1, 8, v);
    }
  }

  /** The starting position has twelve men of each colour and no kings. */
  lemma StartMaterial()
    ensures Count(StartMatrix(), WHITE_MAN) == 12
    ensures Count(StartMatrix(), BLACK_MAN) == 12
    ensures Count(StartMatrix(), WHITE_KING) == 0
    ensures Count(StartMatrix(), BLACK_KING) == 0
  {
    StartRowsCount(8, WHITE_MAN);
    StartRowsCount(8, BLACK_MAN);
    StartRowsCount(8, WHITE_KING);
    StartRowsCount(8, BLACK_KING);
  }

  /** The matrix after the piece on (i, j) moves to (i2, j2): the piece is
      promoted in place when it reaches its far row, copied to the
      destination, and the origin is cleared. */
  function AfterMove(m: Mtx, i: int, j: int, i2: int, j2: int): (r: Mtx)
    requires IsMatrix(m) && InBounds(i, j) && InBounds(i2, j2)
    ensures IsMatrix(r)
    ensures forall a, b :: InBounds(a, b) ==>
      r[a][b] == (if a == i && b == j then EMPTY
                  else if a == i2 && b == j2 then Promote(m[i][j], i2)
                  else m[a][b])
  {
    var p := Promote(m[i][j], i2);
    Set(Set(Set(m, i, j, p), i2, j2, p), i, j, EMPTY)
  }

  /** The matrix with the captured piece of `turn` removed, if it has one. */
  function ClearCaptured(m: Mtx, turn: Move): (r: Mtx)
    requires IsMatrix(m) && (turn.IsCapture() ==> InBounds(turn.xb, turn.yb))
    ensures IsMatrix(r)
    ensures forall a, b :: InBounds(a, b) ==>
      r[a][b] == (if turn.IsCapture() && a == turn.xb && b == turn.yb then EMPTY else m[a][b])
  {
    if turn.IsCapture() then Set(m, turn.xb, turn.yb, EMPTY) else m
  }

  /** What `move_piece(move_pos)` reports on position m: the captured piece
      is removed first, then the destination must be empty and the origin
      occupied. */
  function TurnOutcome(m: Mtx, turn: Move): Outcome
    requires IsMatrix(m) && InBounds(turn.x, turn.y) && InBounds(turn.x2, turn.y2)
    requires turn.IsCapture() ==> InBounds(turn.xb, turn.yb)
  {
    var cleared := ClearCaptured(m, turn);
    if cleared[turn.x2][turn.y2] != EMPTY then Fail(FinalNotEmpty)
    else if cleared[turn.x][turn.y] == EMPTY then Fail(BeginEmpty)
    else Ok
  }

  /** The position `move_piece(move_pos)` leaves on m: the captured piece
      is gone even when the move itself is refused. */
  function AfterTurn(m: Mtx, turn: Move): (r: Mtx)
    requires IsMatrix(m) && InBounds(turn.x, turn.y) && InBounds(turn.x2, turn.y2)
    requires turn.IsCapture() ==> InBounds(turn.xb, turn.yb)
    ensures IsMatrix(r)
  {
    var cleared := ClearCaptured(m, turn);
    if TurnOutcome(m, turn).Ok? then AfterMove(cleared, turn.x, turn.y, turn.x2, turn.y2) else cleared
  }

  /** One step of a capture chain made on position prev: the board accepts
      the move, and next is the position it leaves. */
  predicate StepPlayed(prev: Mtx, turn: Move, next: Mtx)
  {
    && IsMatrix(prev) && InBounds(turn.x, turn.y) && InBounds(turn.x2, turn.y2)
    && (turn.IsCapture() ==> InBounds(turn.xb, turn.yb))
    && TurnOutcome(prev, turn).Ok?
    && next == AfterTurn(prev, turn)
  }

  /** The position before step k of a chain started on start whose
      positions after each step are chain. */
  function ChainPrev(start: Mtx, chain: seq<Mtx>, k: nat): Mtx
    requires k <= |chain|
  {
    if k == 0 then start else chain[k - 1]
  }

  /** The first |chain| steps were made one after the other from start,
      chain holding the position after each. */
  predicate ChainPlayed(start: Mtx, steps: seq<Move>, chain: seq<Mtx>)
    decreases |chain|
  {
    && |chain| <= |steps|
    && (|chain| > 0 ==>
        && ChainPlayed(start, steps, chain[..|chain| - 1])
        && StepPlayed(ChainPrev(start, chain, |chain| - 1), steps[|chain| - 1], chain[|chain| - 1]))
  }

  /** Where playing steps from start stops: chain holds the positions
      after the steps made, and final is the position left, either after
      the last step or, when a step was refused, after that step removed
      its captured piece. */
  predicate ChainStops(start: Mtx, steps: seq<Move>, chain: seq<Mtx>, final: Mtx)
  {
    && ChainPlayed(start, steps, chain)
    && IsMatrix(ChainPrev(start, chain, |chain|))
    && (forall k :: 0 <= k < |steps| ==>
          InBounds(steps[k].x, steps[k].y) && InBounds(steps[k].x2, steps[k].y2)
          && (steps[k].IsCapture() ==> InBounds(steps[k].xb, steps[k].yb)))
    && (if |chain| < |steps| then
          && TurnOutcome(ChainPrev(start, chain, |chain|), steps[|chain|]).Fail?
          && final == AfterTurn(ChainPrev(start, chain, |chain|), steps[|chain|])
        else final == ChainPrev(start, chain, |chain|))
  }

  /** A chain whose first step is accepted makes at least that step. This is
      the consequence of `ChainStops` that makes `PlayChain`'s contract demand
      actual play: a chain that stops at once must have been refused. */
  lemma ChainStopsFirst(start: Mtx, steps: seq<Move>, chain: seq<Mtx>, final: Mtx)
    requires ChainStops(start, steps, chain, final)
    requires |steps| > 0 && IsMatrix(start) && TurnOutcome(start, steps[0]).Ok?
    ensures |chain| > 0
  {
  }

  /** Every step of a played chain was made from the position before it. */
  lemma {:induction false} ChainPlayedAt(start: Mtx, steps: seq<Move>, chain: seq<Mtx>, k: nat)
    requires ChainPlayed(start, steps, chain) && k < |chain|
    ensures StepPlayed(ChainPrev(start, chain, k), steps[k], chain[k])
  {
    if k < |chain| - 1 {
      var front := chain[..|chain| - 1];
      ChainPlayedAt(start, steps, front, k);
      assert ChainPrev(start, front, k) == ChainPrev(start, chain, k);
    }
  }

  /** A played chain extended by one more step made from its last position. */
  lemma ChainPlayedExtend(start: Mtx, steps: seq<Move>, chain: seq<Mtx>, next: Mtx)
    requires ChainPlayed(start, steps, chain) && |chain| < |steps|
    requires StepPlayed(ChainPrev(start, chain, |chain|), steps[|chain|], next)
    ensures ChainPlayed(start, steps, chain + [next])
  {
    assert (chain + [next])[..|chain|] == chain;
  }

  /** How many history entries an undo removes: the last entry's chain tag
      (at least one), but never the first entry. */
  function RollbackDepth(tags: seq<int>): (n: nat)
    requires |tags| >= 1
    ensures n < |tags|
    ensures |tags| > 1 ==> n >= 1
    ensures n == |tags| - 1 || n == (if tags[|tags| - 1] < 1 then 1 else tags[|tags| - 1])
    ensures n <= (if tags[|tags| - 1] < 1 then 1 else tags[|tags| - 1])
  {
    var want := if tags[|tags| - 1] < 1 then 1 else tags[|tags| - 1];
    if want < |tags| - 1 then want else |tags| - 1
  }

  /** The tags 1, 2, ..., n that the game attaches to the n steps of one
      capture chain. */
  function ChainTags(n: nat): (t: seq<int>)
    ensures |t| == n
  {
    if n == 0 then [] else ChainTags(n - 1) + [n]
  }

  /** ChainTags(n) counts up from one. */
  lemma {:induction false} ChainTagsAt(n: nat, k: nat)
    requires k < n
    ensures ChainTags(n)[k] == k + 1
  {
    if k < n - 1 {
      ChainTagsAt(n - 1, k);
    }
  }

  /** Undoing right after a capture chain of n steps, tagged 1..n, removes
      exactly the chain's n entries, so both lists return to what they were
      before the chain. */
  lemma ChainUndo(snaps: seq<Mtx>, tags: seq<int>, chain: seq<Mtx>)
    requires |snaps| == |tags| >= 1 && |chain| >= 1
    ensures RollbackDepth(tags + ChainTags(|chain|)) == |chain|
    ensures var all := snaps + chain; all[..|all| - |chain|] == snaps
    ensures var t := tags + ChainTags(|chain|); t[..|t| - |chain|] == tags
  {
    var t := tags + ChainTags(|chain|);
    ChainTagsAt(|chain|, |chain| - 1);
    assert t[|t| - 1] == |chain|;
  }

  /** Undoing right after a standalone move (tag 0) removes exactly that
      move's entry. */
  lemma StandaloneUndo(tags: seq<int>)
    requires |tags| >= 1
    ensures RollbackDepth(tags + [0]) == 1
  {
  }

  class Board {
    /** The current position, written in place. */
    var mtx: array2<int>
    /** Snapshot of the position after each recorded move, oldest first. */
    var historyMtx: seq<Mtx>
    /** For each snapshot, 0 for a standalone move or N for the N-th step of
        a capture chain. */
    var historyBeatSeries: seq<int>

    /** The matrix is 8x8 with codes 0..4, the history lists are parallel and
        every snapshot is a well-formed matrix. */
    ghost predicate Shaped()
      reads this, mtx
    {
      && mtx.Length0 == 8 && mtx.Length1 == 8
      && (forall i, j :: 0 <= i < 8 && 0 <= j < 8 ==> EMPTY <= mtx[i, j] <= BLACK_KING)
      && |historyMtx| == |historyBeatSeries|
      && (forall k :: 0 <= k < |historyMtx| ==> WellFormed(historyMtx[k]))
    }

    /** Shaped, and the history holds at least the starting entry. */
    ghost predicate Valid()
      reads this, mtx
    {
      Shaped() && |historyMtx| >= 1
    }

    /** The current position as a matrix value. */
    function Cells(): (m: Mtx)
      reads this, mtx
      requires mtx.Length0 == 8 && mtx.Length1 == 8
      ensures IsMatrix(m)
      ensures forall i, j :: InBounds(i, j) ==> m[i][j] == mtx[i, j]
    {
      var a := mtx;
      seq(8, i requires 0 <= i < 8 reads a => seq(8, j requires 0 <= j < 8 reads a => a[i, j]))
    }

    /** A board with the starting position and one history entry, as built
        when the game window starts. */
    constructor ()
      ensures Valid() && fresh(mtx)
      ensures Cells() == StartMatrix()
      ensures historyMtx == [StartMatrix()] && historyBeatSeries == [0]
    {
      mtx := new int[8, 8]((_, _) => EMPTY);
      historyMtx := [];
      historyBeatSeries := [];
      new;
      MakeStartMtx();
    }

    /** Restarts the game: clears both history lists and sets up the
        starting position again. */
    method Redraw()
      requires Valid()
      modifies this, mtx
      ensures Valid() && mtx == old(mtx)
      ensures Cells() == StartMatrix()
      ensures historyMtx == [StartMatrix()] && historyBeatSeries == [0]
    {
      historyMtx := [];
      historyBeatSeries := [];
      MakeStartMtx();
    }

    /** Moves the capture-carrying step `turn`: removes the captured piece
        first, then moves as MovePiece does. The captured cell stays empty
        even when the move itself then fails. */
    method MovePieceTurn(turn: Move, beatSeries: int) returns (r: Outcome)
      requires Valid()
      requires InBounds(turn.x, turn.y) && InBounds(turn.x2, turn.y2)
      requires turn.IsCapture() ==> InBounds(turn.xb, turn.yb)
      modifies this, mtx
      ensures Valid() && mtx == old(mtx)
      ensures r == TurnOutcome(old(Cells()), turn) && Cells() == AfterTurn(old(Cells()), turn)
      ensures && historyMtx == (if r.Ok? then old(historyMtx) + [Cells()] else old(historyMtx))
        && historyBeatSeries == (if r.Ok? then old(historyBeatSeries) + [beatSeries] else old(historyBeatSeries))
    {
      ghost var before := Cells();
      if turn.IsCapture() {
        mtx[turn.xb, turn.yb] := EMPTY;
      }
      SameCells(Cells(), ClearCaptured(before, turn));
      r := MovePiece(turn.x, turn.y, turn.x2, turn.y2, beatSeries);
    }

    /** Moves the piece on (i, j) to (i2, j2), promoting it on its far row,
        and records the new position in the history with tag beatSeries.
        Fails, changing nothing, when the destination is occupied or else
        when the origin is empty. */
    method MovePiece(i: int, j: int, i2: int, j2: int, beatSeries: int) returns (r: Outcome)
      requires Valid() && InBounds(i, j) && InBounds(i2, j2)
      modifies this, mtx
      ensures Valid() && mtx == old(mtx)
      ensures r == (if old(mtx[i2, j2]) != EMPTY then Fail(FinalNotEmpty)
                    else if old(mtx[i, j]) == EMPTY then Fail(BeginEmpty)
                    else Ok)
      ensures r.Fail? ==> Cells() == old(Cells()) && historyMtx == old(historyMtx)
                          && historyBeatSeries == old(historyBeatSeries)
      ensures r.Ok? ==> && Cells() == AfterMove(old(Cells()), i, j, i2, j2)
                        && historyMtx == old(historyMtx) + [Cells()]
                        && historyBeatSeries == old(historyBeatSeries) + [beatSeries]
    {
      if mtx[i2, j2] != EMPTY {
        return Fail(FinalNotEmpty);
      }
      if mtx[i, j] == EMPTY {
        return Fail(BeginEmpty);
      }
      ghost var before := Cells();
      ghost var p := Promote(before[i][j], i2);
      if (mtx[i, j] == WHITE_MAN && i2 == 0) || (mtx[i, j] == BLACK_MAN && i2 == 7) {
        mtx[i, j] := mtx[i, j] + 2;
      }
      assert mtx[i, j] == p;
      mtx[i2, j2] := mtx[i, j];
      SameCells(Cells(), Set(Set(before, i, j, p), i2, j2, p));
      DropPiece(i, j);
      AddHistory(beatSeries);
      r := Ok;
    }

    /** Empties cell (i, j). */
    method DropPiece(i: int, j: int)
      requires Valid() && InBounds(i, j)
      modifies mtx
      ensures Valid()
      ensures Cells() == Set(old(Cells()), i, j, EMPTY)
    {
      ghost var before := Cells();
      mtx[i, j] := EMPTY;
      SameCells(Cells(), Set(before, i, j, EMPTY));
    }

    /** Promotes the man on (i, j) to a king in place. Fails, changing
        nothing, when the cell is empty or already holds a king. */
    method TurnIntoQueen(i: int, j: int) returns (r: Outcome)
      requires Valid() && InBounds(i, j)
      modifies mtx
      ensures Valid()
      ensures r == (if old(mtx[i, j]) == EMPTY || old(mtx[i, j]) > BLACK_MAN then Fail(CannotPromote) else Ok)
      ensures r.Fail? ==> Cells() == old(Cells())
      ensures r.Ok? ==> Cells() == Set(old(Cells()), i, j, old(mtx[i, j]) + 2)
    {
      if mtx[i, j] == EMPTY || mtx[i, j] > BLACK_MAN {
        return Fail(CannotPromote);
      }
      ghost var before := Cells();
      mtx[i, j] := mtx[i, j] + 2;
      SameCells(Cells(), Set(before, i, j, before[i][j] + 2));
      r := Ok;
    }

    /** A copy of the current position. */
    method GetBoard() returns (m: Mtx)
      requires Valid()
      ensures WellFormed(m)
      ensures forall i, j :: InBounds(i, j) ==> m[i][j] == mtx[i, j]
      ensures m == Cells()
    {
      m := Cells();
    }

    /** Takes back the last move, or the whole capture chain it ended:
        drops RollbackDepth entries from both history lists and restores the
        position to the snapshot now last. On a one-entry history only the
        position is restored. */
    method Rollback()
      requires Valid()
      modifies this, mtx
      ensures Valid() && mtx == old(mtx)
      ensures var n := |old(historyMtx)| - RollbackDepth(old(historyBeatSeries));
        historyMtx == old(historyMtx)[..n] && historyBeatSeries == old(historyBeatSeries)[..n]
      ensures Cells() == historyMtx[|historyMtx| - 1]
    {
      var last := historyBeatSeries[|historyBeatSeries| - 1];
      var beatSeries := if last < 1 then 1 else last;
      ghost var depth := RollbackDepth(historyBeatSeries);
      ghost var oldMtx, oldTags := historyMtx, historyBeatSeries;
      while beatSeries != 0 && |historyMtx| > 1
        invariant Valid() && mtx == old(mtx)
        invariant 0 <= beatSeries
        invariant |oldMtx| - |historyMtx| + beatSeries == (if last < 1 then 1 else last)
        invariant |oldMtx| - |historyMtx| <= depth
        invariant historyMtx == oldMtx[..|historyMtx|] && historyBeatSeries == oldTags[..|historyMtx|]
        decreases beatSeries
      {
        historyMtx := historyMtx[..|historyMtx| - 1];
        historyBeatSeries := historyBeatSeries[..|historyBeatSeries| - 1];
        beatSeries := beatSeries - 1;
      }
      Load(historyMtx[|historyMtx| - 1]);
    }

    /** A standalone move (tag 0) followed by an undo: when the move
        succeeds, the undo takes back exactly that move, restoring the
        position and both history lists. A failed move changes nothing. */
    method MoveThenUndo(i: int, j: int, i2: int, j2: int) returns (r: Outcome)
      requires Valid() && InBounds(i, j) && InBounds(i2, j2)
      requires Cells() == historyMtx[|historyMtx| - 1]
      modifies this, mtx
      ensures Valid() && mtx == old(mtx)
      ensures Cells() == old(Cells())
      ensures historyMtx == old(historyMtx) && historyBeatSeries == old(historyBeatSeries)
    {
      r := MovePiece(i, j, i2, j2, 0);
      if r.Ok? {
        StandaloneUndo(old(historyBeatSeries));
        Rollback();
      }
    }

    /** The steps of one capture chain, tagged 1, 2, ... as the game tags
        them (the k-th capture of a chain carries tag k), played until one
        fails. Both history lists grow by one entry per step made. */
    method PlayChain(steps: seq<Move>) returns (done: nat, ghost chain: seq<Mtx>)
      requires Valid()
      requires forall k :: 0 <= k < |steps| ==>
        && InBounds(steps[k].x, steps[k].y) && InBounds(steps[k].x2, steps[k].y2)
        && (steps[k].IsCapture() ==> InBounds(steps[k].xb, steps[k].yb))
      modifies this, mtx
      ensures Valid() && mtx == old(mtx) && done <= |steps| && |chain| == done
      ensures ChainStops(old(Cells()), steps, chain, Cells())
      ensures historyMtx == old(historyMtx) + chain
      ensures historyBeatSeries == old(historyBeatSeries) + ChainTags(done)
    {
      done := 0;
      chain := [];
      ghost var start := Cells();
      while done < |steps|
        invariant Valid() && mtx == old(mtx) && done <= |steps| && |chain| == done
        invariant ChainPlayed(start, steps, chain)
        invariant Cells() == ChainPrev(start, chain, done) && IsMatrix(ChainPrev(start, chain, done))
        invariant historyMtx == old(historyMtx) + chain
        invariant historyBeatSeries == old(historyBeatSeries) + ChainTags(done)
      {
        var r := MovePieceTurn(steps[done], done + 1);
        if r.Fail? {
          break;
        }
        ChainPlayedExtend(start, steps, chain, Cells());
        assert ChainTags(done + 1) == ChainTags(done) + [done + 1];
        AppendAssoc(old(historyBeatSeries), ChainTags(done), [done + 1]);
        AppendAssoc(old(historyMtx), chain, [Cells()]);
        chain := chain + [Cells()];
        done := done + 1;
      }
    }

    /** A capture chain followed by one undo. Once at least one step has
        been made, the undo takes the whole chain back: the position and
        both history lists are as before the chain. */
    method ChainThenUndo(steps: seq<Move>) returns (done: nat)
      requires Valid() && Cells() == historyMtx[|historyMtx| - 1]
      requires forall k :: 0 <= k < |steps| ==>
        && InBounds(steps[k].x, steps[k].y) && InBounds(steps[k].x2, steps[k].y2)
        && (steps[k].IsCapture() ==> InBounds(steps[k].xb, steps[k].yb))
      modifies this, mtx
      ensures Valid() && mtx == old(mtx) && done <= |steps|
      ensures |steps| > 0 && TurnOutcome(old(Cells()), steps[0]).Ok? ==> done > 0
      ensures done == 0 ==> historyMtx == old(historyMtx) && historyBeatSeries == old(historyBeatSeries)
      ensures done > 0 ==>
        && Cells() == old(Cells())
        && historyMtx == old(historyMtx) && historyBeatSeries == old(historyBeatSeries)
    {
      ghost var before, chain := Cells(), [];
      done, chain := PlayChain(steps);
      if |steps| > 0 && TurnOutcome(before, steps[0]).Ok? {
        ChainStopsFirst(before, steps, chain, Cells());
      }
      if done > 0 {
        UndoChain(old(historyMtx), old(historyBeatSeries), chain);
      }
    }

    /** One undo right after a capture chain of |chain| steps tagged 1, 2,
        ... takes back the whole chain: both history lists lose exactly its
        entries and the position becomes the one before it. */
    method UndoChain(ghost snaps: seq<Mtx>, ghost tags: seq<int>, ghost chain: seq<Mtx>)
      requires Valid() && |snaps| == |tags| >= 1 && |chain| >= 1
      requires historyMtx == snaps + chain && historyBeatSeries == tags + ChainTags(|chain|)
      modifies this, mtx
      ensures Valid() && mtx == old(mtx)
      ensures historyMtx == snaps && historyBeatSeries == tags
      ensures Cells() == snaps[|snaps| - 1]
    {
      ChainUndo(snaps, tags, chain);
      Rollback();
    }

    /** Appends the current position and its chain tag to the history. */
    method AddHistory(beatSeries: int)
      requires Shaped()
      modifies this
      ensures Shaped() && mtx == old(mtx) && Cells() == old(Cells())
      ensures historyMtx == old(historyMtx) + [Cells()]
      ensures historyBeatSeries == old(historyBeatSeries) + [beatSeries]
    {
      historyMtx := historyMtx + [Cells()];
      historyBeatSeries := historyBeatSeries + [beatSeries];
    }

    /** Overwrites the current position with the snapshot s. */
    method Load(s: Mtx)
      requires Valid() && WellFormed(s)
      modifies mtx
      ensures Valid() && Cells() == s
    {
      var i := 0;
      while i < 8
        invariant 0 <= i <= 8 && Valid()
        invariant forall a, b :: 0 <= a < i && 0 <= b < 8 ==> mtx[a, b] == s[a][b]
      {
        var j := 0;
        while j < 8
          invariant 0 <= j <= 8 && Valid()
          invariant forall a, b :: 0 <= a < i && 0 <= b < 8 ==> mtx[a, b] == s[a][b]
          invariant forall b :: 0 <= b < j ==> mtx[i, b] == s[i][b]
        {
          mtx[i, j] := s[i][j];
          j := j + 1;
        }
        i := i + 1;
      }
      SameCells(Cells(), s);
    }

    /** Fills the matrix with the starting position and records it as a new
        history entry tagged 0. */
    method MakeStartMtx()
      requires Shaped()
      modifies this, mtx
      ensures Valid() && mtx == old(mtx)
      ensures Cells() == StartMatrix()
      ensures historyMtx == old(historyMtx) + [StartMatrix()]
      ensures historyBeatSeries == old(historyBeatSeries) + [0]
    {
      var i := 0;
      while i < 8
        invariant 0 <= i <= 8 && Shaped() && mtx == old(mtx)
        invariant historyMtx == old(historyMtx) && historyBeatSeries == old(historyBeatSeries)
        invariant forall a, b :: 0 <= a < i && 0 <= b < 8 ==> mtx[a, b] == StartCell(a, b)
      {
        var j := 0;
        while j < 8
          invariant 0 <= j <= 8 && Shaped() && mtx == old(mtx)
          invariant historyMtx == old(historyMtx) && historyBeatSeries == old(historyBeatSeries)
          invariant forall a, b :: 0 <= a < i && 0 <= b < 8 ==> mtx[a, b] == StartCell(a, b)
          invariant forall b :: 0 <= b < j ==> mtx[i, b] == StartCell(i, b)
        {
          mtx[i, j] := EMPTY;
          if i < 3 && (i + j) % 2 == 1 {
            mtx[i, j] := BLACK_MAN;
          }
          if i > 4 && (i + j) % 2 == 1 {
            mtx[i, j] := WHITE_MAN;
          }
          j := j + 1;
        }
        i := i + 1;
      }
      SameCells(Cells(), StartMatrix());
      AddHistory(0);
    }
  }
}
