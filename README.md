# Russian draughts rules engine and board, in Dafny

This project models the rules engine of a Russian-draughts game (`Game/Logic.h`) and the authoritative board with its undo history (`Game/Board.h`). The model proves that each move generator yields exactly the moves described by independent shape predicates of the engine's own rules: a man's jump, a man's forward step, a flying king's capture or quiet ray, and the side-wide mandatory-capture rule. These are the engine's rules, not the full rules of Russian draughts. For example, the engine removes a captured piece as soon as it is jumped, not at the end of the chain.

Both files work on an 8x8 matrix of cell codes:

- 0 is an empty cell;
- 1 is a white man and 2 a black man;
- 3 is a white king and 4 a black king.

A side is a `bool`: false is white and true is black. A cell belongs to `color` when it is occupied and its code's parity differs from the colour read as 0/1.

Modules:

- `Matrix`: the cell codes, the matrix as `seq<seq<int>>`, parity ownership, promotion, and counting codes by row.
- `Moves`: `move_pos` as the datatype `Move(x, y, x2, y2, xb, yb)`, where `xb == -1` means "no capture".
- `BoardState`: class `Board`.
  - The position is an `array2<int>` written in place.
  - `history_mtx` and `history_beat_series` are `seq` fields that the methods reassign.
  - The `throw`s of the source become an `Outcome` result.
  - This module also holds the pure facts about the start layout and about undoing capture chains.
- `Rules`: the rules as functions of a matrix, with the lemmas that characterise them.
  - `make_turn` on a copied board.
  - The moves of a man and of a flying king: per ray, capture first, then landings.
  - The moves of one piece, where captures suppress quiet moves.
  - The moves of one side under the mandatory-capture rule.
  - The position score as an exact ratio, counted in twentieths of a man and returned as a numerator and a denominator.
- `Logic`: class `Logic`.
  - Fields `turns`, `haveBeats`, the random engine's state and the scoring mode.
  - The imperative move generators, each proved equal to its `Rules` function.
  - The shuffle.
  - The score computed by the source's nested counting loop.

`Models/Move.h` is not part of this model; `Move` follows its uses in `Game/Logic.h` and `Game/Game.h`.

## Model

| member | source | states |
|---|---|---|
| Matrix.Promote | Game/Logic.h:46-48 | a 1 arriving on row 0 becomes 3, a 2 arriving on row 7 becomes 4, every other code (kings included) is kept; parity, so ownership, never changes |
| Matrix.CountPositive | Game/Logic.h:66-73 | the per-code count of the board is positive exactly when some cell holds that code |
| Rules.MakeTurn | Game/Logic.h:41-53 | the board after a move: origin 0, destination the (promoted) moving piece, the captured cell 0 when `xb != -1`, every other cell unchanged |
| Rules.MakeTurnPromotion | Game/Logic.h:46-48 | on a move with distinct squares the destination gets 3 for a white man reaching row 0, 4 for a black man reaching row 7, the man otherwise, and a king keeps its code; the result stays a board of codes 0..4 |
| Rules.MakeTurnMatchesBoard | Game/Logic.h:41-53 | the virtual `make_turn` and the board's `move_piece(move_pos)` produce the same matrix whenever the board's guards pass |
| Rules.ManCaptures | Game/Logic.h:175-186 | transcribes the man's two nested jump loops (row x-2 then x+2, column y-2 then y+2 within each); its contract bounds the list to four moves, each starting on the man and capturing; ManCapturesIff gives the exact set |
| Rules.ManJumpIff | Game/Logic.h:179-184 | one jump target (i, j) of the loop yields exactly the capture of the man's capture shape that lands on (i, j), or nothing |
| Rules.ManCapturesIff | Game/Logic.h:175-186 | a man's capture list holds exactly the jumps two steps diagonally in any of the four directions onto an empty in-bounds cell over an occupied midpoint of the other parity, the midpoint being the captured square |
| Rules.ManQuiet | Game/Logic.h:227-233 | transcribes the man's forward-step loop (column y-1 first); its contract bounds the list to two quiet moves, each starting on the man and landing on the forward row (x-1 for odd codes, x+1 for even) |
| Rules.ManQuietIff | Game/Logic.h:227-233 | a man's quiet list holds exactly the one-step forward diagonals (row x-1 for odd codes, x+1 for even) onto empty in-bounds cells |
| Rules.RayCapturesIff | Game/Logic.h:190-211 | on one ray a king captures only when the first piece met is of the other parity; that piece is the captured square and the landings are the empty cells after it up to the next piece; an own piece met first yields nothing |
| Rules.RayCapturesIffFrom | Game/Logic.h:195-205 | the ray scan from step s on, before any enemy is met, yields exactly the captures whose enemy is the first piece from step s |
| Rules.CaptureRayEnds | Game/Logic.h:195-201 | at step s off the board or on an own-parity piece, the scan before any enemy yields nothing, and no capture has its enemy as the first piece from s |
| Rules.CaptureEmptyStep | Game/Logic.h:197-206 | an empty cell before the enemy is passed over: when the scan from step s+1 yields exactly the captures whose enemy is the first piece from s+1, the scan from s yields exactly those whose enemy is the first piece from s |
| Rules.CaptureEnemyStep | Game/Logic.h:197-209 | an enemy piece at step s is remembered: the captures found from s are exactly the landings from s+1 naming that piece |
| Rules.RayLandingsIff | Game/Logic.h:195-209 | once the enemy is met, the rest of the scan yields exactly the empty cells up to the next piece as landings, all naming that enemy |
| Rules.CaptureMeetsEnemy | Game/Logic.h:197-204 | when the scan meets an enemy piece the captures from there are exactly the landings beyond it |
| Rules.KingCapturesIff | Game/Logic.h:190-211 | a king's capture list is exactly the union of its ray captures in the four diagonal directions |
| Rules.RaySteps | Game/Logic.h:241-246 | transcribes the king's quiet-ray loop, which stops at the first occupied cell; its contract bounds the list by the cells left on the ray; RayStepsIff gives the exact set |
| Rules.RayStepsIff | Game/Logic.h:241-246 | on one ray a king's quiet moves are exactly the empty cells before the first occupied cell |
| Rules.RayStepsIffFrom | Game/Logic.h:241-246 | the quiet ray scan from step s yields exactly the empty cells from step s up to the first piece |
| Rules.KingQuietIff | Game/Logic.h:237-248 | a king's quiet list is exactly the union of its quiet ray moves in the four diagonal directions |
| Rules.PieceTurns | Game/Logic.h:163-251 | transcribes the two switches and the early return at lines 216-220 (captures first, quiet moves only when there is none); every move starts on the piece and is a capture exactly when the piece has one |
| Rules.PieceMovesShape | Game/Logic.h:184 | every move of a piece starts on the piece, lands on the board, and is a capture (naming an on-board square, so `xb != -1`) exactly when it comes from the capture list |
| Rules.PieceTurnsNeverMix | Game/Logic.h:216-220 | a piece's moves are all captures when it has one and all quiet moves otherwise |
| Rules.ScanStep | Game/Logic.h:138-149 | one cell of the board-wide scan: an unowned cell changes nothing; the first capturing piece replaces the quiet moves collected so far by its captures; later capturing pieces append theirs; quiet moves are appended only while no capture has been found |
| Rules.OwnCapturesIff | Game/Logic.h:134-152 | after c cells of the row-major scan the capture list holds exactly the captures of the side's pieces on those cells |
| Rules.OwnQuietIff | Game/Logic.h:134-152 | after c cells of the scan the quiet list holds exactly the quiet moves of the side's pieces on those cells |
| Rules.ColorCapturesExist | Game/Logic.h:141-145 | the side has a capture exactly when one of its pieces has one (mandatory capture is board-wide) |
| Rules.ColorTurns | Game/Logic.h:130-156 | transcribes the board-wide scan as the result of 64 scan steps; every move is a capture exactly when the side has one |
| Rules.ColorTurnsIff | Game/Logic.h:130-156 | if the side has any capture its moves are exactly the captures of its pieces, otherwise exactly the quiet moves of its pieces |
| Rules.ColorTurnsNeverMix | Game/Logic.h:138 | every move of the side starts on a cell it owns (`mtx != 0 && mtx % 2 != color`) and is a capture exactly when the side has one |
| Rules.ColorHasTurns | Game/Logic.h:130-156 | the side has a move exactly when one of its pieces has a move |
| Rules.TallyOf | Game/Logic.h:65-81 | transcribes the counting loop's four totals, in twentieths; all four are non-negative, and a side's two totals are zero exactly when it has no piece |
| Rules.WeightedCount | Game/Logic.h:77-78 | adding a row weight once per matching cell equals the count of that code times the weight |
| Rules.PotentialBounds | Game/Logic.h:75-79 | the positional bonus of the men of one code is never negative and is zero when there are no such men |
| Rules.StrengthPositive | Game/Logic.h:94-99 | a side's weighted material is non-negative and positive exactly when it has a piece |
| Rules.ScoreOf | Game/Logic.h:83-99 | transcribes the swap, the two loss checks and the king coefficient; on a non-negative tally the score is a non-negative numerator over a positive denominator |
| Rules.CalcScore | Game/Logic.h:63-100 | the score of a board is a non-negative numerator over a positive denominator; ScoreByMaterial characterises its value |
| Rules.ScoreByMaterial | Game/Logic.h:83-99 | from the bot's side: INF when the opponent has no piece (checked first), else 0 when the bot has none, else bot strength over opponent strength with kings weighted 4 (5 with the positional mode), both positive |
| Rules.ScoreSwapsWithColor | Game/Logic.h:83-92 | when exactly one side has material, the two bot colours score INF and 0 in some order |
| Logic.SeedState | Game/Logic.h:23-24 | the engine state derived from a seed is a valid nonzero state below the modulus |
| Logic.Logic.constructor | Game/Logic.h:19-28 | the engine is seeded with 0 when randomness is off and with the 32-bit clock otherwise; the scoring mode is stored |
| Logic.Logic.FindTurnsOfColor | Game/Logic.h:110-113 | the public side generator on the board's current position yields a permutation of the side's legal moves and the capture flag |
| Logic.Logic.FindTurnsOfCell | Game/Logic.h:119-122 | the public piece generator on the board's current position yields exactly the piece's moves and whether they are captures |
| Logic.Logic.FindColorTurns | Game/Logic.h:130-156 | `turns` becomes a permutation of the side's captures if it has any, else of its quiet moves; `haveBeats` records which |
| Logic.Logic.ScanCell | Game/Logic.h:138-149 | one scan step keeps the collected list and the found flag equal to the scan's specification after one more cell; on a cell of the side, `turns` and `haveBeats` are left as the piece's moves and capture flag, and on any other cell they are unchanged |
| Logic.Logic.Shuffle | Game/Logic.h:154 | the shuffled list is a permutation of the list before |
| Logic.Logic.FindCellTurns | Game/Logic.h:163-251 | `turns` becomes the piece's captures if it has any (with `haveBeats`), else its quiet moves; codes 1 and 2 move as men, every other code as a king |
| Logic.Logic.AddManCaptures | Game/Logic.h:175-186 | appends exactly the man's captures, in the source's loop order |
| Logic.Logic.AddKingCaptures | Game/Logic.h:190-212 | appends exactly the king's captures over the four rays |
| Logic.Logic.AddRayCaptures | Game/Logic.h:194-210 | the `last_blocked` loop appends exactly `RayCaptures`, the same scan written as a function, whose exact content RayCapturesIff states |
| Logic.Logic.AddManSteps | Game/Logic.h:227-233 | appends exactly the man's forward steps |
| Logic.Logic.AddKingSteps | Game/Logic.h:237-248 | appends exactly the king's quiet moves over the four rays |
| Logic.Logic.AddRaySteps | Game/Logic.h:241-246 | appends exactly one ray's quiet moves |
| Logic.Logic.CountMaterial | Game/Logic.h:65-81 | the counting loop yields the material tally of the position, with the positional bonus only in the positional mode |
| Logic.Logic.CountRowMaterial | Game/Logic.h:68-79 | the inner loop over one row yields that row's four counts in twentieths, plus its men's positional bonus when the mode asks for it |
| Logic.Logic.CalcScoreOf | Game/Logic.h:63-100 | the score of the position is the one ScoreByMaterial characterises |
| BoardState.StartMatrix | Game/Board.h:233-245 | a cell starts as 2 exactly when i < 3 and i + j is odd, as 1 exactly when i > 4 and i + j is odd, and as 0 otherwise |
| BoardState.StartRowPrefixCount | Game/Board.h:235-244 | the number of men of each colour among the first k cells of a start row |
| BoardState.StartRowsCount | Game/Board.h:235-244 | the number of men of each colour in the first k start rows |
| BoardState.StartMaterial | Game/Board.h:233-247 | the start position holds 12 men per side and no kings |
| BoardState.Board.MakeStartMtx | Game/Board.h:233-247 | the matrix becomes the start position and exactly one history entry, that position tagged 0, is appended |
| BoardState.Board.constructor | Game/Board.h:71 | stands for a board after `start_draw` without its SDL set-up (the C++ constructors at lines 22-23 only store the window size and build no history): the start position and a one-entry history tagged 0 |
| BoardState.Board.Redraw | Game/Board.h:77-85 | both history lists are cleared and the start position rebuilt, leaving exactly one entry |
| BoardState.Board.MovePiece | Game/Board.h:96-107 | fails if the destination is occupied, else if the origin is empty, changing nothing; otherwise the destination gets the (promoted) piece, the origin becomes 0, no other cell changes, and one snapshot equal to the new matrix and one tag are appended |
| BoardState.AfterMove | Game/Board.h:102-105 | the matrix after a board move: origin 0, destination the promoted piece, the rest unchanged |
| BoardState.Board.MovePieceTurn | Game/Board.h:88-93 | the result is `TurnOutcome` and the position `AfterTurn` of the old position: the captured cell is emptied first and stays empty even when the move then fails; the guards and the move are those of MovePiece on the cleared matrix; on success one snapshot and the tag are appended |
| BoardState.ClearCaptured | Game/Board.h:90-91 | only the captured cell changes, and only on a capture |
| BoardState.Board.DropPiece | Game/Board.h:110-114 | only the given cell changes, to 0 |
| BoardState.Board.TurnIntoQueen | Game/Board.h:117-123 | fails, changing nothing, on an empty cell or a king; otherwise adds 2 to that cell only |
| BoardState.Board.GetBoard | Game/Board.h:126-129 | returns a copy of the current matrix |
| BoardState.Board.AddHistory | Game/Board.h:226-230 | appends the current matrix and the tag, so both lists grow by exactly one |
| BoardState.RollbackDepth | Game/Board.h:177-182 | an undo removes exactly min(max(1, last tag), length - 1) entries: at least one when there is more than one, never the first one |
| BoardState.Board.Rollback | Game/Board.h:175-186 | both lists lose the same RollbackDepth entries from the end, and the matrix becomes the snapshot now last |
| BoardState.Board.Load | Game/Board.h:183 | the matrix becomes the given snapshot |
| BoardState.ChainTagsAt | Game/Game.h:246-247 | the steps of a capture chain are tagged 1, 2, ..., N |
| BoardState.ChainUndo | Game/Board.h:177-183 | one undo right after a chain of N tagged steps removes exactly those N entries, restoring both lists to their state before the chain |
| BoardState.StandaloneUndo | Game/Board.h:177-183 | one undo after a standalone move (tag 0) removes exactly that entry |
| BoardState.Board.MoveThenUndo | Game/Board.h:96-107 | a standalone move (tag 0) followed by one undo (lines 175-186) restores the matrix and both history lists |
| BoardState.Board.PlayChain | Game/Game.h:246-247 | plays a capture chain's steps, tagged 1, 2, ... as the game tags them, and stops at the first step the board refuses (ChainStops): every step made was accepted on the position before it and left the next position in `chain`; a refused step leaves only its captured cell cleared; the history gains exactly the positions and the tags of the steps made |
| BoardState.ChainPlayedAt | Game/Board.h:88-93 | in a played chain, step k was accepted on the position after step k-1 (the start for k = 0) and produced the position after step k |
| BoardState.ChainStopsFirst | Game/Game.h:246-247 | a chain whose first step the board accepts makes at least one step; this is what makes `PlayChain`'s contract demand actual play |
| BoardState.Board.ChainThenUndo | Game/Board.h:175-186 | a chain is played and then undone once. If its first step is accepted, at least one step is made, and the undo then restores the matrix and both history lists to their state before the chain. When no step is made, the history is unchanged |
| BoardState.Board.UndoChain | Game/Board.h:175-186 | one undo right after a chain of N steps tagged 1..N removes exactly its N entries from both lists and loads the position before the chain |

## Left out

- The bot search (minimax, alpha-beta pruning, chain replay) is not modelled. It is not defined in these sources: `find_best_turns` is only called from `Game/Game.h`, and `next_move` / `next_best_state` are never used.
- SDL rendering is not modelled: window management, textures, `rerender`, and the highlight and active-cell state. `drop_piece` and `turn_into_queen` are modelled without their redraw. `redraw` is modelled without resetting `game_results` and the highlights.
- `Game/Hand.h` (mouse input) and the game loop of `Game/Game.h` are not modelled. Only the chain-tag convention of `Game/Game.h` is modelled, in `ChainTags`.
- The configuration file and its JSON loader are not modelled. The scoring mode and the "NoRandom" flag are constructor parameters. The `optimization` setting only affects the bot search.
- `time(0)` is not modelled. It becomes the constructor parameter `clock`.
- Logic.Logic.Shuffle: only a permutation is promised. The standard library's `default_random_engine` and `std::shuffle` order is not reproduced. The model uses a minimal-standard Lehmer generator driving a Fisher-Yates pass.
- Logic.Logic.CalcScoreOf: does not model the floating-point arithmetic. Every count is kept in twentieths, so the 0.05-per-row bonus is a whole number. The final division is returned as a numerator/denominator pair (`Score`) instead of a `double`.
- Logic.Logic.CountMaterial: the tally is in twentieths of a man for the same reason.
- The integer width of `POS_T` is not modelled. Every index stays within -2..13: the man-capture loops exit at x + 6 and y + 6, and the man-step column loop exits at y + 3. No overflow occurs for an 8-bit or wider `POS_T`.
- The model follows the code where the written description of the system differs from it:
  - an undo on a one-entry history raises no error and only restores the matrix;
  - `move_piece(move_pos)` reports the board's two guard failures as `FinalNotEmpty` and `BeginEmpty`;
  - any scoring mode other than "NumberAndPotential" counts as `NumberOnly`.
- Rules.MakeTurnPromotion: it assumes the three squares of the move are distinct. On a degenerate move, `make_turn`'s writes overlap, and `MakeTurn` covers that case cell by cell.
- Codes outside 0..4 are excluded from the generators. The board's invariant keeps every cell in 0..4, and the generators require such a matrix; `MakeTurn` accepts any code. On these codes Dafny's `%` agrees with the C++ remainder.
