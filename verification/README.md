# Checkers rules engine, modelled in Dafny

This project models the rules engine of a small checkers (draughts) game.
The engine lives in `engine.py`: the 8x8 starting layout, promotion to king,
move legality and move application. Legal moves are one-square diagonal steps,
two-square jumps, and long-range ("flying") king captures along a diagonal.
The engine also lists the captures available from a square, tests whether a
player has any move, counts pieces and scores them, and detects draws.

A second, simpler set of rules in `game_engine/engine.py` is modelled as its own
module. It has no kings. It never examines the moved piece, so it checks
neither its owner nor its kind; the direction comes from the `player`
argument. It requires both squares to be dark. Its directions are
the reverse of the root engine's.

Every operation is a pure function of a board value. The Python code mutates a
list of lists of string tags in place. Here a board is a 64-cell sequence in
row-major order, and each cell is
`Empty | Man(color) | King(color)`. The test `piece in [player, player + 'K']`
becomes `OwnedBy`. The test `x != ' ' and x[0] != player` becomes
`HeldByOpponent`.

Files:

- `board.dfy` (module `Board`): colours, cells, the board type, reading and
  writing a square, and cell counting.
- `engine.dfy` (module `Engine`): `create_board`, `promote_to_king`,
  `is_valid_move`, `make_move`, `get_available_captures` and `has_any_moves`.
- `scoring.dfy` (module `Scoring`): `count_pieces`, `calculate_score` and
  `detect_draw`, plus the piece count of the starting layout.
- `replay.dfy` (module `Replay`): the board reconstruction of `replay_game`,
  without its printing.
- `game_engine.dfy` (module `GameEngine`): `create_board`, `is_valid_move` and
  `make_move` of `game_engine/engine.py`.
- `scenarios.dfy` (module `Scenarios`): worked positions, each stated as a
  lemma about the model.

Behaviour of the code that the model keeps as written:

- `is_valid_move` never consults other captures, so a capture is never
  mandatory: the availability of captures elsewhere never refuses a step;
  only capture mode does.
- `detect_draw` compares the number of *men*, not of all pieces, with 2. A
  board with five kings and two men is therefore a draw.
- `make_move` removes the first opponent piece on its walk towards the
  destination. It does so for any move of more than one row, legal or not.
  The walk stops as soon as either the row or the column reaches the
  destination. For a straight vertical move the column still steps left once
  per row (`step_c` is -1 when `ec == sc`), so the walk runs diagonally
  leftwards. From a column smaller than the distance minus one it runs off
  the left edge, and Python reads that negative index from the end of the
  row; `PyIndex` models that (`Scenarios.VerticalWalk`).
- Promotion overwrites the destination with the mover's king. It does not
  look at what the square held.
- In `game_engine/engine.py` Black moves towards row 0 but starts on rows
  0-2. On the starting board no Black man has a valid move
  (`GameEngine.BlackStuckAtStart`).
- `game_engine/engine.py` writes the mover's man (`player`) on the
  destination, not the moved piece. A move from an empty square is valid
  there and creates a piece.
- The code has no mandatory capture, puts Black (not Red) on rows 0-2, and
  its draw test counts men only; the model follows the code.

## Model

| member | source | states |
|---|---|---|
| Engine.CreateBoard | engine.py:3-18 | Black men on every dark square of rows 0-2, Red men on every dark square of rows 5-7, every other square empty |
| Scoring.InitialCounts | engine.py:3-18 | the starting layout holds exactly 12 Black men, 12 Red men and no kings |
| Engine.PromoteToKing | engine.py:28-32 | on row 7 for Black or row 0 for Red the square becomes the mover's king; on any other row the board is unchanged; no other square ever changes |
| Engine.PromoteIdempotent | engine.py:28-32 | promoting twice gives the same board as promoting once |
| Engine.PromoteKeepsKings | engine.py:28-32 | a square holding a king still holds a king after promotion |
| Engine.PathSquares | engine.py:91-99 | the k-th square the walk visits is k+1 rows from the origin towards the destination, strictly between the two rows; its column is k+1 steps towards the destination column, strictly between the two, or, when the columns are equal, k+1 steps to the left read the way Python reads a negative index; every square is on the board; on a diagonal the walk visits one square fewer than the distance |
| Engine.ScanRay | engine.py:65-82 | the flying-king scan accepts exactly when the squares between hold one opponent piece and nothing else |
| Engine.IsValidMove | engine.py:34-84 | an accepted move has both squares on the board, starts on the player's piece, ends on an empty square, is diagonal, has at least two rows in capture mode, and has at most two rows for a man |
| Engine.IsValidMoveMatchesRules | engine.py:34-84 | a move is accepted exactly when it is one of three shapes: a one-square step outside capture mode (a man only forward: Black +1, Red -1); a two-square jump over an opponent piece in any direction; or a king's diagonal flight of three or more squares over exactly one opponent and no other piece |
| Engine.CaptureModeOnlyBlocksSteps | engine.py:50-63 | a move is valid in capture mode exactly when it is valid in normal mode and spans at least two rows |
| Engine.FirstOpponent | engine.py:94-97 | returns the position of the first opponent piece in the list, or -1 when there is none |
| Engine.CapturedSquare | engine.py:90-99 | for a move of more than one row a square is captured exactly when the walk meets an opponent piece, and it is the first such square on the walk; it is on the board and lies on neither end row; a move of at most one row captures nothing |
| Engine.MakeMove | engine.py:86-104 | the log grows by exactly one entry holding the origin, the destination and the piece before promotion; the landing square is returned; the origin becomes empty; the destination holds the piece, or the mover's king on the far rank (a move onto its own square leaves it empty, or crowned on the far rank); the captured square becomes empty; every other square is unchanged |
| Engine.JumpPath | engine.py:90-99 | the walk of a two-row diagonal move visits exactly one square, the midpoint |
| Engine.ValidJumpHasCapture | engine.py:86-99 | a valid move of two or more rows always has a piece to capture |
| Engine.ValidCaptureRemovesOne | engine.py:86-104 | after a valid jump or flight the opponent has exactly one piece fewer and the mover has as many as before |
| Engine.ValidStepKeepsCounts | engine.py:86-104 | a valid one-square step changes neither side's piece count |
| Engine.MoveCounts | engine.py:86-104 | moving an own piece onto an empty square keeps the mover's piece count; the opponent's count drops by one exactly when a square is captured |
| Engine.PlaceCounts | engine.py:101-103 | moving an own piece onto an empty square and promoting it keeps both sides' piece counts |
| Engine.KingTargets | engine.py:109-114 | the king's candidate list holds exactly the diagonal offsets at distances 1 to 7 from the origin |
| Engine.KingTargetsDistinct | engine.py:109-114 | the king's candidate list never names a square twice |
| Engine.FilterCaptures | engine.py:113-119 | keeps exactly the candidates that are on the board and are valid captures, and keeps a duplicate-free list duplicate-free |
| Engine.CaptureTargetsCover | engine.py:106-120 | the candidate list for the piece on the square has no duplicates and contains every destination that is a valid capture |
| Engine.GetAvailableCaptures | engine.py:106-120 | the list holds exactly the on-board destinations that are valid captures from the square, each once |
| Engine.ScanColumns | engine.py:124-132 | the inner loop finds a movable piece in the remaining columns of a row exactly when one exists there |
| Engine.ScanRows | engine.py:123-133 | the outer loop finds a movable piece in the remaining rows exactly when one exists there |
| Engine.HasAnyMoves | engine.py:122-133 | true exactly when some piece of the player has a valid one-square diagonal step or a non-empty capture list |
| Engine.HasAnyMovesIffSomeValidMove | engine.py:122-133 | true exactly when some move at all is valid for the player |
| Scoring.CountPieces | engine.py:135-142 | each of the four counts is the number of squares holding that piece, and the four counts plus the empty squares add up to 64 |
| Scoring.CellsAccounted | engine.py:135-142 | the counts of the five cell contents add up to the number of cells |
| Scoring.CalculateScore | engine.py:144-148 | each side's score is at least its number of pieces |
| Scoring.ScoreIsMaterial | engine.py:144-148 | each side's score is the sum over the board of 1 per man and 3 per king of that side |
| Scoring.DetectDraw | engine.py:150-153 | a draw needs at least two kings in total |
| Scoring.DrawOnBoard | engine.py:150-153 | a board is a draw exactly when at least two squares hold kings and at most two squares hold men |
| Replay.ReplayStep | engine.py:158-161 | a replayed entry empties its origin, puts the logged piece on its destination, and changes nothing else |
| Replay.Snapshots | engine.py:158-162 | one board per entry; the first is the starting board with the first entry applied, and each later one is the board shown before it with the next entry applied |
| Replay.ReplayGame | engine.py:155-163 | one board per log entry; the first is the initial layout with the first entry applied, each later one the board shown before it with the next entry applied |
| Replay.ReplayGamePrefix | engine.py:155-163 | the i-th shown board is the initial layout with the first i+1 entries of the log replayed in order |
| Replay.ReplayMatchesQuietStep | engine.py:155-163 | for a valid one-square step that does not reach the far rank, replaying the logged entry gives the live board |
| Replay.ReplayMissesCapture | engine.py:155-163 | for a valid capture, the replayed board differs from the live one because it keeps the captured piece |
| Replay.ReplayMissesPromotion | engine.py:155-163 | when a man reaches the far rank, the replayed board differs from the live one, which has crowned it |
| Scenarios.OpeningSteps | engine.py:50-55 | from the starting position Black's man on (2,1) may step to (3,0) and (3,2), but not in capture mode and not on Red's behalf |
| Scenarios.ManJump | engine.py:106-120 | a Black man on (3,2) next to a Red man on (4,3) has exactly one capture, to (5,4), and the capture removes the Red man |
| Scenarios.VerticalWalk | engine.py:91-99 | the walk of a straight vertical move steps left once per row: from (1,7) to (4,7) it visits (2,6) and (3,5); from (5,0) to (2,0) it leaves the board and reads columns 7 and 6 |
| Scenarios.FlyingKing | engine.py:65-84 | a Black king on (2,2) with a Red man on (4,4) may land on (5,5) or (6,6); a second piece on (6,6) blocks (7,7) |
| GameEngine.CreateBoard | game_engine/engine.py:2-17 | the same starting layout as the root engine |
| GameEngine.IsValidMove | game_engine/engine.py:28-55 | an accepted move has both squares on the board and dark, ends on an empty square, and is either one row in the side's direction (Black -1, Red +1) and one column, or two rows in that direction and two columns over an occupied midpoint that is not the mover's man |
| GameEngine.ValidDestinations | game_engine/engine.py:28-55 | from a dark board square the accepted destinations are exactly the empty board squares among the two step targets (one row in the side's direction, one column either way), and among the two jump targets (two rows, two columns) those whose midpoint holds a piece other than the mover's man; the destination's darkness follows from the origin's; a light or off-board origin accepts nothing |
| GameEngine.NeverBackward | game_engine/engine.py:40-53 | a valid Black move decreases the row and a valid Red move increases it |
| GameEngine.IgnoresOrigin | game_engine/engine.py:33-38 | validity is the same whatever the origin square holds |
| GameEngine.BlackStuckAtStart | game_engine/engine.py:41-45 | on the starting board no Black man has a valid move |
| GameEngine.MakeMove | game_engine/engine.py:58-66 | the origin becomes empty; the destination holds the mover's man; for a two-row move the midpoint becomes empty; nothing else changes |
| GameEngine.MoveOccupancy | game_engine/engine.py:58-66 | after a valid move the number of occupied squares grows by one for the destination, drops by one for a jump, and drops by one more only when the origin held a piece |

## Left out

- `print_board`, the interactive loops and `__main__` of both files are
  console I/O. They are not modelled.
- The multi-capture chain, the turn toggling and the order of the game-over
  and draw tests live only in the interactive loop of `engine.py`. The model
  claims no engine-level turn enforcement.
- The printing and the "Press Enter" prompts of `replay_game` are left out.
  Only its board reconstruction is modelled.
- `gui.py` is rendering, sound, mouse mapping and undo stacks. It is not part
  of this model.
- `is_king` is the `King?` test of the `Cell` datatype and has no member of
  its own.
- Engine.MakeMove: requires both squares on the board. The Python code would raise
  an error for an index of 8 or more and read a negative index from the end
  of a row.
- Engine.PromoteToKing: requires the square on the board. Python's
  `promote_to_king` touches the board only on the far rank, but its only caller,
  `make_move`, passes the square it has just written (engine.py:101-103).
- Engine.GetAvailableCaptures: requires the origin on the board, for the same
  reason as `Engine.MakeMove`. engine.py only calls it on board squares.
- GameEngine.MakeMove: requires both squares on the board, for the same
  reason as `Engine.MakeMove`.
- Replay.ReplayStep: requires the entry's squares on the board. `make_move`
  logs its entry before it writes the board, so it can log an off-board move.
  The interactive loop calls `make_move` only on moves `is_valid_move`
  accepted or on listed captures (engine.py:189-193, 206-209), so every entry
  it logs is on the board.
- Scoring.CalculateScore: its own contract only bounds the score from below.
  The exact value is stated by `Scoring.ScoreIsMaterial`.
- Scoring.DetectDraw: its own contract states only the kings condition. The
  full condition is stated by `Scoring.DrawOnBoard`.
- Malformed string tags cannot occur, because `Cell` has only five values.
