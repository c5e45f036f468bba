# Caro (Gomoku) engine in Dafny

A verified model of the engine of a Caro/Gomoku game: an N x N board on
which two players, X and O, place stones until one of them has K in a row
(horizontally, vertically or on either diagonal); the game object that
keeps the history, the redo stack, the turn, the scores and the
end-of-game flags; and the computer player, which scores positions with an
open-ended-run heuristic, generates moves near the stones, and searches with
a depth-bounded alpha-beta minimax over the shared board, memoising
positions in a transposition table.

The model keeps the shape of the code. The board, the game and the AI are
classes whose methods update their fields in place; each method is proved
against a specification written as functions on values:

- `grid.dfy` (module `Grid`): cells, grids as `seq<seq<Cell>>`, placing a
  stone, the row-major list of empty cells, and the first line of K in the
  order the board's detector scans (rows, then columns, then the directions
  (0,1), (1,0), (1,1), (1,-1)).
- `boards.dfy` (module `Boards`): class `Board`.
- `game_spec.dfy` (module `GameSpec`): the game's state as a value, its four
  transitions as functions, the invariant they keep, and the undo/redo round
  trip.
- `games.dfy` (module `Games`): class `Game`, each method proved to move the
  object exactly as the matching transition says.
- `heuristic.dfy` (module `Heuristic`): the heuristic score as a function.
- `candidates.dfy` (module `Candidates`): the set of moves the search tries.
- `search_spec.dfy` (module `SearchSpec`): bounds with infinities, the best
  child value and the first child attaining it, the alpha-beta window, and
  the soundness of the transposition table.
- `minimax_spec.dfy` (module `MinimaxSpec`): what one call of the search
  returns, case by case, with each searched child's value tied to the
  search of that child by the same relation, and so on down to the leaves
  of the search tree; and the fact that every value the search returns or
  caches is a line score or the evaluation of a reachable position.
- `ai.dfy` (module `AI`): class `CaroAI`.

A finished game has a winner or a full board, and possibly both: a winning
stone on the last empty cell sets the winner on a full board. The invariant
`GameSpec.Inv` states the inclusive "or", as the code behaves, not an
exclusive one.

Termination of the search is proved by the number of empty cells, not by
the depth: every child position has one more stone. A call with a negative
depth never meets `depth == 0` but still ends once the board fills up.

The transposition table is keyed by the grid contents only. A cached entry
is returned whatever the depth, the side to move and the window of the
call that finds it. `AI.CaroAI.Minimax` states this as it is.

## Model

| member | source | states |
|---|---|---|
| Grid.Opponent | src/game.py:40 | the player to move after a non-final move is the other one |
| Grid.EmptyGrid | src/board.py:8 | an N x N grid with every cell empty |
| Grid.Place | src/board.py:22 | writing one cell changes that cell and no other, and keeps the grid N x N |
| Grid.PlaceThenClear | src/board.py:20-29 | a stone put on an empty cell and then taken back leaves the grid exactly as before |
| Grid.ClearThenPlace | src/board.py:27-28 | emptying an occupied cell and putting its stone back leaves the grid exactly as before |
| Grid.PlaceShrinksEmptyCells | src/board.py:20-24 | a stone on an empty cell removes exactly that cell from the empty cells, so there is one fewer |
| Grid.ValidMoves | src/board.py:31-37 | the list holds exactly the in-range empty cells, in strictly increasing row-major order, so each once |
| Grid.FullIffNoValidMoves | src/board.py:31-40 | the board is full exactly when the list of empty cells is empty |
| Grid.FirstLineSpec | src/board.py:42-60 | the scan finds a line exactly when some cell and direction give K consecutive in-range cells of the player, and the line it finds is the first such in row, column, direction order |
| Grid.FirstLine | src/board.py:42-60 | a sequence the scan records has exactly K cells, and K is at least 1 |
| Grid.FirstLineIsLine | src/board.py:42-60 | a sequence the scan records is a line of K of the player on the grid, listed from its first cell along its direction |
| Grid.FirstLineShape | src/board.py:49-59 | a found line has exactly K cells, all the player's, one constant step apart |
| Grid.LineSurvivesPlace | src/game.py:27-35 | a line of K stays a line when a stone is added on an empty cell |
| Grid.IsLineSurvivesPlace | src/game.py:27-35 | a recorded line of K stays a line with the same cells when a stone is added on an empty cell |
| Grid.LineAtSurvivesPlace | src/game.py:27-35 | the K cells of a line from a given start and direction stay the player's when a stone is added on an empty cell |
| Boards.Board.constructor | src/board.py:4-10 | a new board (size 10 and K = 5 by default) is N x N and empty, with no last move and no winning sequence |
| Boards.Board.Reset | src/board.py:12-15 | every cell empty, no last move, empty winning sequence |
| Boards.Board.IsValidMove | src/board.py:17-18 | a move is valid exactly when the cell is in range and empty, that is, when it is one of the empty cells listed by GetValidMoves |
| Boards.Board.MakeMove | src/board.py:20-25 | on a valid cell it puts the stone there and only there, records the last move and reports true; otherwise it reports false and changes nothing |
| Boards.Board.UndoMove | src/board.py:27-29 | the cell becomes empty, nothing else on the grid changes, the last move is cleared and the winning sequence is kept |
| Boards.Board.GetValidMoves | src/board.py:31-37 | exactly the empty cells, each once, in row-major order |
| Boards.Board.IsFull | src/board.py:39-40 | full exactly when GetValidMoves returns no move |
| Boards.Board.ForwardRun | src/board.py:49-57 | the run from a stone reaches K cells exactly when there is a line of K from that stone in that direction, and then it is that line's cells |
| Boards.Board.CheckWin | src/board.py:42-60 | true exactly when the first line in scan order exists; it is then recorded as the winning sequence, which is otherwise unchanged |
| GameSpec.ReplayOccupancy | src/game.py:26-31 | on the grid replayed from a history, every entry's cell holds its player's stone, and the occupied cells are exactly the cells the history names |
| GameSpec.ReplayAppend | src/game.py:27-28 | appending a legal move to the history appends its stone to the replayed grid |
| GameSpec.InvHistoryOccupied | src/game.py:44-47 | in every reachable state each history cell is in range and holds that entry's stone |
| GameSpec.InitialInv | src/game.py:5-15 | a new game satisfies the invariant: move count equals history length, the grid is the replay of the history, a winner has a line and ends the game, a finished game has a winner or a full board |
| GameSpec.Settle | src/game.py:32-40 | the end-of-game check leaves the grid, last move, history, redo stack and move count as they were |
| GameSpec.SettleOutcome | src/game.py:32-40 | a line of the mover finishes the game with the mover as winner, records a line of the mover and adds one to the mover's score; otherwise a full board finishes it with no winner; otherwise only the turn passes to the other player |
| GameSpec.MakeMoveStep | src/game.py:26-42 | succeeds exactly on an in-range empty cell, then puts the current player's stone there, appends the move to the history, empties the redo stack and counts one more move, and a game in progress is then finished exactly when the mover has a line or the board is full; a failed move changes nothing |
| GameSpec.UndoStep | src/game.py:44-56 | succeeds exactly when there is history; the last entry then moves onto the redo stack, its cell is empty, its player is to move, the game is in progress with no winner, and the scores are kept; otherwise nothing changes |
| GameSpec.RedoStep | src/game.py:58-77 | pops the redo stack whenever it is not empty; succeeds exactly when the popped move's cell is in range and empty, and then places that move's stone, appends it to the history and counts one more move; otherwise nothing but the stack changes |
| GameSpec.ResetStep | src/game.py:17-24 | the state of a new game with the scores carried over |
| GameSpec.SettleInv | src/game.py:32-40 | the end-of-game check after a stone keeps the invariant |
| GameSpec.MakeMoveInv | src/game.py:26-42 | make_move keeps the invariant, whether it succeeds or not |
| GameSpec.UndoInv | src/game.py:44-56 | undo keeps the invariant |
| GameSpec.RedoInv | src/game.py:58-77 | redo keeps the invariant, including when the popped move's cell is taken |
| GameSpec.ResetInv | src/game.py:17-24 | reset keeps the invariant and the scores |
| GameSpec.SettleSettled | src/game.py:32-40 | after the end-of-game check the turn and flags agree with the last move: a line wins for its player, else a full board is a draw, else the other player moves |
| GameSpec.MakeMoveSettled | src/game.py:26-41 | a successful move in a game in progress leaves turn and flags agreeing with that move's outcome |
| GameSpec.MakeMoveKeepsSettled | src/game.py:26-42 | every successful move keeps turn and flags agreeing with the last move, including a move after the game has finished, which only the winner can make and which keeps the winner's line |
| GameSpec.UndoThenRedo | src/game.py:44-77 | from any reachable state with history, undo then redo both succeed, and the result is the end-of-game check of the position before the undo with the undone move's player to move and the flags cleared |
| GameSpec.SettleRestores | src/game.py:32-40 | in a state whose turn and flags agree with the last move, repeating the end-of-game check for that move gives back the grid, history, redo stack, count, turn and flags, and scores the move once more exactly when it wins |
| GameSpec.UndoRedoRoundTrip | src/game.py:44-77 | undo then redo both succeed and give back the grid, history, redo stack, move count, turn, finished flag and winner; the scores gain one for the mover exactly when the redone move wins |
| Games.Game.constructor | src/game.py:5-15 | a new game (size 10 and K = 5 by default): empty board, empty history and redo stack, X to move, scores 0 and 0, count 0, not finished, no winner |
| Games.Game.Reset | src/game.py:17-24 | board, history, redo stack, turn, count and flags are reset, the scores are kept, and the invariant holds |
| Games.Game.MakeMove | src/game.py:26-42 | the new state is the one the make_move transition gives (move appended, redo stack dropped, count up, win checked before full board, turn passed only otherwise; an illegal move changes nothing), and the invariant holds |
| Games.Game.Conclude | src/game.py:32-40 | a line of the mover wins and scores for the mover, else a full board is a draw, else the other player moves next |
| Games.Game.Undo | src/game.py:44-56 | the new state is the one the undo transition gives (last entry popped and pushed on the redo stack, its cell emptied, its player to move, count down, flags cleared, scores kept; nothing on an empty history), and the invariant holds |
| Games.Game.Redo | src/game.py:58-77 | the new state is the one the redo transition gives (replayed like a new move of its player if the cell is empty; otherwise dropped from the redo stack with nothing else changed; nothing on an empty stack), and the invariant holds |
| Games.Game.GetValidMoves | src/game.py:79-80 | exactly the empty cells of the board, in row-major order |
| Games.Game.GetWinningSequence | src/game.py:82-83 | while the game has a winner, the sequence is a line of K of the winner's stones on the current board |
| Heuristic.Probe | src/ai.py:25-39 | one direction of the walk from a stone reports at most one open end |
| Heuristic.ProbeSpec | src/ai.py:26-39 | the walk counts exactly the consecutive stones of the player from the given step on, stops at the first cell that is not one, and reports an open end exactly when that cell is in range and empty |
| Heuristic.ProbeIsMaximal | src/ai.py:26-39 | if the first n steps are all the player's stones, the walk counts at least n |
| Heuristic.RunLength | src/ai.py:23-39 | the run through a stone counts at least the stone itself |
| Heuristic.OpenEnds | src/ai.py:24-39 | a run has at most two open ends |
| Heuristic.Tier | src/ai.py:40-49 | the run scores one of 100000, 10000, 1000, 100, 10, 0; 100000 exactly when the run reaches K; any lower positive score needs both ends open and a run one to four short of K |
| Heuristic.CellScore | src/ai.py:20-21 | a cell without the player's stone adds nothing, and no cell adds a negative amount |
| Heuristic.Score | src/ai.py:15-50 | count_sequences is never negative |
| Heuristic.Evaluation | src/ai.py:13-51 | the evaluation lies between minus the opponent's score and the AI's own score, and is 0 when both sides are the same player |
| Heuristic.NoStonesScoreZero | src/ai.py:18-21 | a player with no stone on the board scores 0 |
| Heuristic.EmptyBoardEvaluatesZero | src/ai.py:13-51 | the empty board evaluates to 0 |
| Heuristic.LineRun | src/ai.py:23-39 | a stone that starts a line of K has a run of at least K in that direction |
| Heuristic.LineScoresTopTier | src/ai.py:40-41 | a player with a line of K scores at least 100000 |
| Candidates.NearCells | src/ai.py:96-104 | the scan around the stones yields exactly the in-range empty cells within two rows and two columns of some stone |
| Candidates.CandidateSet | src/ai.py:94-107 | every move the search considers is an in-range empty cell, and every empty cell within two rows and columns of a stone is considered |
| Candidates.CandidatesNonEmpty | src/ai.py:96-107 | there is a move to consider exactly when the board is not full |
| Candidates.NoStonesAllCandidates | src/ai.py:105-106 | on a board with no stone every empty cell is considered |
| Candidates.NoNearCellsIff | src/ai.py:105-106 | the fallback to every empty cell happens exactly when the board has no stone or no empty cell |
| SearchSpec.Max | src/ai.py:74 | the larger of two bounds, infinities included |
| SearchSpec.Min | src/ai.py:88 | the smaller of two bounds, infinities included |
| SearchSpec.Best | src/ai.py:71-73 | the value kept after the children is one of their values and the maximum (maximiser) or the minimum (minimiser) |
| SearchSpec.BestIndex | src/ai.py:71-73 | the kept move's child attains the kept value |
| SearchSpec.BestSnoc | src/ai.py:85-87 | one more child changes the kept value and move exactly when it is strictly better, so the kept move is the first attaining the best value |
| SearchSpec.FirstIndexPast | src/ai.py:71-73 | a value seen for the first time is first attained at its own position |
| SearchSpec.FirstIndexKept | src/ai.py:85-87 | a value already seen keeps its first position |
| SearchSpec.Window | src/ai.py:74-75 | the maximiser only raises alpha and the minimiser only lowers beta, to at least (at most) every child value |
| SearchSpec.OpenPrefixesSnoc | src/ai.py:75-76 | the loop goes on to a next child only while the window stays open |
| SearchSpec.FinishedOutcome | src/ai.py:71-78 | once every move is searched or the window has closed, the running best, move and window give the search outcome over the values seen |
| SearchSpec.GrownStore | src/ai.py:77 | storing the position's own entry keeps the older entries and adds only reachable positions |
| SearchSpec.ExtendsPlace | src/ai.py:68-70 | a position reachable after a move is reachable before it |
| AI.CaroAI.constructor | src/ai.py:6-11 | the fields take the given values (defaults O, X, 2, 2.0) and the table starts empty |
| AI.CaroAI.Walk | src/ai.py:26-39 | the while loop of one direction computes the walk of the heuristic |
| AI.CaroAI.RunAt | src/ai.py:22-39 | the two directions give the run length and open ends of the heuristic |
| AI.CaroAI.StoneScore | src/ai.py:22-49 | the four directions and the tier chain give the cell's heuristic score |
| AI.CaroAI.RowSequences | src/ai.py:19-49 | one row's loop gives the row's heuristic score |
| AI.CaroAI.CountSequences | src/ai.py:15-50 | count_sequences computes the player's heuristic score |
| AI.CaroAI.Evaluate | src/ai.py:13-51 | evaluate is the AI's score minus the opponent's |
| AI.CaroAI.AddNear | src/ai.py:100-104 | the 5 x 5 scan adds exactly the in-range empty cells near that stone |
| AI.CaroAI.ListOf | src/ai.py:107 | the list has exactly the set's elements, each once |
| AI.CaroAI.SmartMoves | src/ai.py:94-107 | exactly the candidate moves, each once; the row-major list of empty cells when no empty cell is near a stone |
| AI.CaroAI.Minimax | src/ai.py:53-92 | the grid is left as it was; a returned move is a candidate; in order, a cached position returns its entry with the table unchanged, a line of the AI gives (100000, None), of the opponent (-100000, None), a full board or depth 0 gives (evaluation, None), an expired clock gives (evaluation, None), and none of these touches the table; otherwise the moves are exactly the candidates, each child value is what searching that child one level shallower, with the other side to move and the window left by the earlier children, returned, by this same relation and so on down the whole search tree, the result is the best of them with the first move attaining it, the loop stops only on a closed window, and the table after the call is the one the last child left with the result stored under the position; older entries are kept |
| AI.CaroAI.Expand | src/ai.py:63-92 | a searched position gets a candidate move, the search outcome over exactly the candidate moves, each child value being the outcome of searching that child, recursively down to the leaves; the table is the one the last child left with this position's entry added |
| AI.CaroAI.Search | src/ai.py:64-90 | the loop over moves returns the best of the child values and the first move attaining it, stops early only when beta <= alpha, and leaves the grid as it was; the t-th value is what searching the t-th child returned in the window the first t values leave, with that child's own children tied the same way down to the leaves, the table passes from child to child, and the table returned is the one the last child left |
| AI.CaroAI.SearchChild | src/ai.py:67-76 | one pass of the loop body: the next child is searched and recorded, and the loop state (table grown, running best and window, child outcomes) extends by that child, whose value is the outcome of the whole search below it |
| MinimaxSpec.LeafChildValue | src/ai.py:55-62 | a child searched at depth 0 is a legal move and its value is its cached value, else 100000 for a line of the AI, else -100000 for a line of the opponent, else its evaluation; the table is left as it was |
| MinimaxSpec.TraceSnoc | src/ai.py:67-76 | adding the outcome of the next child, searched in the window of the values before it, extends the record of child outcomes |
| MinimaxSpec.SearchingSnoc | src/ai.py:67-76 | one more child keeps the loop state: the table has only grown, the running best and window match the values, and each value is its child's outcome |
| MinimaxSpec.SearchingDone | src/ai.py:75-92 | when the loop ends, by running out of moves or by a closed window, the running best and move are the search outcome, every child value is its child's outcome, and the current table is the last one of the trace |
| MinimaxSpec.OutcomeValues | src/ai.py:53-92 | whatever the depth, window and clock, the value a search returns and every value in the table after it are 100000, -100000 or the evaluation of a position reachable from the root, provided the table held only such values before: the search never invents a value |
| MinimaxSpec.TraceValues | src/ai.py:67-77 | the first u children of a search produce only such values and leave only such values in the table |
| SearchSpec.PlaceExtends | src/ai.py:68 | a stone on an empty cell of a position reachable from the root gives a position reachable from the root |
| AI.CaroAI.RecordChild | src/ai.py:71-76 | after each child the kept value, kept move and window are those of the children seen so far |
| AI.CaroAI.TryMove | src/ai.py:67-70 | playing a move, searching below it and taking it back leaves the grid as it was, only adds reachable positions to the table, and returns the value the search of the child position gives: its cached value, 100000 or -100000 for a line, or its evaluation at depth 0 or on a full board or when the clock has run out, else the best of its own children's values, each again the outcome of searching that grandchild, down to the leaves |
| AI.CaroAI.GetMove | src/ai.py:109-123 | on a board that is not full the move is an in-range empty cell; "hard" sets depth 4 and 3.0 s, other non-easy levels depth 2 and 1.0 s, "easy" changes no setting; non-easy calls start from an emptied table, so every cached position is reachable from the current one; on a non-easy level the move is the move the search from the emptied table, at the set depth with an open window and the AI maximising, returned, whenever that search returned one |
| AI.CaroAI.RandomValidMove | src/ai.py:111 | a pick among the valid moves is an in-range empty cell |

## Left out

- The text and Textual user interfaces, the command-line launchers, and running the AI in a background thread: presentation and concurrency, not engine logic.
- Player marks are the two values X and O, not arbitrary strings; the empty cell is a separate constructor instead of the string `' '`.
- The wall-clock budget of the search: `time.time()` is not modelled. Whether the budget has run out is an arbitrary boolean chosen afresh at every node, so every contract holds whatever the clock says. The time limit is only stored.
- `random.choice`: modelled as an arbitrary pick among the valid moves. `AI.CaroAI.GetMove` and `AI.CaroAI.RandomValidMove` require a board that is not full, because the code raises an error on an empty list there.
- The floating-point infinities that start alpha, beta and the running best are the `ExtInt` values `NegInf` and `PosInf`; no floating-point arithmetic is involved.
- AI.CaroAI.Minimax: states what happens to the grid and the table, not to `last_move` and `winning_sequence`, which the search's `check_win` and `undo_move` overwrite.
- AI.CaroAI.Search: each child value is tied to the search of that child by the recursive relation `MinimaxSpec.Outcome`, not to a function computing a minimax value: the arbitrary clock, the arbitrary order of the candidates and the shared table make the value depend on more than the position.
- AI.CaroAI.SmartMoves: the candidate list is in an arbitrary order standing for the iteration order of a Python set, which the code does not control. Ties between equally good moves go to the first in that order, so the chosen move among equals is not determined by the model.
- Boards.Board.UndoMove: requires an in-range cell, where the code would index the lists with any integer (wrapping round for negative ones). The game only undoes cells from its history, which are in range.
- GameSpec.UndoRedoRoundTrip: stated for states whose turn and flags agree with the last move. Every move keeps that agreement (`GameSpec.MakeMoveKeepsSettled`), even one made after the game has finished, which the game does not stop. Undoing such a post-finish move breaks it. For example, with K = 1, X wins, X moves again, and the undo leaves X with a line while `finished` is false. An undo and redo from that state would set `finished`, so the round trip does not give that state back.
- Games.Game.GetWinningSequence: states nothing when there is no winner; after an undo the recorded line is kept and may no longer be on the board.
