# Sudoku engine, modelled in Dafny

This project models the engine of a browser Sudoku game and proves properties
of the model. The engine has three parts:

- **The validator** (`src/utils/sudokuValidator.jsx`). `isValidMove` scans a
  row, a column and a 3×3 box, and leaves the queried cell out of each scan.
  `isPuzzleComplete` holds when the board is full and every cell passes
  `isValidMove`. `getEmptyCells` lists the empty cells. Module `Validator`
  (`validator.dfy`) defines each of these as a function on grid values. Each
  is tied to a reference definition: a conflict with a peer cell, each row,
  column and box being a permutation of 1..9, or the set of empty cells.
- **The generator and the carver** (`src/utils/sudokuGenerator.jsx`, and the
  inline copy in `src/components/SudokuApp.jsx`).
  - `fillBoard` is a backtracking search that writes into the board and
    resets cells as it backtracks. Module `Generator` (`generator.dfy`)
    models it as `FillBoard`, a method over an `array2<int>`. That method is
    proved equal to `Fill`, a search function on grid values.
  - `Fill` is shown sound. Any success leaves no 0 and keeps the cells it
    started with (`FillShape`), and a failure changes nothing. Started from a
    conflict-free board of digits, with candidate lists of digits 1..9, a
    success is a complete board (`FillSound`). A board that is already full
    counts as a success as it stands, conflicts and all, as in the code.
    `Fill` is also shown complete: when every candidate list is a
    permutation of 1..9, the search from the empty board always succeeds.
  - `createPuzzle`'s carving loop is the method `RemoveCells`, which blanks
    cells of the array in place.
- **The game session** (`src/hooks/useGameState.jsx`, and the inline copy in
  `src/components/SudokuApp.jsx`). Module `GameLogic` (`session.dfy`)
  defines the state record and one pure transition per action, and proves
  the lemmas that relate actions:
  - undo after input, and redo after undo;
  - the hint budget;
  - which keys do what;
  - the invariant that no action ever overwrites a given cell.

  Module `GameState` holds the class `Game`. Its fields are the hook's state
  fields, its methods update them in place, and each method is specified by
  the matching `GameLogic` transition.

Small helpers (`sudoku/src/utils/gameHelpers.jsx`) are in module
`GameHelpers` (`helpers.dfy`): time formatting, board cloning, arrow-key
navigation and cell equality. The constants of
`sudoku/src/constants/gameConstants.js` are written out where they are used:
board 9, box 3, at most 5 hints, and 35/45/55 cells removed.

Randomness is an input. `fillBoard`'s shuffled candidate lists are a function
`order` from the visit number to a list. `createPuzzle`'s random coordinates
are a sequence `samples` of drawn cells.

Where the two session copies differ in code but not in effect:
- The app writes through a shallow `[...board]`. Each row of the new board is
  the same array as the current board's row, so its completion check reads
  the board after the write, as the hook's `isPuzzleComplete(newBoard)` does.
- The history snapshot is deep-copied before that write.

So boards are modelled as values for both copies.

The app's copies are modelled by the same members as the originals:
- `generateCompleteSudoku` (`src/components/SudokuApp.jsx`, lines 10-59) by `Generator.GenerateCompleteSudoku`, with its `isValid` (lines 13-34) by `Generator.CanPlace`.
- `fillBoard` (lines 36-55) by `Generator.FillBoard`.
- `createPuzzle` (lines 62-87) by `Generator.CreatePuzzle`.
- `initializeGame` (lines 112-139) by `GameLogic.Initialize`.
- `addToHistory` (lines 185-190) by `GameLogic.AddToHistory`.
- `isValidMove` (lines 193-214) by `Validator.IsValidMove`.
- `handleKeyPress` (lines 217-250) by `GameLogic.HandleKeyPress` and `GameState.Game.HandleKeyPress`.
- `handleCellClick` (lines 261-263) by `GameLogic.SelectCell`.
- `handleNumberClick` (lines 265-295) by `GameLogic.InputNumber`.
- `handleClear` (lines 297-307) by `GameLogic.ClearCell`.
- `handleUndo` and `handleRedo` (lines 309-321) by `GameLogic.Undo` and `GameLogic.Redo`.
- `handleHint` (lines 323-336) by `GameLogic.UseHint`.
- `startNewGame` (lines 338-360) by `GameState.Game.StartNewGame`.
- `resetCurrentGame` (lines 362-371) by `GameLogic.ResetGame`.
- `handlePlayPause` (lines 373-375) by `GameLogic.ToggleTimer`.

## Model

| member | source | states |
|---|---|---|
| Validator.RowHas | src/utils/sudokuValidator.jsx:6-8 | the row scan reports a match exactly when some other column of the row holds the value |
| Validator.ColumnHas | src/utils/sudokuValidator.jsx:11-13 | the column scan reports a match exactly when some other row of the column holds the value |
| Validator.BoxHas | src/utils/sudokuValidator.jsx:16-22 | the box scan reports a match exactly when some other cell of the box with corner (3⌊r/3⌋, 3⌊c/3⌋) holds the value |
| Validator.ConflictScanned | src/utils/sudokuValidator.jsx:4-25 | a peer holding the value is found by one of the three scans |
| Validator.ScannedConflict | src/utils/sudokuValidator.jsx:4-25 | anything the scans find is a peer holding the value |
| Validator.IsValidMove | src/utils/sudokuValidator.jsx:4-25 | the move is valid exactly when no other cell of the row, column or box holds the value |
| Validator.SelfExcluded | src/utils/sudokuValidator.jsx:7-20 | the value already at the queried cell never affects the answer there |
| Validator.ConflictSymmetric | src/utils/sudokuValidator.jsx:4-25 | two peers with the same value each fail `isValidMove` with it |
| Validator.ValidMovesConflictFree | src/utils/sudokuValidator.jsx:28-37 | if every cell passes `isValidMove`, no cell has a peer holding its value |
| Validator.IsPuzzleComplete | src/utils/sudokuValidator.jsx:28-37 | a complete board has no cell with a peer holding the same value |
| Validator.IncompleteWithEmptyCell | src/utils/sudokuValidator.jsx:30-31 | a board with an empty cell is never complete |
| Validator.CompletePeersDiffer | src/utils/sudokuValidator.jsx:28-37 | on a complete board any two peers differ |
| Validator.CompleteIffPeersDiffer | src/utils/sudokuValidator.jsx:28-37 | complete exactly when full and all peers differ |
| Validator.DigitPermutationCovers | src/utils/sudokuValidator.jsx:28-37 | nine distinct digits of 1..9 contain every digit |
| Validator.RowPermutation | src/utils/sudokuValidator.jsx:28-37 | on a full board of digits whose peers differ, each row is a permutation of 1..9 |
| Validator.ColumnPermutation | src/utils/sudokuValidator.jsx:28-37 | the same for each column |
| Validator.BoxPermutation | src/utils/sudokuValidator.jsx:28-37 | the same for each box |
| Validator.SolvedPeersDiffer | src/utils/sudokuValidator.jsx:28-37 | if every row, column and box is a permutation, any two peers differ |
| Validator.CompleteIffSolved | src/utils/sudokuValidator.jsx:28-37 | on digits, `isPuzzleComplete` holds exactly when every row, column and box is a permutation of 1..9 |
| Validator.EmptyCellsFrom | src/utils/sudokuValidator.jsx:42-48 | from position k on, the listed cells are exactly the empty ones, in strictly increasing row-major order |
| Validator.EmptyCells | src/utils/sudokuValidator.jsx:40-50 | `getEmptyCells` lists exactly the cells holding 0, in row-major order |
| Validator.EmptyCellsDistinct | src/utils/sudokuValidator.jsx:40-50 | no cell is listed twice |
| Validator.EmptyCellsNonEmpty | src/utils/sudokuValidator.jsx:40-50 | a board that is not full has an empty cell in the list |
| Generator.RemovalCount | src/utils/sudokuGenerator.jsx:62 | the count is 35 exactly for "easy", 55 exactly for "hard", and one of 35/45/55 for every name |
| Generator.RemovalCounts | src/utils/sudokuGenerator.jsx:62 | easy/medium/hard remove 35/45/55 cells, and any other name falls back to 45 |
| Generator.CanPlace | src/utils/sudokuGenerator.jsx:9-30 | `isValid` holds exactly when the value is nowhere in the row, column or box, the cell itself included |
| Generator.CanPlaceIsValidMove | src/utils/sudokuGenerator.jsx:9-30 | `isValid` is `isValidMove` plus "the cell does not already hold the value" |
| Generator.ZeroNeverPlaceable | src/utils/sudokuGenerator.jsx:35-38 | 0 is never accepted on an empty cell |
| Generator.Fill | src/utils/sudokuGenerator.jsx:32-51 | a failed search returns the grid it started from |
| Generator.Try | src/utils/sudokuGenerator.jsx:37-46 | a candidate loop that fails leaves the grid unchanged |
| Generator.Attempt | src/utils/sudokuGenerator.jsx:38-44 | a failed recursion resets the written cell |
| Generator.FillShape | src/utils/sudokuGenerator.jsx:32-51 | a successful search leaves no 0 and keeps every cell that was filled at the start |
| Generator.TryShape | src/utils/sudokuGenerator.jsx:37-46 | the same for the candidate loop |
| Generator.AttemptShape | src/utils/sudokuGenerator.jsx:38-44 | the same for one candidate, which also stays in its cell |
| Generator.PlaceKeepsConflictFree | src/utils/sudokuGenerator.jsx:38-39 | writing a value `isValid` accepts keeps every filled cell conflict-free |
| Generator.PlaceShrinksZeroCells | src/utils/sudokuGenerator.jsx:39-40 | each write removes exactly one empty cell, so the recursion is bounded |
| Generator.FullConflictFreeIsComplete | src/utils/sudokuGenerator.jsx:50 | a full, conflict-free board is complete |
| Generator.FillSound | src/utils/sudokuGenerator.jsx:32-51 | with candidates that are digits 1..9, the search keeps the board made of digits and conflict-free |
| Generator.TrySound | src/utils/sudokuGenerator.jsx:37-46 | the same for the candidate loop |
| Generator.AttemptSound | src/utils/sudokuGenerator.jsx:38-44 | the same for one candidate |
| Generator.SolutionValuePlaceable | src/utils/sudokuGenerator.jsx:38 | the value a solution has at an empty cell is always accepted there |
| Generator.FillComplete | src/utils/sudokuGenerator.jsx:32-51 | if the grid extends to a complete board and every candidate list is a permutation, the search succeeds |
| Generator.TryComplete | src/utils/sudokuGenerator.jsx:37-46 | the candidate loop succeeds when the solution's value is still ahead in the list |
| Generator.AttemptComplete | src/utils/sudokuGenerator.jsx:38-44 | writing the solution's value leads to success |
| Generator.PatternComplete | src/utils/sudokuGenerator.jsx:4-7 | the shifted-rows pattern is a complete board, so the empty board has a solution |
| Generator.GenerationSucceeds | src/utils/sudokuGenerator.jsx:53 | with shuffled candidate lists, the search from the empty board always succeeds |
| Generator.FirstEmpty | src/utils/sudokuGenerator.jsx:33-35 | the scan finds the first empty cell in row-major order, or reports the board full |
| Generator.FillBoard | src/utils/sudokuGenerator.jsx:32-51 | the in-place search returns the result and the board of `Fill` on the entry board |
| Generator.PlaceAndRecurse | src/utils/sudokuGenerator.jsx:38-44 | write, recurse, and reset on failure, as `Attempt` |
| Generator.GeneratedIsComplete | src/utils/sudokuGenerator.jsx:4-55 | `generateCompleteSudoku` yields a complete board of digits |
| Generator.GenerateCompleteSudoku | src/utils/sudokuGenerator.jsx:4-55 | the fresh board is the one `Fill` produces from the empty board |
| Generator.RemoveCells | src/utils/sudokuGenerator.jsx:63-73 | the blank cells are exactly the distinct draws up to the stop, there are exactly `toRemove` of them, and every other cell keeps its value |
| Generator.CreatePuzzle | src/utils/sudokuGenerator.jsx:58-76 | the solution is complete; the puzzle is a separate array, has exactly `RemovalCount(difficulty)` blanks, and agrees with the solution on every other cell |
| GameHelpers.FormatTime | sudoku/src/utils/gameHelpers.jsx:2-6 | the text has at least five characters with ':' third from the end, and exactly five below 6000 seconds |
| GameHelpers.FormatTimeRoundTrip | sudoku/src/utils/gameHelpers.jsx:2-6 | the text is minutes, ':', then two digits of seconds below 60, which add back up to the input |
| GameHelpers.FormatTimeShape | sudoku/src/utils/gameHelpers.jsx:2-6 | below 6000 seconds the text is exactly MM:SS |
| GameHelpers.ParseNatToString | sudoku/src/utils/gameHelpers.jsx:5 | the decimal text of a number reads back as that number |
| GameHelpers.PadStart2Value | sudoku/src/utils/gameHelpers.jsx:5 | padding with '0' to two characters keeps the value |
| GameHelpers.CloneBoard | sudoku/src/utils/gameHelpers.jsx:9-11 | a fresh board with the same dimensions and cells |
| GameHelpers.GetNavigationCoords | sudoku/src/utils/gameHelpers.jsx:19-41 | Up, Down, Left and Right move one step the named way; the move stays on the board, clamped at the edge it would leave; unknown directions keep the cell |
| GameHelpers.AreCellsEqual | sudoku/src/utils/gameHelpers.jsx:44-47 | true exactly when both cells are present and at the same position |
| GameHelpers.AreCellsEqualSymmetric | sudoku/src/utils/gameHelpers.jsx:44-47 | the comparison is symmetric |
| GameLogic.HintsRemaining | src/hooks/useGameState.jsx:210 | between 0 and 5, 0 exactly when all hints are used, and remaining plus used is always 5 |
| GameLogic.NewSession | src/hooks/useGameState.jsx:160-177 | a new game: board and original board are the puzzle, nothing to undo or redo, all hints left, timer 0, nothing selected, not running and not finished |
| GameLogic.OrNumber | src/hooks/useGameState.jsx:20-24 | JavaScript `||` on a stored number: a missing value or 0 gives the default |
| GameLogic.Save | src/hooks/useGameState.jsx:55-71 | the auto-saved record holds the board, the history and the index as they are |
| GameLogic.Restore | src/hooks/useGameState.jsx:15-25 | the stored boards come back as they are; nothing selected, running or finished; undo is possible exactly when the stored index is positive; a missing timer or hint count reads as 0 |
| GameLogic.Initialize | src/hooks/useGameState.jsx:12-39 | a missing or finished stored game gives a new session; nothing starts selected, running or finished |
| GameLogic.SaveRestore | src/hooks/useGameState.jsx:23 | restoring a saved session gives it back, except that the selection and the running flag are cleared and a stored index 0 becomes -1, which loses the one undo step |
| GameLogic.AddToHistory | src/hooks/useGameState.jsx:85-90 | keeps the snapshots up to the index, pushes the pre-move board, and points at it; nothing is left to redo |
| GameLogic.Undo | src/hooks/useGameState.jsx:131-136 | with `canUndo`, loads the snapshot at the index and steps back; otherwise nothing changes |
| GameLogic.Redo | src/hooks/useGameState.jsx:138-143 | with `canRedo`, steps forward and loads the snapshot there; otherwise nothing changes |
| GameLogic.CanUndo | src/hooks/useGameState.jsx:208 | `canUndo` means the index points at a snapshot to load; otherwise the index is -1 |
| GameLogic.CanRedo | src/hooks/useGameState.jsx:209 | `canRedo` means there is a snapshot after the index; otherwise the index is the last position |
| GameLogic.UndoRedoGuards | src/hooks/useGameState.jsx:208-209 | `canUndo` and `canRedo` hold exactly when undo and redo change anything |
| GameLogic.RedoAfterUndo | src/hooks/useGameState.jsx:131-143 | undo then redo leaves the board at the snapshot the undo loaded |
| GameLogic.UndoAfterRedo | src/hooks/useGameState.jsx:131-143 | redo then undo restores the index, with the board at the snapshot the redo loaded |
| GameLogic.SelectCell | src/hooks/useGameState.jsx:94-96 | the selection becomes the given cell and nothing else changes |
| GameLogic.Write | src/hooks/useGameState.jsx:102-105 | a recorded move: the selected cell gets the value on top of `addToHistory`, and givens stay untouched |
| GameLogic.InputNumber | src/hooks/useGameState.jsx:98-117 | a no-op unless a non-given cell is selected and the game is unfinished; otherwise a recorded write (index advanced, undo possible, nothing to redo) that sets the finished flag exactly when the board becomes complete and keeps the timer running otherwise, with the original board, solution, selection, timer and hints unchanged; keeps the invariant and the givens |
| GameLogic.ClearCell | src/hooks/useGameState.jsx:119-129 | a no-op unless a non-given, nonzero cell is selected; otherwise a recorded write of 0, whether or not the game is finished |
| GameLogic.UseHint | src/hooks/useGameState.jsx:145-158 | a no-op unless hints remain, the game is unfinished, and a non-given empty cell is selected; otherwise it records the move (index advanced, undo possible, nothing to redo), writes the solution's value into the cell, uses one hint and starts the timer, with the original board, solution, selection, timer value and finished flag unchanged |
| GameLogic.ResetGame | src/hooks/useGameState.jsx:179-188 | board back to the original, same puzzle and solution, nothing to undo or redo, hints and timer at 0, nothing selected, not running and not finished |
| GameLogic.ToggleTimer | src/hooks/useGameState.jsx:190-192 | flips the running flag and nothing else |
| GameLogic.Tick | src/hooks/useGameState.jsx:74-82 | the timer advances by one exactly while running |
| GameLogic.MoveTouchesOnlySelected | src/hooks/useGameState.jsx:98-158 | input, clear and hint change no cell but the selected one, and nothing at all on a given |
| GameLogic.InputThenUndo | src/hooks/useGameState.jsx:85-136 | input then undo restores the board and the index from before the input |
| GameLogic.InputUndoRedo | src/hooks/useGameState.jsx:85-143 | input, undo, redo ends on the board from before the input, not the board the input made |
| GameLogic.NewMoveTruncatesRedo | src/hooks/useGameState.jsx:85-90 | a move after an undo drops the redo branch and keeps the earlier snapshots |
| GameLogic.HintBudget | src/hooks/useGameState.jsx:145-158 | each hint uses one of 5; at 5 hints a hint does nothing; a hint never sets the finished flag |
| GameLogic.HintThenUndo | src/hooks/useGameState.jsx:131-158 | a hint can be undone: undo gives back the board and index from before it, with a redo available, and the hint stays spent |
| GameLogic.HintCountdown | src/hooks/useGameState.jsx:145-158 | `hintsRemaining` drops by one per hint given, never moves otherwise, and at 0 no hint is given |
| GameLogic.HintFromSolution | src/hooks/useGameState.jsx:149-152 | a hint writes the solution's value into the selected empty cell |
| GameLogic.InputCompletes | src/hooks/useGameState.jsx:107-114 | an input sets the finished flag exactly when every row, column and box becomes a permutation of 1..9, and the timer then stops |
| GameLogic.ClearAfterFinish | src/hooks/useGameState.jsx:119-128 | on a finished game, clearing still empties the cell and leaves the flag set |
| GameLogic.ResetIsNewSession | src/hooks/useGameState.jsx:179-188 | a reset is a new session on the same puzzle, and resetting twice is resetting once |
| GameLogic.TimerControls | src/hooks/useGameState.jsx:74-82 | toggling twice changes nothing, and a paused timer does not advance |
| GameLogic.Step | src/hooks/useGameState.jsx:93-193 | every action keeps the session invariant and the givens |
| GameLogic.Run | src/hooks/useGameState.jsx:93-193 | any sequence of actions keeps the session invariant |
| GameLogic.RunKeepsGivens | src/hooks/useGameState.jsx:93-193 | whatever the player does, the index stays inside the history, at most 5 hints are used, and no given is overwritten on the board or in a snapshot |
| GameLogic.NumberKeyShape | src/components/SudokuApp.jsx:221 | the string comparison `'1' <= key <= '9'` accepts exactly the keys that start with 1..8, and "9" alone; on one-character keys it is the digit test |
| GameLogic.KeyClasses | src/components/SudokuApp.jsx:221-227 | digit keys, clearing keys and arrows do not overlap |
| GameLogic.LeadingDigits | src/components/SudokuApp.jsx:223 | `parseInt` reads the longest run of digits at the start of the key |
| GameLogic.ParseKey | src/components/SudokuApp.jsx:223 | `parseInt` of a one-digit key is its digit |
| GameLogic.HandleKeyPress | src/components/SudokuApp.jsx:217-250 | keys do nothing without a selection or after the finish |
| GameLogic.DigitKeyInputs | src/components/SudokuApp.jsx:221-223 | a digit key 1..9 inputs that digit |
| GameLogic.ClearKeysClear | src/components/SudokuApp.jsx:224-226 | "0", Backspace and Delete clear the cell |
| GameLogic.ArrowKeysMove | src/components/SudokuApp.jsx:227-248 | an arrow moves the selection as `getNavigationCoords` does |
| GameLogic.OtherKeysIgnored | src/components/SudokuApp.jsx:217-250 | any other key does nothing |
| GameState.CreateMediumPuzzle | src/hooks/useGameState.jsx:27 | `createPuzzle('medium')` gives a complete solution and a puzzle that agrees with it and has 45 blanks |
| GameState.Game.constructor | src/hooks/useGameState.jsx:12-52 | the initial state is the restored unfinished game, or a new session on a fresh medium puzzle when nothing is stored or the stored game is finished |
| GameState.Game.AddToHistory | src/hooks/useGameState.jsx:85-90 | updates the fields as `GameLogic.AddToHistory` |
| GameState.Game.Write | src/hooks/useGameState.jsx:102-105 | updates the fields as `GameLogic.Write` |
| GameState.Game.SelectCell | src/hooks/useGameState.jsx:94-96 | updates the fields as `GameLogic.SelectCell` |
| GameState.Game.InputNumber | src/hooks/useGameState.jsx:98-117 | updates the fields as `GameLogic.InputNumber` |
| GameState.Game.ClearCell | src/hooks/useGameState.jsx:119-129 | updates the fields as `GameLogic.ClearCell` |
| GameState.Game.Undo | src/hooks/useGameState.jsx:131-136 | updates the fields as `GameLogic.Undo` |
| GameState.Game.Redo | src/hooks/useGameState.jsx:138-143 | updates the fields as `GameLogic.Redo` |
| GameState.Game.UseHint | src/hooks/useGameState.jsx:145-158 | updates the fields as `GameLogic.UseHint` |
| GameState.Game.StartNewGame | src/hooks/useGameState.jsx:160-177 | a new session on a fresh medium puzzle with a complete solution |
| GameState.Game.ResetGame | src/hooks/useGameState.jsx:179-188 | updates the fields as `GameLogic.ResetGame` |
| GameState.Game.ToggleTimer | src/hooks/useGameState.jsx:190-192 | updates the fields as `GameLogic.ToggleTimer` |
| GameState.Game.Tick | src/hooks/useGameState.jsx:74-82 | updates the fields as `GameLogic.Tick` |
| GameState.Game.HandleKeyPress | src/components/SudokuApp.jsx:217-250 | updates the fields as `GameLogic.HandleKeyPress` |

## Left out

- Persistence is left out: `localStorage`, JSON, the `useLocalStorage` hook and clearing the saved game. A stored game is an optional `SavedGame` value, and the auto-save effect is the function `Save`.
- `gameId`, `Date.now` and `generateGameId` are left out. No property depends on them.
- Wall-clock time is left out. The `setInterval` timer effect is the explicit step `Tick`.
- `Math.random` is left out, including the `sort(() => Math.random() - 0.5)` shuffle. Candidate lists are an input `order`. The soundness lemmas (`FillSound`, `TrySound`, `AttemptSound`) hold for any lists of digits 1..9; completeness and the contract of `CreatePuzzle` assume each list is a permutation of 1..9, which is what a shuffle of `[1..9]` yields.
- Generator.CreatePuzzle: the random coordinates are a given sequence `samples`, which must contain at least `toRemove` distinct cells. The model does not capture that random sampling ends with probability 1.
- Uniqueness of the puzzle's solution and difficulty grading are left out; the code checks neither.
- The `useCallback` in the app's keyboard handler lists only `selectedCell` and `isComplete` as dependencies. It can therefore call a `handleNumberClick` built in an earlier render, with stale board and history. The model treats every key press as acting on the current state.
- GameLogic.HandleKeyPress: the key is a string and the digit test is JavaScript string comparison. `parseInt` of a multi-character key is modelled by its leading digits.
- RemovalCount: JavaScript lookup of inherited property names such as `"constructor"` in the difficulty table is left out; every name other than easy and hard gives 45. The app's `createPuzzle` defaults its parameter to 'easy' and the utility's to 'medium'; both callers pass 'medium', so the defaults are not modelled.
- Aliasing of board rows is left out: boards in the session are values. As explained above, the app's shallow copy has the same effect as the hook's deep copy.
- The hook's `validation` helpers (`isOriginalCell`, `isEmptyCell`, a bound `isValidMove`) are one-line reads and are left out.
- Rendering, styling and event wiring are left out: the board, header, controls and number pad components, the window listeners and `useKeyboard`.
- GameState.Game: `selectCell` assumes a cell on the board (the board only offers those), and a restored unfinished game is assumed to satisfy the session invariant, as every saved session does (`GameLogic.SaveRestore`).
