/** The game session of `useGameState` and of its inline copy in the app
    component: the state record, one pure transition per action, and the
    properties the actions keep. Both copies act alike on every field this
    model keeps, so one set of transitions describes both. */
module GameLogic {
  import opened Board
  import opened Validator
  import GameHelpers

  /** `MAX_HINTS` of the game configuration (the literal 5 in the app). */
  const MaxHints: int := 5

  /** The state fields of the hook. `gameId` is not kept. */
  datatype Session = Session(
    board: Grid,
    originalBoard: Grid,
    solution: Grid,
    selectedCell: Option<Cell>,
    history: seq<Grid>,
    historyIndex: int,
    hintsUsed: int,
    timer: int,
    isRunning: bool,
    isComplete: bool)

  /** The shape every session the actions reach has. */
  predicate Valid(s: Session) {
    && IsGrid(s.board) && IsGrid(s.originalBoard) && IsGrid(s.solution)
    && (forall k :: 0 <= k < |s.history| ==> IsGrid(s.history[k]))
    && -1 <= s.historyIndex < |s.history|
    && 0 <= s.hintsUsed <= MaxHints
    && 0 <= s.timer
    && (s.selectedCell.Some? ==> InBounds(s.selectedCell.value.row, s.selectedCell.value.col))
  }

  /** The board and every undo snapshot keep the givens (the nonzero cells
      of the original board). */
  ghost predicate GivensKept(s: Session)
    requires Valid(s)
  {
    && Extends(s.originalBoard, s.board)
    && forall k :: 0 <= k < |s.history| ==> Extends(s.originalBoard, s.history[k])
  }

  /** `canUndo` and `canRedo` of the exposed game state. */
  predicate CanUndo(s: Session): (b: bool)
    ensures Valid(s) && b ==> 0 <= s.historyIndex < |s.history|
    ensures Valid(s) && !b ==> s.historyIndex == -1
  {
    s.historyIndex >= 0
  }

  predicate CanRedo(s: Session): (b: bool)
    ensures Valid(s) && b ==> 0 <= s.historyIndex + 1 < |s.history|
    ensures Valid(s) && !b ==> s.historyIndex == |s.history| - 1
  {
    s.historyIndex < |s.history| - 1
  }

  /** `hintsRemaining` of the exposed game state. */
  function HintsRemaining(s: Session): (n: int)
    requires Valid(s)
    ensures 0 <= n <= MaxHints
    ensures n == 0 <==> s.hintsUsed == MaxHints
    ensures n + s.hintsUsed == MaxHints
  {
    MaxHints - s.hintsUsed
  }

  // ---------------------------------------------------------------------
  // Starting a session
  // ---------------------------------------------------------------------

  /** The session of a freshly created puzzle (`startNewGame`, and
      `initializeGame` when nothing is restored). */
  function NewSession(puzzle: Grid, solution: Grid): (s: Session)
    requires IsGrid(puzzle) && IsGrid(solution)
    ensures Valid(s) && GivensKept(s)
    ensures s.board == s.originalBoard == puzzle && s.solution == solution
    ensures !CanUndo(s) && !CanRedo(s) && HintsRemaining(s) == MaxHints
    ensures s.selectedCell.None? && s.timer == 0 && !s.isRunning && !s.isComplete
  {
    Session(puzzle, puzzle, solution, None, [], -1, 0, 0, false, false)
  }

  /** The record the auto-save effect writes. Fields the reader treats as
      optional are `None` when missing from a stored record. */
  datatype SavedGame = SavedGame(
    board: Grid,
    originalBoard: Grid,
    solution: Grid,
    timer: Option<int>,
    history: Option<seq<Grid>>,
    historyIndex: Option<int>,
    hintsUsed: Option<int>,
    isComplete: bool)

  /** JavaScript's `x || d` on a stored number: a missing value and 0 are
      both falsy. */
  function OrNumber(x: Option<int>, d: int): (r: int)
    ensures x.Some? && x.value != 0 ==> r == x.value
    ensures x.None? || x.value == 0 ==> r == d
  {
    if x.Some? && x.value != 0 then x.value else d
  }

  /** `x || []` on a stored list: every array is truthy. */
  function OrHistory(x: Option<seq<Grid>>): seq<Grid> {
    if x.Some? then x.value else []
  }

  /** The auto-save effect: the fields a session stores. */
  function Save(s: Session): (r: SavedGame)
    ensures r.board == s.board && r.history == Some(s.history) && r.historyIndex == Some(s.historyIndex)
  {
    SavedGame(s.board, s.originalBoard, s.solution, Some(s.timer), Some(s.history),
              Some(s.historyIndex), Some(s.hintsUsed), s.isComplete)
  }

  /** The session restored from a stored record, with the `||` defaults. */
  function Restore(r: SavedGame): (t: Session)
    ensures t.board == r.board && t.originalBoard == r.originalBoard && t.solution == r.solution
    ensures t.selectedCell.None? && !t.isRunning && !t.isComplete
    ensures CanUndo(t) <==> r.historyIndex.Some? && r.historyIndex.value > 0
    ensures r.timer.None? ==> t.timer == 0
    ensures r.hintsUsed.None? ==> t.hintsUsed == 0
  {
    Session(r.board, r.originalBoard, r.solution, None, OrHistory(r.history),
            OrNumber(r.historyIndex, -1), OrNumber(r.hintsUsed, 0), OrNumber(r.timer, 0), false, false)
  }

  /** `initializeGame`: restore an unfinished stored game, otherwise start on
      the given fresh puzzle. */
  function Initialize(saved: Option<SavedGame>, puzzle: Grid, solution: Grid): (s: Session)
    requires IsGrid(puzzle) && IsGrid(solution)
    ensures saved.None? || saved.value.isComplete ==> s == NewSession(puzzle, solution)
    ensures s.selectedCell.None? && !s.isRunning && !s.isComplete
  {
    if saved.Some? && !saved.value.isComplete then Restore(saved.value) else NewSession(puzzle, solution)
  }

  /** Saving and restoring gives back the session, except for the transient
      selection and running flag, and a stored index 0, which `|| -1` reads
      as -1: the one undo step that existed is lost. */
  lemma SaveRestore(s: Session, puzzle: Grid, solution: Grid)
    requires Valid(s) && !s.isComplete && IsGrid(puzzle) && IsGrid(solution)
    ensures Initialize(Some(Save(s)), puzzle, solution)
         == s.(selectedCell := None, isRunning := false,
               historyIndex := if s.historyIndex == 0 then -1 else s.historyIndex)
    ensures Valid(Initialize(Some(Save(s)), puzzle, solution))
    ensures s.historyIndex == 0 ==> CanUndo(s) && !CanUndo(Initialize(Some(Save(s)), puzzle, solution))
  {
    assert Save(s).historyIndex == Some(s.historyIndex);
  }

  // ---------------------------------------------------------------------
  // History
  // ---------------------------------------------------------------------

  /** `addToHistory`: drop the redo branch, push the board as it is before
      the move, and point at that snapshot. */
  function AddToHistory(s: Session): (t: Session)
    requires Valid(s)
    ensures Valid(t) && (GivensKept(s) ==> GivensKept(t))
    ensures t.historyIndex == s.historyIndex + 1 && t.history[t.historyIndex] == s.board
    ensures forall k :: 0 <= k <= s.historyIndex ==> t.history[k] == s.history[k]
    ensures CanUndo(t) && !CanRedo(t)
    ensures t == s.(history := t.history, historyIndex := t.historyIndex)
  {
    var h := s.history[..s.historyIndex + 1] + [s.board];
    s.(history := h, historyIndex := |h| - 1)
  }

  /** `undo`: load the snapshot at the index and step back. */
  function Undo(s: Session): (t: Session)
    requires Valid(s)
    ensures Valid(t) && (GivensKept(s) ==> GivensKept(t))
    ensures CanUndo(s) ==> t == s.(board := s.history[s.historyIndex], historyIndex := s.historyIndex - 1)
    ensures !CanUndo(s) ==> t == s
  {
    if s.historyIndex >= 0 then
      s.(board := s.history[s.historyIndex], historyIndex := s.historyIndex - 1)
    else s
  }

  /** `redo`: step forward and load the snapshot at the new index. The
      history holds boards from before each move, so this is the board
      before the move being redone. */
  function Redo(s: Session): (t: Session)
    requires Valid(s)
    ensures Valid(t) && (GivensKept(s) ==> GivensKept(t))
    ensures CanRedo(s) ==> t == s.(board := s.history[s.historyIndex + 1], historyIndex := s.historyIndex + 1)
    ensures !CanRedo(s) ==> t == s
  {
    if s.historyIndex < |s.history| - 1 then
      s.(historyIndex := s.historyIndex + 1, board := s.history[s.historyIndex + 1])
    else s
  }

  /** Undo and redo move the index exactly when `canUndo` and `canRedo`
      hold. */
  lemma UndoRedoGuards(s: Session)
    requires Valid(s)
    ensures CanUndo(s) <==> Undo(s).historyIndex == s.historyIndex - 1
    ensures !CanUndo(s) <==> Undo(s) == s
    ensures CanRedo(s) <==> Redo(s).historyIndex == s.historyIndex + 1
    ensures !CanRedo(s) <==> Redo(s) == s
  {
  }

  /** An undo followed by a redo does not bring back the board: it reloads
      the snapshot the undo loaded. */
  lemma RedoAfterUndo(s: Session)
    requires Valid(s) && CanUndo(s)
    ensures Redo(Undo(s)) == s.(board := s.history[s.historyIndex])
  {
    var u := Undo(s);
    assert CanRedo(u);
  }

  /** A redo followed by an undo restores the index and leaves the board at
      the snapshot the redo loaded. */
  lemma UndoAfterRedo(s: Session)
    requires Valid(s) && CanRedo(s)
    ensures Undo(Redo(s)) == s.(board := s.history[s.historyIndex + 1])
  {
    var r := Redo(s);
    assert CanUndo(r);
  }

  // ---------------------------------------------------------------------
  // Moves
  // ---------------------------------------------------------------------

  /** `selectCell` (`handleCellClick` in the app). */
  function SelectCell(s: Session, row: int, col: int): (t: Session)
    requires Valid(s) && InBounds(row, col)
    ensures Valid(t) && (GivensKept(s) ==> GivensKept(t))
    ensures GameHelpers.AreCellsEqual(t.selectedCell, Some(Cell(row, col)))
    ensures t.(selectedCell := s.selectedCell) == s
  {
    s.(selectedCell := Some(Cell(row, col)))
  }

  /** The selected cell is not a given. */
  predicate Editable(s: Session)
    requires Valid(s)
  {
    s.selectedCell.Some? && s.originalBoard[s.selectedCell.value.row][s.selectedCell.value.col] == 0
  }

  /** The guard of `inputNumber`: a non-given cell is selected and the game
      is not finished. */
  predicate CanInput(s: Session)
    requires Valid(s)
  {
    Editable(s) && !s.isComplete
  }

  /** A recorded move on the selected cell: `addToHistory`, then v written
      into a copy of the board. */
  function Write(s: Session, v: int): (t: Session)
    requires Valid(s) && s.selectedCell.Some?
    ensures Valid(t)
    ensures Editable(s) && GivensKept(s) ==> GivensKept(t)
    ensures t.board == Place(s.board, s.selectedCell.value.row, s.selectedCell.value.col, v)
    ensures t == AddToHistory(s).(board := t.board)
  {
    var t := AddToHistory(s).(board := Place(s.board, s.selectedCell.value.row, s.selectedCell.value.col, v));
    assert Editable(s) && GivensKept(s) ==> Extends(s.originalBoard, t.board);
    t
  }

  /** `inputNumber(num)` (`handleNumberClick` in the app). */
  function InputNumber(s: Session, num: int): (t: Session)
    requires Valid(s)
    ensures Valid(t) && (GivensKept(s) ==> GivensKept(t))
    ensures !CanInput(s) ==> t == s
    ensures CanInput(s) ==> t.history == Write(s, num).history && t.board == Write(s, num).board
    ensures CanInput(s) ==> t.historyIndex == s.historyIndex + 1 && CanUndo(t) && !CanRedo(t)
    ensures CanInput(s) ==>
      && t.originalBoard == s.originalBoard && t.solution == s.solution
      && t.selectedCell == s.selectedCell && t.timer == s.timer && t.hintsUsed == s.hintsUsed
      && (t.isComplete <==> IsPuzzleComplete(t.board)) && (t.isRunning <==> !t.isComplete)
  {
    if s.selectedCell.Some? && !s.isComplete then
      var r, c := s.selectedCell.value.row, s.selectedCell.value.col;
      if s.originalBoard[r][c] == 0 then
        var w := Write(s, num);
        var complete := IsPuzzleComplete(w.board);
        w.(isRunning := !complete, isComplete := complete)
      else s
    else s
  }

  /** The guard of `clearCell`: a non-given, nonzero cell is selected.
      Whether the game is finished is not checked. */
  predicate CanClear(s: Session)
    requires Valid(s)
  {
    Editable(s) && s.board[s.selectedCell.value.row][s.selectedCell.value.col] != 0
  }

  /** `clearCell` (`handleClear` in the app). */
  function ClearCell(s: Session): (t: Session)
    requires Valid(s)
    ensures Valid(t) && (GivensKept(s) ==> GivensKept(t))
    ensures !CanClear(s) ==> t == s
    ensures CanClear(s) ==> t == Write(s, 0)
  {
    if s.selectedCell.Some? then
      var r, c := s.selectedCell.value.row, s.selectedCell.value.col;
      if s.originalBoard[r][c] == 0 && s.board[r][c] != 0 then Write(s, 0) else s
    else s
  }

  /** The guard of `useHint`: budget left, a non-given empty cell selected
      and the game not finished. */
  predicate CanHint(s: Session)
    requires Valid(s)
  {
    && s.hintsUsed < MaxHints && !s.isComplete && Editable(s)
    && s.board[s.selectedCell.value.row][s.selectedCell.value.col] == 0
  }

  /** `useHint` (`handleHint` in the app). */
  function UseHint(s: Session): (t: Session)
    requires Valid(s)
    ensures Valid(t) && (GivensKept(s) ==> GivensKept(t))
    ensures !CanHint(s) ==> t == s
    ensures CanHint(s) ==> t.history == Write(s, 0).history && t.hintsUsed == s.hintsUsed + 1
    ensures CanHint(s) ==> t.historyIndex == s.historyIndex + 1 && CanUndo(t) && !CanRedo(t)
    ensures CanHint(s) ==>
      var r, c := s.selectedCell.value.row, s.selectedCell.value.col;
      t.board == Place(s.board, r, c, s.solution[r][c])
    ensures CanHint(s) ==>
      && t.originalBoard == s.originalBoard && t.solution == s.solution
      && t.selectedCell == s.selectedCell && t.timer == s.timer
      && t.isComplete == s.isComplete && t.isRunning
  {
    if s.hintsUsed >= MaxHints || s.selectedCell.None? || s.isComplete then s
    else
      var r, c := s.selectedCell.value.row, s.selectedCell.value.col;
      if s.originalBoard[r][c] == 0 && s.board[r][c] == 0 then
        Write(s, s.solution[r][c]).(hintsUsed := s.hintsUsed + 1, isRunning := true)
      else s
  }

  /** `resetGame` (`resetCurrentGame` in the app). */
  function ResetGame(s: Session): (t: Session)
    requires Valid(s)
    ensures Valid(t) && GivensKept(t)
    ensures t.board == t.originalBoard == s.originalBoard && t.solution == s.solution
    ensures !CanUndo(t) && !CanRedo(t) && t.hintsUsed == 0 && t.timer == 0
    ensures t.selectedCell.None? && !t.isRunning && !t.isComplete
  {
    s.(board := s.originalBoard, selectedCell := None, timer := 0, isRunning := false,
       isComplete := false, history := [], historyIndex := -1, hintsUsed := 0)
  }

  /** `toggleTimer` (`handlePlayPause` in the app). */
  function ToggleTimer(s: Session): (t: Session)
    requires Valid(s)
    ensures Valid(t) && (GivensKept(s) ==> GivensKept(t))
    ensures t.isRunning != s.isRunning && t.(isRunning := s.isRunning) == s
  {
    s.(isRunning := !s.isRunning)
  }

  /** One second of the interval the timer effect installs while running. */
  function Tick(s: Session): (t: Session)
    requires Valid(s)
    ensures Valid(t) && (GivensKept(s) ==> GivensKept(t))
    ensures t.timer == if s.isRunning then s.timer + 1 else s.timer
    ensures t.(timer := s.timer) == s
  {
    if s.isRunning then s.(timer := s.timer + 1) else s
  }

  // ---------------------------------------------------------------------
  // Keyboard (the app's `handleKeyPress`)
  // ---------------------------------------------------------------------

  /** JavaScript's `a <= b` on strings: lexicographic by character. */
  predicate StringAtMost(a: string, b: string)
    decreases |a|
  {
    |a| == 0 || (|b| > 0 && (a[0] < b[0] || (a[0] == b[0] && StringAtMost(a[1..], b[1..]))))
  }

  /** The test `key >= '1' && key <= '9'`. */
  predicate IsNumberKey(key: string) {
    StringAtMost("1", key) && StringAtMost(key, "9")
  }

  /** The string comparison accepts exactly the keys that start with 1..8,
      and "9" alone; on one-character keys it is the digit test 1..9. */
  lemma NumberKeyShape(key: string)
    ensures IsNumberKey(key) <==> |key| > 0 && '1' <= key[0] && (key[0] < '9' || key == "9")
    ensures |key| == 1 ==> (IsNumberKey(key) <==> '1' <= key[0] <= '9')
  {
    if |key| > 0 && key[0] == '9' {
      assert StringAtMost(key, "9") <==> StringAtMost(key[1..], "");
      if |key| == 1 { assert key == "9"; }
    }
  }

  /** The keys that clear the selected cell. */
  predicate IsClearKey(key: string) {
    key == "Backspace" || key == "Delete" || key == "0"
  }

  /** Digit keys, clearing keys and arrows are three separate classes, so
      the order of the tests does not matter. */
  lemma KeyClasses(key: string)
    ensures IsClearKey(key) ==> !IsNumberKey(key)
    ensures GameHelpers.IsArrow(key) ==> !IsNumberKey(key) && !IsClearKey(key)
  {
    if IsClearKey(key) || GameHelpers.IsArrow(key) {
      NumberKeyShape(key);
      assert key[0] in {'0', 'A', 'B', 'D'};
    }
  }

  /** The longest prefix of decimal digits. */
  function LeadingDigits(s: string): (p: string)
    ensures GameHelpers.AllDigitChars(p) && p <= s
    ensures |p| < |s| ==> !GameHelpers.IsDigitChar(s[|p|])
  {
    if |s| > 0 && GameHelpers.IsDigitChar(s[0]) then [s[0]] + LeadingDigits(s[1..]) else []
  }

  /** `parseInt(key)` on a key that starts with a digit. */
  function ParseKey(key: string): (n: int)
    requires |key| > 0 && GameHelpers.IsDigitChar(key[0])
    ensures |key| == 1 ==> n == GameHelpers.DigitValue(key[0])
  {
    var p := LeadingDigits(key);
    if |key| == 1 then
      assert p == [key[0]] by { assert LeadingDigits(key[1..]) == []; }
      assert p[..0] == [];
      assert GameHelpers.ParseDecimal(p) == 10 * GameHelpers.ParseDecimal(p[..0]) + GameHelpers.DigitValue(p[0]);
      GameHelpers.ParseDecimal(p)
    else GameHelpers.ParseDecimal(p)
  }

  /** `handleKeyPress(event)`. */
  function HandleKeyPress(s: Session, key: string): (t: Session)
    requires Valid(s)
    ensures Valid(t) && (GivensKept(s) ==> GivensKept(t))
    ensures s.selectedCell.None? || s.isComplete ==> t == s
  {
    if s.selectedCell.None? || s.isComplete then s
    else if IsNumberKey(key) then
      NumberKeyShape(key);
      InputNumber(s, ParseKey(key))
    else if IsClearKey(key) then ClearCell(s)
    else if GameHelpers.IsArrow(key) then
      var c := s.selectedCell.value;
      s.(selectedCell := Some(GameHelpers.GetNavigationCoords(c.row, c.col, key)))
    else s
  }

  /** A one-character digit key inputs its digit. */
  lemma DigitKeyInputs(s: Session, key: string)
    requires Valid(s) && s.selectedCell.Some? && !s.isComplete
    requires |key| == 1 && '1' <= key[0] <= '9'
    ensures HandleKeyPress(s, key) == InputNumber(s, key[0] as int - '0' as int)
  {
    NumberKeyShape(key);
  }

  /** "0", Backspace and Delete clear the selected cell. */
  lemma ClearKeysClear(s: Session, key: string)
    requires Valid(s) && s.selectedCell.Some? && !s.isComplete && IsClearKey(key)
    ensures HandleKeyPress(s, key) == ClearCell(s)
  {
    KeyClasses(key);
  }

  /** An arrow moves the selection one step, clamped to the board. */
  lemma ArrowKeysMove(s: Session, key: string)
    requires Valid(s) && s.selectedCell.Some? && !s.isComplete && GameHelpers.IsArrow(key)
    ensures var c := GameHelpers.GetNavigationCoords(s.selectedCell.value.row, s.selectedCell.value.col, key);
      HandleKeyPress(s, key) == SelectCell(s, c.row, c.col)
  {
    KeyClasses(key);
  }

  /** Any other key does nothing. */
  lemma OtherKeysIgnored(s: Session, key: string)
    requires Valid(s) && !IsNumberKey(key) && !IsClearKey(key) && !GameHelpers.IsArrow(key)
    ensures HandleKeyPress(s, key) == s
  {
  }

  // ---------------------------------------------------------------------
  // Properties of the moves
  // ---------------------------------------------------------------------

  /** A move changes only the selected cell: every other cell, and every
      given, keeps its value. */
  lemma MoveTouchesOnlySelected(s: Session, num: int)
    requires Valid(s) && s.selectedCell.Some?
    ensures var r, c := s.selectedCell.value.row, s.selectedCell.value.col;
      forall i, j :: InBounds(i, j) && (i != r || j != c) ==>
        InputNumber(s, num).board[i][j] == s.board[i][j]
        && ClearCell(s).board[i][j] == s.board[i][j]
        && UseHint(s).board[i][j] == s.board[i][j]
    ensures var r, c := s.selectedCell.value.row, s.selectedCell.value.col;
      s.originalBoard[r][c] != 0 ==>
        InputNumber(s, num) == s && ClearCell(s) == s && UseHint(s) == s
  {
  }

  /** An input followed by an undo gives back the board and the index from
      before the input, with the move ready to redo. */
  lemma InputThenUndo(s: Session, num: int)
    requires Valid(s) && CanInput(s)
    ensures Undo(InputNumber(s, num)).board == s.board
    ensures Undo(InputNumber(s, num)).historyIndex == s.historyIndex
    ensures CanRedo(Undo(InputNumber(s, num)))
  {
    var t := InputNumber(s, num);
    assert CanUndo(t);
  }

  /** Input, undo, redo leaves the board from BEFORE the input: the redone
      move is not reapplied. */
  lemma InputUndoRedo(s: Session, num: int)
    requires Valid(s) && CanInput(s)
    ensures Redo(Undo(InputNumber(s, num))).board == s.board
    ensures s.board[s.selectedCell.value.row][s.selectedCell.value.col] != num ==>
      Redo(Undo(InputNumber(s, num))).board != InputNumber(s, num).board
  {
    var t := InputNumber(s, num);
    assert CanUndo(t);
    RedoAfterUndo(t);
    var r, c := s.selectedCell.value.row, s.selectedCell.value.col;
    assert t.board[r][c] == num;
  }

  /** A new move after an undo discards the redo branch: the snapshots up
      to the index survive and nothing is left to redo. */
  lemma NewMoveTruncatesRedo(s: Session, num: int)
    requires Valid(s) && CanUndo(s)
    requires CanInput(Undo(s))
    ensures var u := Undo(s); var t := InputNumber(u, num);
      && !CanRedo(t) && |t.history| == s.historyIndex + 1
      && t.history[..s.historyIndex] == s.history[..s.historyIndex]
      && t.history[s.historyIndex] == s.history[s.historyIndex]
  {
    var u := Undo(s);
    var t := InputNumber(u, num);
    assert |t.history| == u.historyIndex + 2;
  }

  /** A hint spends one unit of a budget of five; once spent it does
      nothing, and it never finishes the game on its own. */
  lemma HintBudget(s: Session)
    requires Valid(s)
    ensures UseHint(s).hintsUsed <= MaxHints
    ensures UseHint(s).hintsUsed == if CanHint(s) then s.hintsUsed + 1 else s.hintsUsed
    ensures s.hintsUsed == MaxHints ==> UseHint(s) == s
    ensures UseHint(s).isComplete == s.isComplete
  {
  }

  /** A hint is a recorded move: undoing it gives back the board and the
      index from before the hint, with the hint ready to redo. The hint
      itself stays spent. */
  lemma HintThenUndo(s: Session)
    requires Valid(s) && CanHint(s)
    ensures Undo(UseHint(s)).board == s.board
    ensures Undo(UseHint(s)).historyIndex == s.historyIndex
    ensures CanRedo(Undo(UseHint(s)))
    ensures HintsRemaining(Undo(UseHint(s))) == HintsRemaining(s) - 1
  {
    var t := UseHint(s);
    assert CanUndo(t);
  }

  /** `hintsRemaining` counts down by one per hint given and never moves
      otherwise. */
  lemma HintCountdown(s: Session)
    requires Valid(s)
    ensures CanHint(s) ==> HintsRemaining(UseHint(s)) == HintsRemaining(s) - 1
    ensures !CanHint(s) ==> HintsRemaining(UseHint(s)) == HintsRemaining(s)
    ensures HintsRemaining(s) == 0 ==> !CanHint(s)
  {
  }

  /** A hint writes the solution's value into the selected empty cell. */
  lemma HintFromSolution(s: Session)
    requires Valid(s) && CanHint(s)
    ensures var r, c := s.selectedCell.value.row, s.selectedCell.value.col;
      UseHint(s).board[r][c] == s.solution[r][c] && s.board[r][c] == 0
  {
  }

  /** An input finishes the game exactly when it completes the board, which
      on digits means every row, column and box is a permutation of 1..9;
      the timer stops then. */
  lemma InputCompletes(s: Session, num: int)
    requires Valid(s) && CanInput(s) && Digits(s.board) && 1 <= num <= 9
    ensures var t := InputNumber(s, num);
      && (t.isComplete <==> Solved(t.board))
      && (t.isComplete ==> !t.isRunning)
  {
    var t := InputNumber(s, num);
    PlaceDigits(s.board, s.selectedCell.value.row, s.selectedCell.value.col, num);
    CompleteIffSolved(t.board);
  }

  /** Clearing ignores the finished flag: on a finished game it still empties
      the selected cell, so the flag can outlive a complete board. */
  lemma ClearAfterFinish(s: Session)
    requires Valid(s) && s.isComplete && CanClear(s)
    ensures ClearCell(s).isComplete && !IsPuzzleComplete(ClearCell(s).board)
  {
    var t := ClearCell(s);
    var r, c := s.selectedCell.value.row, s.selectedCell.value.col;
    assert t.board[r][c] == 0;
  }

  /** Reset is a new session on the same puzzle, so resetting twice is
      resetting once. */
  lemma ResetIsNewSession(s: Session)
    requires Valid(s)
    ensures ResetGame(s) == NewSession(s.originalBoard, s.solution)
    ensures ResetGame(ResetGame(s)) == ResetGame(s)
  {
  }

  /** Pausing twice changes nothing; a paused timer does not advance. */
  lemma TimerControls(s: Session)
    requires Valid(s)
    ensures ToggleTimer(ToggleTimer(s)) == s
    ensures !s.isRunning ==> Tick(s) == s
    ensures Tick(ToggleTimer(s)).timer == if s.isRunning then s.timer else s.timer + 1
  {
  }

  // ---------------------------------------------------------------------
  // Any sequence of actions
  // ---------------------------------------------------------------------

  datatype Action =
    | Select(row: int, col: int)
    | Input(num: int)
    | Clear
    | UndoMove
    | RedoMove
    | Hint
    | Reset
    | NewGame(puzzle: Grid, solution: Grid)
    | Toggle
    | Second
    | Key(key: string)

  /** The arguments the app can pass: cells on the board, 9 by 9 puzzles. */
  predicate Possible(a: Action) {
    && (a.Select? ==> InBounds(a.row, a.col))
    && (a.NewGame? ==> IsGrid(a.puzzle) && IsGrid(a.solution))
  }

  function Step(s: Session, a: Action): (t: Session)
    requires Valid(s) && Possible(a)
    ensures Valid(t) && (a.NewGame? || a.Reset? || GivensKept(s) ==> GivensKept(t))
  {
    match a
    case Select(row, col) => SelectCell(s, row, col)
    case Input(num) => InputNumber(s, num)
    case Clear => ClearCell(s)
    case UndoMove => Undo(s)
    case RedoMove => Redo(s)
    case Hint => UseHint(s)
    case Reset => ResetGame(s)
    case NewGame(puzzle, solution) => NewSession(puzzle, solution)
    case Toggle => ToggleTimer(s)
    case Second => Tick(s)
    case Key(key) => HandleKeyPress(s, key)
  }

  /** The session after a sequence of actions. */
  function Run(s: Session, actions: seq<Action>): (t: Session)
    requires Valid(s) && forall k :: 0 <= k < |actions| ==> Possible(actions[k])
    ensures Valid(t)
    decreases |actions|
  {
    if actions == [] then s else Run(Step(s, actions[0]), actions[1..])
  }

  /** Whatever the player does, the index stays inside the history, at most
      five hints are used, and no given is ever overwritten, on the board or
      in an undo snapshot. */
  lemma {:induction false} RunKeepsGivens(s: Session, actions: seq<Action>)
    requires Valid(s) && GivensKept(s) && forall k :: 0 <= k < |actions| ==> Possible(actions[k])
    ensures var t := Run(s, actions);
      && -1 <= t.historyIndex < |t.history| && t.hintsUsed <= MaxHints
      && GivensKept(t)
    decreases |actions|
  {
    if actions != [] {
      RunKeepsGivens(Step(s, actions[0]), actions[1..]);
    }
  }
}

/** The hook as an object: the session fields, updated in place by its
    actions. */
module GameState {
  import opened Board
  import opened Validator
  import GameLogic
  import GameHelpers
  import Generator

  /** `createPuzzle('medium')` as the session receives it: the carved
      puzzle and its complete solution, as values. */
  method CreateMediumPuzzle(order: nat -> seq<int>, samples: seq<Cell>) returns (puzzle: Grid, solution: Grid)
    requires Generator.Shuffles(order)
    requires forall x :: x in samples ==> InBounds(x.row, x.col)
    requires |Generator.CellSet(samples)| >= Generator.RemovalCount("medium")
    ensures IsGrid(puzzle) && IsGrid(solution)
    ensures IsPuzzleComplete(solution) && Extends(puzzle, solution)
    ensures |ZeroCells(puzzle)| == Generator.MediumRemovals
  {
    var p, sol := Generator.CreatePuzzle("medium", order, samples);
    puzzle, solution := Snapshot(p), Snapshot(sol);
  }

  class Game {
    var board: Grid
    var originalBoard: Grid
    var solution: Grid
    var selectedCell: Option<Cell>
    var history: seq<Grid>
    var historyIndex: int
    var hintsUsed: int
    var timer: int
    var isRunning: bool
    var isComplete: bool

    function State(): GameLogic.Session
      reads this
    {
      GameLogic.Session(board, originalBoard, solution, selectedCell, history,
                        historyIndex, hintsUsed, timer, isRunning, isComplete)
    }

    predicate Valid()
      reads this
    {
      GameLogic.Valid(State())
    }

    /** `initializeGame`: restore an unfinished stored game, or create a
        medium puzzle from the given random choices. */
    constructor (saved: Option<GameLogic.SavedGame>, order: nat -> seq<int>, samples: seq<Cell>)
      requires Generator.Shuffles(order)
      requires forall x :: x in samples ==> InBounds(x.row, x.col)
      requires |Generator.CellSet(samples)| >= Generator.RemovalCount("medium")
      requires saved.Some? && !saved.value.isComplete ==> GameLogic.Valid(GameLogic.Restore(saved.value))
      ensures Valid()
      ensures saved.Some? && !saved.value.isComplete ==> State() == GameLogic.Restore(saved.value)
      ensures saved.None? || saved.value.isComplete ==>
        && State() == GameLogic.NewSession(originalBoard, solution)
        && IsPuzzleComplete(solution) && Extends(originalBoard, solution)
        && |ZeroCells(originalBoard)| == Generator.MediumRemovals
    {
      var init: GameLogic.Session;
      if saved.Some? && !saved.value.isComplete {
        init := GameLogic.Restore(saved.value);
      } else {
        var puzzle, complete := CreateMediumPuzzle(order, samples);
        init := GameLogic.NewSession(puzzle, complete);
      }
      board := init.board;
      originalBoard := init.originalBoard;
      solution := init.solution;
      selectedCell := init.selectedCell;
      history := init.history;
      historyIndex := init.historyIndex;
      hintsUsed := init.hintsUsed;
      timer := init.timer;
      isRunning := init.isRunning;
      isComplete := init.isComplete;
    }

    method AddToHistory()
      requires Valid()
      modifies this
      ensures State() == GameLogic.AddToHistory(old(State()))
    {
      var newHistory := history[..historyIndex + 1];
      newHistory := newHistory + [board];
      history := newHistory;
      historyIndex := |newHistory| - 1;
    }

    /** The recorded move the three editing actions share: `addToHistory`,
        then the selected cell of a copy of the board set to v. */
    method Write(v: int)
      requires Valid() && selectedCell.Some?
      modifies this
      ensures State() == GameLogic.Write(old(State()), v)
    {
      var row, col := selectedCell.value.row, selectedCell.value.col;
      AddToHistory();
      var newBoard := Place(board, row, col, v);
      board := newBoard;
    }

    method SelectCell(row: int, col: int)
      requires Valid() && InBounds(row, col)
      modifies this
      ensures State() == GameLogic.SelectCell(old(State()), row, col)
    {
      selectedCell := Some(Cell(row, col));
    }

    method InputNumber(num: int)
      requires Valid()
      modifies this
      ensures State() == GameLogic.InputNumber(old(State()), num)
    {
      if selectedCell.Some? && !isComplete {
        var row, col := selectedCell.value.row, selectedCell.value.col;
        if originalBoard[row][col] == 0 {
          ghost var before := State();
          Write(num);
          ghost var written := State();
          if !isRunning {
            isRunning := true;
          }
          var complete := IsPuzzleComplete(board);
          if complete {
            isComplete := true;
            isRunning := false;
          }
          assert State() == written.(isRunning := !complete, isComplete := complete);
        }
      }
    }

    method ClearCell()
      requires Valid()
      modifies this
      ensures State() == GameLogic.ClearCell(old(State()))
    {
      if selectedCell.Some? {
        var row, col := selectedCell.value.row, selectedCell.value.col;
        if originalBoard[row][col] == 0 && board[row][col] != 0 {
          Write(0);
        }
      }
    }

    method Undo()
      requires Valid()
      modifies this
      ensures State() == GameLogic.Undo(old(State()))
    {
      if historyIndex >= 0 {
        board := history[historyIndex];
        historyIndex := historyIndex - 1;
      }
    }

    method Redo()
      requires Valid()
      modifies this
      ensures State() == GameLogic.Redo(old(State()))
    {
      if historyIndex < |history| - 1 {
        board := history[historyIndex + 1];
        historyIndex := historyIndex + 1;
      }
    }

    method UseHint()
      requires Valid()
      modifies this
      ensures State() == GameLogic.UseHint(old(State()))
    {
      if hintsUsed >= GameLogic.MaxHints || selectedCell.None? || isComplete {
        return;
      }
      var row, col := selectedCell.value.row, selectedCell.value.col;
      if originalBoard[row][col] == 0 && board[row][col] == 0 {
        Write(solution[row][col]);
        hintsUsed := hintsUsed + 1;
        if !isRunning {
          isRunning := true;
        }
      }
    }

    /** `startNewGame`: a medium puzzle from the given random choices. */
    method StartNewGame(order: nat -> seq<int>, samples: seq<Cell>)
      requires Generator.Shuffles(order)
      requires forall x :: x in samples ==> InBounds(x.row, x.col)
      requires |Generator.CellSet(samples)| >= Generator.RemovalCount("medium")
      modifies this
      ensures Valid()
      ensures State() == GameLogic.NewSession(originalBoard, solution)
      ensures IsPuzzleComplete(solution) && Extends(originalBoard, solution)
      ensures |ZeroCells(originalBoard)| == Generator.MediumRemovals
    {
      var puzzle, complete := CreateMediumPuzzle(order, samples);
      board := puzzle;
      originalBoard := puzzle;
      solution := complete;
      selectedCell := None;
      timer := 0;
      isRunning := false;
      isComplete := false;
      history := [];
      historyIndex := -1;
      hintsUsed := 0;
    }

    method ResetGame()
      requires Valid()
      modifies this
      ensures State() == GameLogic.ResetGame(old(State()))
    {
      board := originalBoard;
      selectedCell := None;
      timer := 0;
      isRunning := false;
      isComplete := false;
      history := [];
      historyIndex := -1;
      hintsUsed := 0;
    }

    method ToggleTimer()
      requires Valid()
      modifies this
      ensures State() == GameLogic.ToggleTimer(old(State()))
    {
      isRunning := !isRunning;
    }

    method Tick()
      requires Valid()
      modifies this
      ensures State() == GameLogic.Tick(old(State()))
    {
      if isRunning {
        timer := timer + 1;
      }
    }

    /** The app's `handleKeyPress`. */
    method HandleKeyPress(key: string)
      requires Valid()
      modifies this
      ensures State() == GameLogic.HandleKeyPress(old(State()), key)
    {
      if selectedCell.None? || isComplete {
        return;
      }
      GameLogic.NumberKeyShape(key);
      if GameLogic.IsNumberKey(key) {
        InputNumber(GameLogic.ParseKey(key));
      } else if GameLogic.IsClearKey(key) {
        ClearCell();
      } else if key == "ArrowUp" || key == "ArrowDown" || key == "ArrowLeft" || key == "ArrowRight" {
        var row, col := selectedCell.value.row, selectedCell.value.col;
        var newRow, newCol := row, col;
        if key == "ArrowUp" {
          newRow := GameHelpers.Max(0, row - 1);
        } else if key == "ArrowDown" {
          newRow := GameHelpers.Min(8, row + 1);
        } else if key == "ArrowLeft" {
          newCol := GameHelpers.Max(0, col - 1);
        } else {
          newCol := GameHelpers.Min(8, col + 1);
        }
        selectedCell := Some(Cell(newRow, newCol));
      }
    }
  }
}
