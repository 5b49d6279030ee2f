/** Puzzle generation: a randomised depth-first backtracking fill of an empty
    grid (`generateCompleteSudoku` with its inner `isValid` and `fillBoard`),
    and the carver that blanks a difficulty-dependent number of cells
    (`createPuzzle`).

    The source draws its randomness from Math.random. Here it is supplied:
    `order(k)` is the shuffled candidate list used at the k-th cell visit of
    the search, and `samples` is the stream of coordinates the carver draws. */
module Generator {
  import opened Board
  import opened Validator
  import GameHelpers

  // ---------------------------------------------------------------------
  // Difficulty levels
  // ---------------------------------------------------------------------

  const EasyRemovals: int := 35
  const MediumRemovals: int := 45
  const HardRemovals: int := 55

  /** `DIFFICULTY_LEVELS[difficulty] || DIFFICULTY_LEVELS.medium`. */
  function RemovalCount(difficulty: string): (n: int)
    ensures n == EasyRemovals <==> difficulty == "easy"
    ensures n == HardRemovals <==> difficulty == "hard"
    ensures n == EasyRemovals || n == MediumRemovals || n == HardRemovals
  {
    if difficulty == "easy" then EasyRemovals
    else if difficulty == "hard" then HardRemovals
    else MediumRemovals
  }

  /** The table of removal counts, with unknown names falling back to medium. */
  lemma RemovalCounts(difficulty: string)
    ensures RemovalCount("easy") == 35 && RemovalCount("medium") == 45 && RemovalCount("hard") == 55
    ensures difficulty != "easy" && difficulty != "hard" ==> RemovalCount(difficulty) == 45
    ensures 0 < RemovalCount(difficulty) < Size * Size
  {
  }

  // ---------------------------------------------------------------------
  // isValid: the generator's own check, without self-exclusion
  // ---------------------------------------------------------------------

  /** `isValid(board, row, col, num)`: num occurs nowhere in row `row`,
      column `col` or the box of (row, col), that cell included. */
  function CanPlace(g: Grid, row: int, col: int, num: int): (b: bool)
    requires IsGrid(g) && InBounds(row, col)
    ensures b <==> !OccursInUnits(g, row, col, num)
  {
    var br := 3 * (row / 3);
    var bc := 3 * (col / 3);
    var inRow := RowHas(g, row, -1, num, 0);
    var inColumn := ColumnHas(g, col, -1, num, 0);
    var inBox := BoxHas(g, br, bc, -1, -1, num, br);
    forall i | 0 <= i < Size { BoxRange(row, i); }
    forall j | 0 <= j < Size { BoxRange(col, j); }
    !inRow && !inColumn && !inBox
  }

  /** The two copies agree except on the queried cell itself: `isValid`
      is `isValidMove` plus "the cell does not already hold num". */
  lemma CanPlaceIsValidMove(g: Grid, row: int, col: int, num: int)
    requires IsGrid(g) && InBounds(row, col)
    ensures CanPlace(g, row, col, num) <==> g[row][col] != num && IsValidMove(g, row, col, num)
  {
    if !CanPlace(g, row, col, num) && g[row][col] != num {
      var i, j :| InBounds(i, j) && SameUnit(row, col, i, j) && g[i][j] == num;
      assert Peers(row, col, i, j);
    }
  }

  /** On an empty cell 0 is never placeable, since the cell itself holds 0. */
  lemma ZeroNeverPlaceable(g: Grid, row: int, col: int)
    requires IsGrid(g) && InBounds(row, col) && g[row][col] == 0
    ensures !CanPlace(g, row, col, 0)
  {
    assert SameUnit(row, col, row, col);
  }

  // ---------------------------------------------------------------------
  // The search, as a function on grid values
  // ---------------------------------------------------------------------

  /** Outcome of a search: whether it filled the board, the board it left,
      and the number of cell visits (shuffles drawn) so far. */
  datatype Search = Search(filled: bool, grid: Grid, visits: nat)

  /** `fillBoard` on a grid value: stop with success when no cell is empty,
      otherwise try the shuffled candidates of this visit at the first
      empty cell in row-major order. A failed search leaves the grid as it
      found it. */
  function Fill(g: Grid, order: nat -> seq<int>, visit: nat): (s: Search)
    requires IsGrid(g)
    ensures IsGrid(s.grid) && visit <= s.visits
    ensures !s.filled ==> s.grid == g
    decreases ZeroCells(g), 2, 0
  {
    if IsFull(g) then Search(true, g, visit)
    else
      EmptyCellsNonEmpty(g);
      var x := EmptyCells(g)[0];
      assert x in ZeroCells(g);
      Try(g, order, visit + 1, x, order(visit), 0)
  }

  /** The candidate loop of `fillBoard` at empty cell x, from candidate k on. */
  function Try(g: Grid, order: nat -> seq<int>, visit: nat, x: Cell, numbers: seq<int>, k: nat): (s: Search)
    requires IsGrid(g) && InBounds(x.row, x.col) && g[x.row][x.col] == 0 && k <= |numbers|
    ensures IsGrid(s.grid) && visit <= s.visits
    ensures !s.filled ==> s.grid == g
    decreases ZeroCells(g), 1, |numbers| - k
  {
    if k == |numbers| then Search(false, g, visit)
    else if CanPlace(g, x.row, x.col, numbers[k]) then
      var s := Attempt(g, order, visit, x, numbers[k]);
      if s.filled then s else Try(g, order, s.visits, x, numbers, k + 1)
    else Try(g, order, visit, x, numbers, k + 1)
  }

  /** One accepted candidate: write it, recurse, and on failure reset the
      cell to 0. */
  function Attempt(g: Grid, order: nat -> seq<int>, visit: nat, x: Cell, num: int): (s: Search)
    requires IsGrid(g) && InBounds(x.row, x.col) && g[x.row][x.col] == 0 && CanPlace(g, x.row, x.col, num)
    ensures IsGrid(s.grid) && visit <= s.visits
    ensures !s.filled ==> s.grid == g
    decreases ZeroCells(g), 0, 0
  {
    ZeroNeverPlaceable(g, x.row, x.col);
    PlaceShrinksZeroCells(g, x.row, x.col, num);
    var s := Fill(Place(g, x.row, x.col, num), order, visit);
    if s.filled then s else Search(false, g, s.visits)
  }

  /** A successful search leaves the board full and keeps every cell that
      was filled when it started. */
  lemma {:induction false} FillShape(g: Grid, order: nat -> seq<int>, visit: nat)
    requires IsGrid(g)
    ensures Fill(g, order, visit).filled ==> IsFull(Fill(g, order, visit).grid) && Extends(g, Fill(g, order, visit).grid)
    decreases ZeroCells(g), 2, 0
  {
    if !IsFull(g) {
      EmptyCellsNonEmpty(g);
      var x := EmptyCells(g)[0];
      assert x in ZeroCells(g);
      TryShape(g, order, visit + 1, x, order(visit), 0);
    }
  }

  lemma {:induction false} TryShape(g: Grid, order: nat -> seq<int>, visit: nat, x: Cell, numbers: seq<int>, k: nat)
    requires IsGrid(g) && InBounds(x.row, x.col) && g[x.row][x.col] == 0 && k <= |numbers|
    ensures var s := Try(g, order, visit, x, numbers, k); s.filled ==> IsFull(s.grid) && Extends(g, s.grid)
    decreases ZeroCells(g), 1, |numbers| - k
  {
    if k < |numbers| {
      if CanPlace(g, x.row, x.col, numbers[k]) {
        var s := Attempt(g, order, visit, x, numbers[k]);
        AttemptShape(g, order, visit, x, numbers[k]);
        if !s.filled {
          TryShape(g, order, s.visits, x, numbers, k + 1);
        }
      } else {
        TryShape(g, order, visit, x, numbers, k + 1);
      }
    }
  }

  lemma {:induction false} AttemptShape(g: Grid, order: nat -> seq<int>, visit: nat, x: Cell, num: int)
    requires IsGrid(g) && InBounds(x.row, x.col) && g[x.row][x.col] == 0 && CanPlace(g, x.row, x.col, num)
    ensures var s := Attempt(g, order, visit, x, num); s.filled ==> IsFull(s.grid) && Extends(g, s.grid) && s.grid[x.row][x.col] == num
    decreases ZeroCells(g), 0, 0
  {
    ZeroNeverPlaceable(g, x.row, x.col);
    PlaceShrinksZeroCells(g, x.row, x.col, num);
    var s := Fill(Place(g, x.row, x.col, num), order, visit);
    FillShape(Place(g, x.row, x.col, num), order, visit);
    if s.filled {
      ExtendsPlace(g, x.row, x.col, num, s.grid);
    }
  }

  // ---------------------------------------------------------------------
  // The search invariant
  // ---------------------------------------------------------------------

  /** No two peers hold the same nonzero value. */
  ghost predicate ConflictFree(g: Grid)
    requires IsGrid(g)
  {
    forall i, j :: InBounds(i, j) ==> CellFree(g, i, j)
  }

  /** A filled cell that `isValidMove` would accept where it stands. */
  ghost predicate CellFree(g: Grid, i: int, j: int)
    requires IsGrid(g) && InBounds(i, j)
  {
    g[i][j] != 0 ==> IsValidMove(g, i, j, g[i][j])
  }

  /** A conflict-free board with no empty cell is complete. */
  lemma FullConflictFreeIsComplete(g: Grid)
    requires IsGrid(g) && IsFull(g) && ConflictFree(g)
    ensures IsPuzzleComplete(g)
  {
    forall i, j | InBounds(i, j) ensures IsValidMove(g, i, j, g[i][j]) {
      assert CellFree(g, i, j);
    }
  }

  /** Writing a placeable value into an empty cell keeps the board conflict-free. */
  lemma PlaceKeepsConflictFree(g: Grid, r: int, c: int, n: int)
    requires IsGrid(g) && ConflictFree(g) && InBounds(r, c) && g[r][c] == 0 && CanPlace(g, r, c, n)
    ensures ConflictFree(Place(g, r, c, n))
  {
    var h := Place(g, r, c, n);
    forall i, j | InBounds(i, j) ensures CellFree(h, i, j) {
      if h[i][j] != 0 {
        PlaceKeepsCellFree(g, r, c, n, i, j);
      }
    }
  }

  lemma PlaceKeepsCellFree(g: Grid, r: int, c: int, n: int, i: int, j: int)
    requires IsGrid(g) && ConflictFree(g) && InBounds(r, c) && g[r][c] == 0 && CanPlace(g, r, c, n)
    requires InBounds(i, j) && Place(g, r, c, n)[i][j] != 0
    ensures IsValidMove(Place(g, r, c, n), i, j, Place(g, r, c, n)[i][j])
  {
    assert CellFree(g, i, j);
  }

  /** Filling an empty cell removes exactly that cell from the empty cells. */
  lemma PlaceShrinksZeroCells(g: Grid, r: int, c: int, n: int)
    requires IsGrid(g) && InBounds(r, c) && g[r][c] == 0 && n != 0
    ensures ZeroCells(Place(g, r, c, n)) == ZeroCells(g) - {Cell(r, c)}
    ensures ZeroCells(Place(g, r, c, n)) < ZeroCells(g)
  {
    var h := Place(g, r, c, n);
    assert Cell(r, c) in ZeroCells(g);
    forall x | x in ZeroCells(h) ensures x in ZeroCells(g) - {Cell(r, c)} {
      assert h[x.row][x.col] == 0;
    }
    forall x | x in ZeroCells(g) - {Cell(r, c)} ensures x in ZeroCells(h) {
      assert g[x.row][x.col] == 0;
    }
  }

  /** A grid that extends g with one empty cell filled extends g itself. */
  lemma ExtendsPlace(g: Grid, r: int, c: int, n: int, h: Grid)
    requires IsGrid(g) && IsGrid(h) && InBounds(r, c) && g[r][c] == 0 && n != 0
    requires Extends(Place(g, r, c, n), h)
    ensures Extends(g, h) && h[r][c] == n
  {
    var p := Place(g, r, c, n);
    forall i, j | 0 <= i < Size && 0 <= j < Size && g[i][j] != 0 ensures h[i][j] == g[i][j] {
      assert p[i][j] == g[i][j];
    }
  }

  /** The candidate lists the search may be given: permutations of 1..9. */
  ghost predicate Shuffles(order: nat -> seq<int>) {
    forall k :: IsDigitPermutation(order(k))
  }

  /** The weaker demand soundness needs: every candidate is a digit 1..9. */
  ghost predicate DigitLists(order: nat -> seq<int>) {
    forall k: nat :: DigitList(order(k))
  }

  ghost predicate DigitList(numbers: seq<int>) {
    forall i :: 0 <= i < |numbers| ==> 1 <= numbers[i] <= 9
  }

  /** Soundness of the search: started on a conflict-free grid of digits,
      with candidates that are digits, it keeps the grid conflict-free and
      made of digits. */
  lemma {:induction false} FillSound(g: Grid, order: nat -> seq<int>, visit: nat)
    requires IsGrid(g) && Digits(g) && ConflictFree(g) && DigitLists(order)
    ensures Digits(Fill(g, order, visit).grid) && ConflictFree(Fill(g, order, visit).grid)
    decreases ZeroCells(g), 2, 0
  {
    if IsFull(g) {
      assert Fill(g, order, visit).grid == g;
    } else {
      EmptyCellsNonEmpty(g);
      var x := EmptyCells(g)[0];
      assert x in ZeroCells(g);
      var s := Try(g, order, visit + 1, x, order(visit), 0);
      assert DigitList(order(visit));
      TrySound(g, order, visit + 1, x, order(visit), 0);
      assert Fill(g, order, visit) == s;
    }
  }

  lemma {:induction false} TrySound(g: Grid, order: nat -> seq<int>, visit: nat, x: Cell, numbers: seq<int>, k: nat)
    requires IsGrid(g) && Digits(g) && ConflictFree(g) && DigitLists(order)
    requires InBounds(x.row, x.col) && g[x.row][x.col] == 0 && k <= |numbers|
    requires DigitList(numbers)
    ensures Digits(Try(g, order, visit, x, numbers, k).grid) && ConflictFree(Try(g, order, visit, x, numbers, k).grid)
    decreases ZeroCells(g), 1, |numbers| - k
  {
    if k < |numbers| {
      if CanPlace(g, x.row, x.col, numbers[k]) {
        var s := Attempt(g, order, visit, x, numbers[k]);
        AttemptSound(g, order, visit, x, numbers[k]);
        if !s.filled {
          TrySound(g, order, s.visits, x, numbers, k + 1);
        }
      } else {
        TrySound(g, order, visit, x, numbers, k + 1);
      }
    }
  }

  lemma {:induction false} AttemptSound(g: Grid, order: nat -> seq<int>, visit: nat, x: Cell, num: int)
    requires IsGrid(g) && Digits(g) && ConflictFree(g) && DigitLists(order)
    requires InBounds(x.row, x.col) && g[x.row][x.col] == 0 && CanPlace(g, x.row, x.col, num) && 1 <= num <= 9
    ensures Digits(Attempt(g, order, visit, x, num).grid) && ConflictFree(Attempt(g, order, visit, x, num).grid)
    decreases ZeroCells(g), 0, 0
  {
    PlaceShrinksZeroCells(g, x.row, x.col, num);
    PlaceKeepsConflictFree(g, x.row, x.col, num);
    PlaceDigits(g, x.row, x.col, num);
    FillSound(Place(g, x.row, x.col, num), order, visit);
  }

  /** A full board of digits whose peers all hold different values. */
  ghost predicate DistinctPeers(h: Grid)
    requires IsGrid(h)
  {
    Digits(h) && IsFull(h) && PeersDiffer(h)
  }

  /** The value a complete extension of g holds at an empty cell of g is
      always a candidate `isValid` accepts there. */
  lemma SolutionValuePlaceable(g: Grid, r: int, c: int, h: Grid)
    requires IsGrid(g) && IsGrid(h) && DistinctPeers(h) && Extends(g, h)
    requires InBounds(r, c) && g[r][c] == 0
    ensures CanPlace(g, r, c, h[r][c])
  {
    if !CanPlace(g, r, c, h[r][c]) {
      var i, j :| InBounds(i, j) && SameUnit(r, c, i, j) && g[i][j] == h[r][c];
      assert Peers(r, c, i, j);
      assert false;
    }
  }

  /** Completeness of the search: whenever some board with distinct peers
      extends the start, the search fills the board, whatever the shuffles. */
  lemma {:induction false} FillComplete(g: Grid, order: nat -> seq<int>, visit: nat, h: Grid)
    requires IsGrid(g) && IsGrid(h) && DistinctPeers(h) && Extends(g, h) && Shuffles(order)
    ensures Fill(g, order, visit).filled
    decreases ZeroCells(g), 2, 0
  {
    if !IsFull(g) {
      EmptyCellsNonEmpty(g);
      var x := EmptyCells(g)[0];
      assert x in ZeroCells(g);
      var numbers := order(visit);
      DigitPermutationCovers(numbers);
      var v := h[x.row][x.col];
      assert 1 <= v <= 9;
      assert v in numbers;
      var m :| 0 <= m < |numbers| && numbers[m] == v;
      TryComplete(g, order, visit + 1, x, numbers, 0, m, h);
    }
  }

  lemma {:induction false} TryComplete(g: Grid, order: nat -> seq<int>, visit: nat, x: Cell, numbers: seq<int>, k: nat, m: nat, h: Grid)
    requires IsGrid(g) && IsGrid(h) && DistinctPeers(h) && Extends(g, h) && Shuffles(order)
    requires InBounds(x.row, x.col) && g[x.row][x.col] == 0
    requires k <= m < |numbers| && numbers[m] == h[x.row][x.col]
    ensures Try(g, order, visit, x, numbers, k).filled
    decreases ZeroCells(g), 1, |numbers| - k
  {
    if k == m {
      SolutionValuePlaceable(g, x.row, x.col, h);
      AttemptComplete(g, order, visit, x, h);
      assert Try(g, order, visit, x, numbers, k) == Attempt(g, order, visit, x, numbers[k]);
    } else if CanPlace(g, x.row, x.col, numbers[k]) {
      var s := Attempt(g, order, visit, x, numbers[k]);
      if !s.filled {
        TryComplete(g, order, s.visits, x, numbers, k + 1, m, h);
        assert Try(g, order, visit, x, numbers, k) == Try(g, order, s.visits, x, numbers, k + 1);
      }
    } else {
      TryComplete(g, order, visit, x, numbers, k + 1, m, h);
    }
  }

  /** Filling an empty cell of g with the value h holds there keeps h an extension. */
  lemma PlaceStillExtends(g: Grid, r: int, c: int, h: Grid)
    requires IsGrid(g) && IsGrid(h) && Extends(g, h) && InBounds(r, c)
    ensures Extends(Place(g, r, c, h[r][c]), h)
  {
    var p := Place(g, r, c, h[r][c]);
    forall i, j | 0 <= i < Size && 0 <= j < Size && p[i][j] != 0 ensures h[i][j] == p[i][j] {
      if i != r || j != c {
        assert p[i][j] == g[i][j];
      }
    }
  }

  lemma {:induction false} AttemptComplete(g: Grid, order: nat -> seq<int>, visit: nat, x: Cell, h: Grid)
    requires IsGrid(g) && IsGrid(h) && DistinctPeers(h) && Extends(g, h) && Shuffles(order)
    requires InBounds(x.row, x.col) && g[x.row][x.col] == 0 && CanPlace(g, x.row, x.col, h[x.row][x.col])
    ensures Attempt(g, order, visit, x, h[x.row][x.col]).filled
    decreases ZeroCells(g), 0, 0
  {
    var v := h[x.row][x.col];
    assert v != 0;
    PlaceShrinksZeroCells(g, x.row, x.col, v);
    PlaceStillExtends(g, x.row, x.col, h);
    FillComplete(Place(g, x.row, x.col, v), order, visit, h);
  }

  // ---------------------------------------------------------------------
  // A known solution: the search from the empty board never fails
  // ---------------------------------------------------------------------

  /** The row-shifted pattern: row i is 1..9 rotated by 3 * (i % 3) + i / 3. */
  function Pattern(): (h: Grid)
    ensures IsGrid(h)
    ensures forall i, j :: InBounds(i, j) ==> h[i][j] == (3 * (i % 3) + i / 3 + j) % 9 + 1
  {
    seq(9, i => seq(9, j => (3 * (i % 3) + i / 3 + j) % 9 + 1))
  }

  /** Two different naturals less than 9 apart differ modulo 9. */
  lemma ShiftsDiffer(x: int, y: int)
    requires 0 <= x && 0 <= y && x != y && -9 < x - y < 9
    ensures x % 9 != y % 9
  {
  }

  /** Peers in the pattern hold different values. */
  lemma PatternPeersDiffer(i: int, j: int, i2: int, j2: int)
    requires InBounds(i, j) && InBounds(i2, j2) && Peers(i, j, i2, j2)
    ensures Pattern()[i][j] != Pattern()[i2][j2]
  {
    var a, b, a2, b2 := i % 3, i / 3, i2 % 3, i2 / 3;
    assert i == 3 * b + a && i2 == 3 * b2 + a2;
    var shift, shift2 := 3 * a + b, 3 * a2 + b2;
    if i == i2 {
      ShiftsDiffer(shift + j, shift + j2);
    } else if j == j2 {
      ShiftsDiffer(shift + j, shift2 + j);
    } else {
      assert b == b2 && a != a2;
      assert j / 3 == j2 / 3;
      assert -3 < j - j2 < 3;
      ShiftsDiffer(shift + j, shift2 + j2);
    }
  }

  /** The pattern is a complete board of digits. */
  lemma PatternComplete()
    ensures Digits(Pattern()) && IsPuzzleComplete(Pattern()) && DistinctPeers(Pattern())
  {
    var h := Pattern();
    forall i, j, i2, j2 | InBounds(i, j) && InBounds(i2, j2) && Peers(i, j, i2, j2)
      ensures h[i][j] != h[i2][j2]
    {
      PatternPeersDiffer(i, j, i2, j2);
    }
    assert IsPuzzleComplete(h);
  }

  /** With shuffles that are permutations of 1..9, `fillBoard` on the empty
      board always succeeds: the source's ignored result is always true. */
  lemma GenerationSucceeds(order: nat -> seq<int>)
    requires Shuffles(order)
    ensures Fill(EmptyGrid(), order, 0).filled
  {
    PatternComplete();
    FillComplete(EmptyGrid(), order, 0, Pattern());
  }

  // ---------------------------------------------------------------------
  // fillBoard and generateCompleteSudoku, in place
  // ---------------------------------------------------------------------

  /** The first empty cell in row-major order comes first in `EmptyCells`. */
  lemma FirstOfEmptyCells(g: Grid, x: Cell)
    requires IsGrid(g) && InBounds(x.row, x.col) && g[x.row][x.col] == 0
    requires forall i, j :: InBounds(i, j) && 9 * i + j < Index(x) ==> g[i][j] != 0
    ensures EmptyCells(g) != [] && EmptyCells(g)[0] == x
  {
    var cells := EmptyCells(g);
    assert x in ZeroCells(g);
    assert x in cells;
    var y := cells[0];
    assert y in ZeroCells(g);
    if y != x {
      assert false;
    }
  }

  /** The scan at the head of `fillBoard`: the first empty cell in
      row-major order, or `row == Size` when there is none. */
  method FirstEmpty(a: array2<int>) returns (row: int, col: int)
    requires a.Length0 == Size && a.Length1 == Size
    ensures row == Size ==> IsFull(Snapshot(a))
    ensures row != Size ==> InBounds(row, col) && a[row, col] == 0
    ensures row != Size ==> EmptyCells(Snapshot(a)) != [] && EmptyCells(Snapshot(a))[0] == Cell(row, col)
  {
    row := 0;
    while row < Size
      invariant 0 <= row <= Size
      invariant forall i, j :: 0 <= i < row && 0 <= j < Size ==> a[i, j] != 0
    {
      col := 0;
      while col < Size
        invariant 0 <= col <= Size
        invariant forall j :: 0 <= j < col ==> a[row, j] != 0
      {
        if a[row, col] == 0 {
          FirstOfEmptyCells(Snapshot(a), Cell(row, col));
          return;
        }
        col := col + 1;
      }
      row := row + 1;
    }
    col := 0;
  }

  /** `fillBoard(board)`: take the first empty cell and try the candidates
      of this visit in their shuffled order; the board and the result are
      those of `Fill`. */
  method FillBoard(a: array2<int>, order: nat -> seq<int>, visit: nat) returns (filled: bool, nextVisit: nat)
    requires a.Length0 == Size && a.Length1 == Size
    modifies a
    ensures Search(filled, Snapshot(a), nextVisit) == Fill(old(Snapshot(a)), order, visit)
    decreases ZeroCells(Snapshot(a)), 1
  {
    ghost var g0 := Snapshot(a);
    var row, col := FirstEmpty(a);
    if row == Size {
      return true, visit;
    }
    var numbers := order(visit);
    nextVisit := visit + 1;
    for k := 0 to |numbers|
      invariant Snapshot(a) == g0
      invariant Try(g0, order, nextVisit, Cell(row, col), numbers, k) == Fill(g0, order, visit)
    {
      var num := numbers[k];
      if CanPlace(Snapshot(a), row, col, num) {
        filled, nextVisit := PlaceAndRecurse(a, order, nextVisit, row, col, num);
        if filled {
          return;
        }
      }
    }
    return false, nextVisit;
  }

  /** One accepted candidate of `fillBoard`: write it, recurse, and reset
      the cell to 0 when the recursion fails. */
  method PlaceAndRecurse(a: array2<int>, order: nat -> seq<int>, visit: nat, row: int, col: int, num: int)
    returns (filled: bool, nextVisit: nat)
    requires a.Length0 == Size && a.Length1 == Size
    requires InBounds(row, col) && a[row, col] == 0 && CanPlace(Snapshot(a), row, col, num)
    modifies a
    ensures Search(filled, Snapshot(a), nextVisit) == Attempt(old(Snapshot(a)), order, visit, Cell(row, col), num)
    decreases ZeroCells(Snapshot(a)), 0
  {
    ghost var g0 := Snapshot(a);
    ZeroNeverPlaceable(g0, row, col);
    PlaceShrinksZeroCells(g0, row, col, num);
    a[row, col] := num;
    GridEq(Snapshot(a), Place(g0, row, col, num));
    filled, nextVisit := FillBoard(a, order, visit);
    if filled {
      return;
    }
    a[row, col] := 0;
    GridEq(Snapshot(a), g0);
  }

  /** The all-zero board the generator starts from. */
  function EmptyGrid(): (g: Grid)
    ensures IsGrid(g) && forall i, j :: InBounds(i, j) ==> g[i][j] == 0
  {
    seq(Size, i => seq(Size, j => 0))
  }

  /** `generateCompleteSudoku()`: search from an empty board, ignoring
      fillBoard's result as the source does. */
  method GenerateCompleteSudoku(order: nat -> seq<int>) returns (board: array2<int>)
    ensures fresh(board) && board.Length0 == Size && board.Length1 == Size
    ensures Snapshot(board) == Fill(EmptyGrid(), order, 0).grid
  {
    board := new int[Size, Size]((i, j) => 0);
    GridEq(Snapshot(board), EmptyGrid());
    var filled, visits := FillBoard(board, order, 0);
  }

  /** With shuffled candidate lists, generation always produces a complete
      board of digits. */
  lemma GeneratedIsComplete(order: nat -> seq<int>)
    requires Shuffles(order)
    ensures Digits(Fill(EmptyGrid(), order, 0).grid) && IsPuzzleComplete(Fill(EmptyGrid(), order, 0).grid)
  {
    var s := Fill(EmptyGrid(), order, 0);
    assert DigitLists(order) by {
      forall k: nat ensures DigitList(order(k)) {
        assert IsDigitPermutation(order(k));
      }
    }
    FillSound(EmptyGrid(), order, 0);
    GenerationSucceeds(order);
    FillShape(EmptyGrid(), order, 0);
    FullConflictFreeIsComplete(s.grid);
  }

  // ---------------------------------------------------------------------
  // createPuzzle
  // ---------------------------------------------------------------------

  /** The distinct cells of a sequence of draws. */
  function CellSet(cells: seq<Cell>): set<Cell> {
    set x | x in cells
  }

  /** Drawing one more cell adds it to the set of drawn cells. */
  lemma CellSetSnoc(cells: seq<Cell>, k: int)
    requires 0 <= k < |cells|
    ensures CellSet(cells[..k + 1]) == CellSet(cells[..k]) + {cells[k]}
  {
    assert cells[..k + 1] == cells[..k] + [cells[k]];
  }

  /** The carving loop of `createPuzzle`: draw cells and blank each one that
      is not blank yet, until `toRemove` cells have been blanked. On a full
      board the blanked cells are exactly the distinct cells of some prefix
      of the draws, and every other cell keeps its value. */
  method RemoveCells(puzzle: array2<int>, toRemove: nat, samples: seq<Cell>) returns (drawn: nat)
    requires puzzle.Length0 == Size && puzzle.Length1 == Size
    requires IsFull(Snapshot(puzzle))
    requires forall x :: x in samples ==> InBounds(x.row, x.col)
    requires |CellSet(samples)| >= toRemove
    modifies puzzle
    ensures drawn <= |samples|
    ensures ZeroCells(Snapshot(puzzle)) == CellSet(samples[..drawn])
    ensures |ZeroCells(Snapshot(puzzle))| == toRemove
    ensures forall i, j :: InBounds(i, j) ==> puzzle[i, j] == 0 || puzzle[i, j] == old(puzzle[i, j])
  {
    ghost var g0 := Snapshot(puzzle);
    var removed := 0;
    drawn := 0;
    while removed < toRemove
      invariant 0 <= drawn <= |samples|
      invariant removed == |CellSet(samples[..drawn])| <= toRemove
      invariant drawn == |samples| ==> removed >= toRemove
      invariant forall i, j :: InBounds(i, j) ==>
        puzzle[i, j] == if Cell(i, j) in CellSet(samples[..drawn]) then 0 else g0[i][j]
      decreases |samples| - drawn
    {
      var cell := samples[drawn];
      CellSetSnoc(samples, drawn);
      ghost var before := CellSet(samples[..drawn]);
      if puzzle[cell.row, cell.col] != 0 {
        assert cell !in before;
        assert |before + {cell}| == |before| + 1;
        puzzle[cell.row, cell.col] := 0;
        removed := removed + 1;
      } else {
        assert cell in before;
        assert before + {cell} == before;
      }
      drawn := drawn + 1;
      if drawn == |samples| {
        assert samples[..drawn] == samples;
      }
    }
    ghost var z := Snapshot(puzzle);
    forall x | x in ZeroCells(z) ensures x in CellSet(samples[..drawn]) {
      assert z[x.row][x.col] == 0;
    }
    forall x | x in CellSet(samples[..drawn]) ensures x in ZeroCells(z) {
      assert x in samples;
    }
  }

  /** `createPuzzle(difficulty)`: copy a complete grid and blank
      `RemovalCount(difficulty)` distinct drawn cells; the draws are given
      and must name enough distinct cells. */
  method CreatePuzzle(difficulty: string, order: nat -> seq<int>, samples: seq<Cell>)
    returns (puzzle: array2<int>, solution: array2<int>)
    requires Shuffles(order)
    requires forall x :: x in samples ==> InBounds(x.row, x.col)
    requires |CellSet(samples)| >= RemovalCount(difficulty)
    ensures fresh(puzzle) && fresh(solution) && puzzle != solution
    ensures puzzle.Length0 == Size && puzzle.Length1 == Size
    ensures solution.Length0 == Size && solution.Length1 == Size
    ensures Digits(Snapshot(solution)) && IsPuzzleComplete(Snapshot(solution))
    ensures |ZeroCells(Snapshot(puzzle))| == RemovalCount(difficulty)
    ensures forall i, j :: InBounds(i, j) ==> puzzle[i, j] == 0 || puzzle[i, j] == solution[i, j]
  {
    solution := GenerateCompleteSudoku(order);
    GeneratedIsComplete(order);
    puzzle := GameHelpers.CloneBoard(solution);
    assert IsFull(Snapshot(solution));
    GridEq(Snapshot(puzzle), Snapshot(solution));
    RemovalCounts(difficulty);
    var drawn := RemoveCells(puzzle, RemovalCount(difficulty), samples);
  }
}
