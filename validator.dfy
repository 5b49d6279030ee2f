/** Move legality and completion checks over a grid (`isValidMove`,
    `isPuzzleComplete`, `getEmptyCells`). All of them only read the grid. */
module Validator {
  import opened Board

  // ---------------------------------------------------------------------
  // Reference definitions: peers of a cell and what a solved grid is
  // ---------------------------------------------------------------------

  /** (r1, c1) and (r2, c2) lie in the same 3x3 box. */
  predicate SameBox(r1: int, c1: int, r2: int, c2: int) {
    r1 / 3 == r2 / 3 && c1 / 3 == c2 / 3
  }

  /** (r2, c2) shares a row, a column or a box with (r1, c1). */
  predicate SameUnit(r1: int, c1: int, r2: int, c2: int) {
    r1 == r2 || c1 == c2 || SameBox(r1, c1, r2, c2)
  }

  /** A different cell in the same row, column or box. */
  predicate Peers(r1: int, c1: int, r2: int, c2: int) {
    (r1 != r2 || c1 != c2) && SameUnit(r1, c1, r2, c2)
  }

  /** Some peer of (r, c) holds n. */
  ghost predicate Conflicts(g: Grid, r: int, c: int, n: int)
    requires IsGrid(g)
  {
    exists i, j :: InBounds(i, j) && Peers(r, c, i, j) && g[i][j] == n
  }

  /** Some cell of the row, column or box of (r, c), (r, c) included, holds n. */
  ghost predicate OccursInUnits(g: Grid, r: int, c: int, n: int)
    requires IsGrid(g)
  {
    exists i, j :: InBounds(i, j) && SameUnit(r, c, i, j) && g[i][j] == n
  }

  /** A row, column or box read as a sequence is a permutation of 1..9. */
  predicate IsDigitPermutation(s: seq<int>) {
    && |s| == Size
    && (forall i :: 0 <= i < |s| ==> 1 <= s[i] <= 9)
    && (forall i, j :: 0 <= i < j < |s| ==> s[i] != s[j])
  }

  function Column(g: Grid, c: int): (s: seq<int>)
    requires IsGrid(g) && 0 <= c < Size
  {
    seq(Size, i requires 0 <= i < Size => g[i][c])
  }

  /** Row and column of the k-th cell (row-major) of box b (row-major). */
  function BoxRow(b: int, k: int): (r: int)
    requires 0 <= b < Size && 0 <= k < Size
    ensures 0 <= r < Size
  {
    3 * (b / 3) + k / 3
  }

  function BoxColumn(b: int, k: int): (c: int)
    requires 0 <= b < Size && 0 <= k < Size
    ensures 0 <= c < Size
  {
    3 * (b % 3) + k % 3
  }

  /** Box b read row by row. */
  function BoxCells(g: Grid, b: int): (s: seq<int>)
    requires IsGrid(g) && 0 <= b < Size
    ensures |s| == Size && forall k :: 0 <= k < Size ==> s[k] == g[BoxRow(b, k)][BoxColumn(b, k)]
  {
    seq(Size, k requires 0 <= k < Size => g[BoxRow(b, k)][BoxColumn(b, k)])
  }

  /** Every row, column and box is a permutation of 1..9. */
  ghost predicate Solved(g: Grid)
    requires IsGrid(g)
  {
    forall u :: 0 <= u < Size ==>
      IsDigitPermutation(g[u]) && IsDigitPermutation(Column(g, u)) && IsDigitPermutation(BoxCells(g, u))
  }

  // ---------------------------------------------------------------------
  // The three scans. A skipped coordinate of -1 matches no cell, which is
  // how the generator's copy (no self-exclusion) shares them.
  // ---------------------------------------------------------------------

  /** Scan columns i..8 of row r, skipping column `skip`. */
  function RowHas(g: Grid, r: int, skip: int, n: int, i: int): (b: bool)
    requires IsGrid(g) && 0 <= r < Size && 0 <= i <= Size
    ensures b <==> exists j :: i <= j < Size && j != skip && g[r][j] == n
    decreases Size - i
  {
    if i == Size then false
    else if i != skip && g[r][i] == n then true
    else RowHas(g, r, skip, n, i + 1)
  }

  /** Scan rows i..8 of column c, skipping row `skip`. */
  function ColumnHas(g: Grid, c: int, skip: int, n: int, i: int): (b: bool)
    requires IsGrid(g) && 0 <= c < Size && 0 <= i <= Size
    ensures b <==> exists k :: i <= k < Size && k != skip && g[k][c] == n
    decreases Size - i
  {
    if i == Size then false
    else if i != skip && g[i][c] == n then true
    else ColumnHas(g, c, skip, n, i + 1)
  }

  /** Inner box loop: columns j..bc+2 of row i, skipping cell (sr, sc). */
  function BoxRowHas(g: Grid, i: int, bc: int, sr: int, sc: int, n: int, j: int): (b: bool)
    requires IsGrid(g) && 0 <= i < Size && 0 <= bc && bc + BoxSize <= Size && bc <= j <= bc + BoxSize
    ensures b <==> exists j' :: j <= j' < bc + BoxSize && (i != sr || j' != sc) && g[i][j'] == n
    decreases bc + BoxSize - j
  {
    if j == bc + BoxSize then false
    else if (i != sr || j != sc) && g[i][j] == n then true
    else BoxRowHas(g, i, bc, sr, sc, n, j + 1)
  }

  /** Outer box loop: rows i..br+2 of the box with corner (br, bc), skipping (sr, sc). */
  function BoxHas(g: Grid, br: int, bc: int, sr: int, sc: int, n: int, i: int): (b: bool)
    requires IsGrid(g) && 0 <= br && br + BoxSize <= Size && 0 <= bc && bc + BoxSize <= Size
    requires br <= i <= br + BoxSize
    ensures b <==> exists i', j' :: i <= i' < br + BoxSize && bc <= j' < bc + BoxSize
                                && (i' != sr || j' != sc) && g[i'][j'] == n
    decreases br + BoxSize - i
  {
    if i == br + BoxSize then false
    else if BoxRowHas(g, i, bc, sr, sc, n, bc) then true
    else BoxHas(g, br, bc, sr, sc, n, i + 1)
  }

  /** Division and remainder by 3 of 3 * q + r. */
  lemma DivMod3(q: int, r: int)
    requires 0 <= r < 3
    ensures (3 * q + r) / 3 == q && (3 * q + r) % 3 == r
  {
  }

  /** The corner scan range of a box is exactly the cells of that box. */
  lemma BoxRange(r: int, i: int)
    requires 0 <= r < Size && 0 <= i < Size
    ensures (3 * (r / 3) <= i < 3 * (r / 3) + BoxSize) <==> i / 3 == r / 3
  {
  }

  // ---------------------------------------------------------------------
  // isValidMove and isPuzzleComplete
  // ---------------------------------------------------------------------

  /** A peer holding num is found by one of the three scans. */
  lemma ConflictScanned(g: Grid, row: int, col: int, num: int)
    requires IsGrid(g) && InBounds(row, col) && Conflicts(g, row, col, num)
    ensures RowHas(g, row, col, num, 0) || ColumnHas(g, col, row, num, 0)
      || BoxHas(g, 3 * (row / 3), 3 * (col / 3), row, col, num, 3 * (row / 3))
  {
    var i, j :| InBounds(i, j) && Peers(row, col, i, j) && g[i][j] == num;
    if i == row {
      assert RowHas(g, row, col, num, 0);
    } else if j == col {
      assert ColumnHas(g, col, row, num, 0);
    } else {
      BoxRange(row, i);
      BoxRange(col, j);
      assert BoxHas(g, 3 * (row / 3), 3 * (col / 3), row, col, num, 3 * (row / 3));
    }
  }

  /** Whatever the three scans find is a peer holding num. */
  lemma ScannedConflict(g: Grid, row: int, col: int, num: int)
    requires IsGrid(g) && InBounds(row, col)
    requires RowHas(g, row, col, num, 0) || ColumnHas(g, col, row, num, 0)
      || BoxHas(g, 3 * (row / 3), 3 * (col / 3), row, col, num, 3 * (row / 3))
    ensures Conflicts(g, row, col, num)
  {
    var br := 3 * (row / 3);
    var bc := 3 * (col / 3);
    if RowHas(g, row, col, num, 0) {
      var j :| 0 <= j < Size && j != col && g[row][j] == num;
      assert Peers(row, col, row, j);
    } else if ColumnHas(g, col, row, num, 0) {
      var i :| 0 <= i < Size && i != row && g[i][col] == num;
      assert Peers(row, col, i, col);
    } else {
      var i, j :| br <= i < br + BoxSize && bc <= j < bc + BoxSize && (i != row || j != col) && g[i][j] == num;
      BoxRange(row, i);
      BoxRange(col, j);
      assert Peers(row, col, i, j);
    }
  }

  /** `isValidMove(board, row, col, num)`: num occurs in no other cell of
      row `row`, column `col` or the box of (row, col). */
  function IsValidMove(g: Grid, row: int, col: int, num: int): (b: bool)
    requires IsGrid(g) && InBounds(row, col)
    ensures b <==> !Conflicts(g, row, col, num)
  {
    var br := 3 * (row / 3);
    var bc := 3 * (col / 3);
    var found := RowHas(g, row, col, num, 0) || ColumnHas(g, col, row, num, 0) || BoxHas(g, br, bc, row, col, num, br);
    if found then
      ScannedConflict(g, row, col, num);
      false
    else
      assert !Conflicts(g, row, col, num) by {
        if Conflicts(g, row, col, num) {
          ConflictScanned(g, row, col, num);
        }
      }
      true
  }

  /** Cells that all pass `isValidMove` have no conflicting peer. */
  lemma ValidMovesConflictFree(g: Grid)
    requires IsGrid(g)
    ensures (forall i, j {:trigger IsValidMove(g, i, j, g[i][j])} | 0 <= i < Size && 0 <= j < Size ::
               IsValidMove(g, i, j, g[i][j]))
      ==> forall i, j | 0 <= i < Size && 0 <= j < Size :: !Conflicts(g, i, j, g[i][j])
  {
    forall i, j | InBounds(i, j)
      ensures IsValidMove(g, i, j, g[i][j]) <==> !Conflicts(g, i, j, g[i][j])
    {
    }
  }

  /** `isPuzzleComplete(board)`: the board is full and every cell's value
      passes `isValidMove` against the rest of the board. */
  predicate IsPuzzleComplete(g: Grid): (b: bool)
    requires IsGrid(g)
    ensures b ==> forall i, j | 0 <= i < Size && 0 <= j < Size :: !Conflicts(g, i, j, g[i][j])
  {
    ValidMovesConflictFree(g);
    IsFull(g) && forall i, j {:trigger IsValidMove(g, i, j, g[i][j])} | 0 <= i < Size && 0 <= j < Size ::
      IsValidMove(g, i, j, g[i][j])
  }

  /** The value already at (row, col) never invalidates a move there: the
      answer does not depend on that cell at all. */
  lemma SelfExcluded(g: Grid, row: int, col: int, previous: int, num: int)
    requires IsGrid(g) && InBounds(row, col)
    ensures IsValidMove(Place(g, row, col, previous), row, col, num) == IsValidMove(g, row, col, num)
  {
    var h := Place(g, row, col, previous);
    if Conflicts(g, row, col, num) {
      var i, j :| InBounds(i, j) && Peers(row, col, i, j) && g[i][j] == num;
      assert h[i][j] == num;
    }
    if Conflicts(h, row, col, num) {
      var i, j :| InBounds(i, j) && Peers(row, col, i, j) && h[i][j] == num;
      assert g[i][j] == num;
    }
  }

  /** Conflict is symmetric: two peers holding the same value are both
      reported invalid for that value. */
  lemma ConflictSymmetric(g: Grid, r1: int, c1: int, r2: int, c2: int)
    requires IsGrid(g) && InBounds(r1, c1) && InBounds(r2, c2)
    requires Peers(r1, c1, r2, c2) && g[r1][c1] == g[r2][c2]
    ensures !IsValidMove(g, r1, c1, g[r1][c1]) && !IsValidMove(g, r2, c2, g[r2][c2])
  {
    assert Peers(r2, c2, r1, c1);
  }

  /** A board with an empty cell is never complete. */
  lemma IncompleteWithEmptyCell(g: Grid, r: int, c: int)
    requires IsGrid(g) && InBounds(r, c) && g[r][c] == 0
    ensures !IsPuzzleComplete(g)
  {
  }

  // ---------------------------------------------------------------------
  // Completion means every row, column and box is a permutation of 1..9
  // ---------------------------------------------------------------------

  lemma {:induction false} DistinctCardinality(s: seq<int>)
    requires forall i, j :: 0 <= i < j < |s| ==> s[i] != s[j]
    ensures |set x | x in s| == |s|
  {
    if s != [] {
      var t := s[..|s| - 1];
      DistinctCardinality(t);
      assert (set x | x in s) == (set x | x in t) + {s[|s| - 1]};
      assert s[|s| - 1] !in t;
    }
  }

  /** The digits 1..9. */
  const AllDigits: set<int> := {1, 2, 3, 4, 5, 6, 7, 8, 9}

  lemma AllDigitsCount()
    ensures |AllDigits| == 9
  {
  }

  /** Nine distinct digits 1..9 contain every digit 1..9. */
  lemma DigitPermutationCovers(s: seq<int>)
    requires IsDigitPermutation(s)
    ensures forall d :: 1 <= d <= 9 ==> d in s
  {
    var values := set x | x in s;
    DistinctCardinality(s);
    assert values <= AllDigits;
    SubsetCardinality(values, AllDigits);
    AllDigitsCount();
    forall d | 1 <= d <= 9 ensures d in s {
      assert d in AllDigits;
      assert d !in AllDigits - values;
    }
  }

  /** The digits a subset leaves out are as many as the sizes differ by. */
  lemma SubsetCardinality(a: set<int>, b: set<int>)
    requires a <= b
    ensures |b - a| == |b| - |a|
  {
    assert b == a + (b - a);
    assert a * (b - a) == {};
  }

  /** The cells of box b are exactly the cells whose box is b, each once. */
  lemma BoxPosition(b: int, k: int)
    requires 0 <= b < Size && 0 <= k < Size
    ensures SameBox(BoxRow(b, k), BoxColumn(b, k), BoxRow(b, 0), BoxColumn(b, 0))
    ensures 3 * (BoxRow(b, k) / 3) + BoxColumn(b, k) / 3 == b
    ensures 3 * (BoxRow(b, k) % 3) + BoxColumn(b, k) % 3 == k
  {
  }

  /** Two different cells of one box are peers. */
  lemma BoxPeers(b: int, k1: int, k2: int)
    requires 0 <= b < Size && 0 <= k1 < Size && 0 <= k2 < Size && k1 != k2
    ensures Peers(BoxRow(b, k1), BoxColumn(b, k1), BoxRow(b, k2), BoxColumn(b, k2))
  {
    BoxPosition(b, k1);
    BoxPosition(b, k2);
  }

  /** Two peers of a complete board hold different values. */
  lemma CompletePeersDiffer(g: Grid, r1: int, c1: int, r2: int, c2: int)
    requires IsGrid(g) && IsPuzzleComplete(g) && InBounds(r1, c1) && InBounds(r2, c2) && Peers(r1, c1, r2, c2)
    ensures g[r1][c1] != g[r2][c2]
  {
    if g[r1][c1] == g[r2][c2] {
      ConflictSymmetric(g, r1, c1, r2, c2);
    }
  }

  /** No two peers hold the same value. */
  ghost predicate PeersDiffer(g: Grid)
    requires IsGrid(g)
  {
    forall i, j, i2, j2 {:trigger Peers(i, j, i2, j2)} ::
      InBounds(i, j) && InBounds(i2, j2) && Peers(i, j, i2, j2) ==> g[i][j] != g[i2][j2]
  }

  /** `isPuzzleComplete` holds exactly of full boards whose peers all differ. */
  lemma CompleteIffPeersDiffer(g: Grid)
    requires IsGrid(g)
    ensures IsPuzzleComplete(g) <==> IsFull(g) && PeersDiffer(g)
  {
    if IsPuzzleComplete(g) {
      forall i, j, i2, j2 | InBounds(i, j) && InBounds(i2, j2) && Peers(i, j, i2, j2)
        ensures g[i][j] != g[i2][j2]
      {
        CompletePeersDiffer(g, i, j, i2, j2);
      }
    }
    if IsFull(g) && PeersDiffer(g) {
      forall i, j | 0 <= i < Size && 0 <= j < Size ensures IsValidMove(g, i, j, g[i][j]) {
      }
    }
  }

  /** Two cells of one box of a board whose peers differ hold different values. */
  lemma BoxCellsDiffer(g: Grid, b: int, k1: int, k2: int)
    requires IsGrid(g) && PeersDiffer(g) && 0 <= b < Size && 0 <= k1 < k2 < Size
    ensures g[BoxRow(b, k1)][BoxColumn(b, k1)] != g[BoxRow(b, k2)][BoxColumn(b, k2)]
  {
    BoxPeers(b, k1, k2);
  }

  /** On a full board of digits whose peers differ, every row is a permutation of 1..9. */
  lemma RowPermutation(g: Grid, u: int)
    requires IsGrid(g) && Digits(g) && IsFull(g) && PeersDiffer(g) && 0 <= u < Size
    ensures IsDigitPermutation(g[u])
  {
    forall i, j | 0 <= i < j < Size ensures g[u][i] != g[u][j] {
      assert Peers(u, i, u, j);
    }
  }

  /** On a full board of digits whose peers differ, every column is a permutation of 1..9. */
  lemma ColumnPermutation(g: Grid, u: int)
    requires IsGrid(g) && Digits(g) && IsFull(g) && PeersDiffer(g) && 0 <= u < Size
    ensures IsDigitPermutation(Column(g, u))
  {
    var col := Column(g, u);
    forall i, j | 0 <= i < j < Size ensures col[i] != col[j] {
      assert Peers(i, u, j, u);
    }
  }

  /** On a full board of digits whose peers differ, every box is a permutation of 1..9. */
  lemma BoxPermutation(g: Grid, u: int)
    requires IsGrid(g) && Digits(g) && IsFull(g) && PeersDiffer(g) && 0 <= u < Size
    ensures IsDigitPermutation(BoxCells(g, u))
  {
    var s := BoxCells(g, u);
    forall k1, k2 | 0 <= k1 < k2 < Size ensures s[k1] != s[k2] {
      BoxCellsDiffer(g, u, k1, k2);
    }
  }

  /** The box of a cell and its slot inside that box. */
  lemma CellInBox(i: int, j: int)
    requires InBounds(i, j)
    ensures 0 <= 3 * (i / 3) + j / 3 < Size && 0 <= 3 * (i % 3) + j % 3 < Size
    ensures BoxRow(3 * (i / 3) + j / 3, 3 * (i % 3) + j % 3) == i
    ensures BoxColumn(3 * (i / 3) + j / 3, 3 * (i % 3) + j % 3) == j
  {
    DivMod3(i / 3, j / 3);
    DivMod3(i % 3, j % 3);
  }

  /** Two different cells of one box: the box and the two slots in it. */
  lemma BoxCoordinates(i: int, j: int, i2: int, j2: int) returns (b: int, k1: int, k2: int)
    requires InBounds(i, j) && InBounds(i2, j2) && SameBox(i, j, i2, j2) && (i != i2 || j != j2)
    ensures 0 <= b < Size && 0 <= k1 < Size && 0 <= k2 < Size && k1 != k2
    ensures BoxRow(b, k1) == i && BoxColumn(b, k1) == j && BoxRow(b, k2) == i2 && BoxColumn(b, k2) == j2
  {
    b := 3 * (i / 3) + j / 3;
    k1, k2 := 3 * (i % 3) + j % 3, 3 * (i2 % 3) + j2 % 3;
    CellInBox(i, j);
    CellInBox(i2, j2);
  }

  /** Two slots of a box that is a permutation hold different values. */
  lemma BoxSlotsDiffer(g: Grid, b: int, k1: int, k2: int)
    requires IsGrid(g) && 0 <= b < Size && 0 <= k1 < Size && 0 <= k2 < Size && k1 != k2
    requires IsDigitPermutation(BoxCells(g, b))
    ensures g[BoxRow(b, k1)][BoxColumn(b, k1)] != g[BoxRow(b, k2)][BoxColumn(b, k2)]
  {
    var s := BoxCells(g, b);
    if k1 < k2 { assert s[k1] != s[k2]; } else { assert s[k2] != s[k1]; }
  }

  /** Two cells of one row, column or box of a solved board differ. */
  lemma SolvedPeersDiffer(g: Grid, i: int, j: int, i2: int, j2: int)
    requires IsGrid(g) && Solved(g) && InBounds(i, j) && InBounds(i2, j2) && Peers(i, j, i2, j2)
    ensures g[i][j] != g[i2][j2]
  {
    if i2 == i {
      assert IsDigitPermutation(g[i]);
      if j < j2 { assert g[i][j] != g[i][j2]; } else { assert g[i][j2] != g[i][j]; }
    } else if j2 == j {
      var col := Column(g, j);
      assert IsDigitPermutation(col);
      assert col[i] == g[i][j] && col[i2] == g[i2][j];
      if i < i2 { assert col[i] != col[i2]; } else { assert col[i2] != col[i]; }
    } else {
      var b, k1, k2 := BoxCoordinates(i, j, i2, j2);
      assert IsDigitPermutation(BoxCells(g, b));
      BoxSlotsDiffer(g, b, k1, k2);
      assert g[BoxRow(b, k1)][BoxColumn(b, k1)] == g[i][j];
      assert g[BoxRow(b, k2)][BoxColumn(b, k2)] == g[i2][j2];
    }
  }

  /** `isPuzzleComplete` on a board of digits holds exactly when every row,
      column and box is a permutation of 1..9. */
  lemma CompleteIffSolved(g: Grid)
    requires IsGrid(g) && Digits(g)
    ensures IsPuzzleComplete(g) <==> Solved(g)
  {
    CompleteIffPeersDiffer(g);
    if IsFull(g) && PeersDiffer(g) {
      forall u | 0 <= u < Size
        ensures IsDigitPermutation(g[u]) && IsDigitPermutation(Column(g, u)) && IsDigitPermutation(BoxCells(g, u))
      {
        RowPermutation(g, u);
        ColumnPermutation(g, u);
        BoxPermutation(g, u);
      }
    }
    if Solved(g) {
      forall i, j | InBounds(i, j) ensures g[i][j] != 0 {
        assert IsDigitPermutation(g[i]);
      }
      forall i, j, i2, j2 | InBounds(i, j) && InBounds(i2, j2) && Peers(i, j, i2, j2)
        ensures g[i][j] != g[i2][j2]
      {
        SolvedPeersDiffer(g, i, j, i2, j2);
      }
    }
  }

  // ---------------------------------------------------------------------
  // getEmptyCells
  // ---------------------------------------------------------------------

  /** Row-major position of a cell. */
  function Index(x: Cell): int {
    9 * x.row + x.col
  }

  lemma IndexOfPosition(x: Cell, k: int)
    requires InBounds(x.row, x.col) && 0 <= k < 81
    ensures Index(x) == k <==> x == Cell(k / 9, k % 9)
  {
  }

  /** Empty cells at row-major positions k..80, in row-major order. */
  function EmptyCellsFrom(g: Grid, k: int): (cells: seq<Cell>)
    requires IsGrid(g) && 0 <= k <= 81
    ensures forall x :: x in cells <==> InBounds(x.row, x.col) && Index(x) >= k && g[x.row][x.col] == 0
    ensures forall i, j :: 0 <= i < j < |cells| ==> Index(cells[i]) < Index(cells[j])
    ensures forall i :: 0 <= i < |cells| ==> Index(cells[i]) >= k
    decreases 81 - k
  {
    if k == 81 then []
    else
      var x := Cell(k / 9, k % 9);
      var rest := EmptyCellsFrom(g, k + 1);
      forall y: Cell | InBounds(y.row, y.col) { IndexOfPosition(y, k); }
      if g[x.row][x.col] == 0 then [x] + rest else rest
  }

  /** `getEmptyCells(board)`: exactly the empty cells, each once, in
      row-major order. */
  function EmptyCells(g: Grid): (cells: seq<Cell>)
    requires IsGrid(g)
    ensures forall x :: x in cells <==> x in ZeroCells(g)
    ensures forall i, j :: 0 <= i < j < |cells| ==> Index(cells[i]) < Index(cells[j])
  {
    EmptyCellsFrom(g, 0)
  }

  /** A grid with an empty cell lists at least one. */
  lemma EmptyCellsNonEmpty(g: Grid)
    requires IsGrid(g) && !IsFull(g)
    ensures EmptyCells(g) != []
  {
    var i, j :| 0 <= i < Size && 0 <= j < Size && g[i][j] == 0;
    assert Cell(i, j) in ZeroCells(g);
  }

  /** No cell is listed twice. */
  lemma EmptyCellsDistinct(g: Grid)
    requires IsGrid(g)
    ensures forall i, j :: 0 <= i < j < |EmptyCells(g)| ==> EmptyCells(g)[i] != EmptyCells(g)[j]
  {
  }
}
