/** The 9x9 grid shared by the validator, the generator and the game session.
    A grid holds digits 0..9, where 0 marks an empty cell. */
module Board {

  /** Board side and box side (`BOARD_SIZE` and `BOX_SIZE` of the game configuration). */
  const Size: int := 9
  const BoxSize: int := 3

  type Grid = seq<seq<int>>

  /** A cell coordinate, `{ row, col }` in the source. */
  datatype Cell = Cell(row: int, col: int)

  datatype Option<T> = None | Some(value: T)

  predicate InBounds(r: int, c: int) {
    0 <= r < Size && 0 <= c < Size
  }

  /** A 9 by 9 grid (any values). */
  predicate IsGrid(g: Grid) {
    |g| == Size && forall i :: 0 <= i < Size ==> |g[i]| == Size
  }

  /** Every cell holds a digit 0..9. */
  predicate Digits(g: Grid)
    requires IsGrid(g)
  {
    forall i, j | 0 <= i < Size && 0 <= j < Size :: 0 <= g[i][j] <= 9
  }

  /** No cell is empty. */
  predicate IsFull(g: Grid)
    requires IsGrid(g)
  {
    forall i, j | 0 <= i < Size && 0 <= j < Size :: g[i][j] != 0
  }

  /** The grid with cell (r, c) set to v. */
  function Place(g: Grid, r: int, c: int, v: int): (h: Grid)
    requires IsGrid(g) && InBounds(r, c)
    ensures IsGrid(h) && h[r][c] == v
    ensures forall i, j :: InBounds(i, j) && (i != r || j != c) ==> h[i][j] == g[i][j]
  {
    g[r := g[r][c := v]]
  }

  /** Writing a digit keeps every cell a digit. */
  lemma PlaceDigits(g: Grid, r: int, c: int, v: int)
    requires IsGrid(g) && Digits(g) && InBounds(r, c) && 0 <= v <= 9
    ensures Digits(Place(g, r, c, v))
  {
  }

  /** The set of empty cells. */
  function ZeroCells(g: Grid): set<Cell>
    requires IsGrid(g)
  {
    set i, j | 0 <= i < Size && 0 <= j < Size && g[i][j] == 0 :: Cell(i, j)
  }

  /** Every nonzero cell of `g` keeps its value in `h`. */
  predicate Extends(g: Grid, h: Grid)
    requires IsGrid(g) && IsGrid(h)
  {
    forall i, j | 0 <= i < Size && 0 <= j < Size && g[i][j] != 0 :: h[i][j] == g[i][j]
  }

  /** Two grids with the same cells are the same value. */
  lemma GridEq(g: Grid, h: Grid)
    requires IsGrid(g) && IsGrid(h)
    requires forall i, j :: InBounds(i, j) ==> g[i][j] == h[i][j]
    ensures g == h
  {
    forall i | 0 <= i < Size
      ensures g[i] == h[i]
    {
      assert forall j :: 0 <= j < Size ==> g[i][j] == h[i][j];
    }
  }

  /** The grid held by a 9 by 9 array. */
  function Snapshot(a: array2<int>): (g: Grid)
    reads a
    requires a.Length0 == Size && a.Length1 == Size
    ensures IsGrid(g)
    ensures forall i, j :: InBounds(i, j) ==> g[i][j] == a[i, j]
  {
    seq(Size, i requires 0 <= i < Size reads a =>
      seq(Size, j requires 0 <= j < Size reads a => a[i, j]))
  }
}
