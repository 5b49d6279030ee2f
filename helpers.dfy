/** Small helpers of the game: time formatting, board cloning, arrow-key
    navigation and cell equality. */
module GameHelpers {
  import opened Board

  // ---------------------------------------------------------------------
  // Decimal text, as produced by Number.prototype.toString on a natural
  // ---------------------------------------------------------------------

  predicate IsDigitChar(ch: char) {
    '0' <= ch <= '9'
  }

  predicate AllDigitChars(s: string) {
    forall i :: 0 <= i < |s| ==> IsDigitChar(s[i])
  }

  function DigitChar(d: int): (ch: char)
    requires 0 <= d <= 9
    ensures IsDigitChar(ch)
  {
    ('0' as int + d) as char
  }

  function DigitValue(ch: char): int {
    ch as int - '0' as int
  }

  /** The decimal representation of n, without leading zeros. */
  function NatToString(n: nat): (s: string)
    ensures 1 <= |s| && AllDigitChars(s)
    ensures n < 10 ==> |s| == 1
    ensures n < 100 ==> |s| <= 2
    decreases n
  {
    if n < 10 then [DigitChar(n)] else NatToString(n / 10) + [DigitChar(n % 10)]
  }

  /** The value of a string of decimal digits (leading zeros allowed). */
  function ParseDecimal(s: string): nat
    requires AllDigitChars(s)
  {
    if s == [] then 0 else 10 * ParseDecimal(s[..|s| - 1]) + DigitValue(s[|s| - 1])
  }

  /** Reading back the decimal text of n gives n. */
  lemma {:induction false} ParseNatToString(n: nat)
    ensures ParseDecimal(NatToString(n)) == n
    decreases n
  {
    var s := NatToString(n);
    if n >= 10 {
      ParseNatToString(n / 10);
      assert s[..|s| - 1] == NatToString(n / 10);
    }
  }

  /** `s.padStart(2, '0')`. */
  function PadStart2(s: string): (r: string)
    ensures |r| == if |s| >= 2 then |s| else 2
    ensures AllDigitChars(s) ==> AllDigitChars(r)
  {
    if |s| >= 2 then s else seq(2 - |s|, _ => '0') + s
  }

  /** A leading '0' does not change the value. */
  lemma {:induction false} ParseLeadingZero(s: string)
    requires AllDigitChars(s)
    ensures ParseDecimal("0" + s) == ParseDecimal(s)
    decreases |s|
  {
    if s != [] {
      var t := "0" + s;
      assert t[..|t| - 1] == "0" + s[..|s| - 1];
      ParseLeadingZero(s[..|s| - 1]);
    }
  }

  lemma PadStart2Value(s: string)
    requires AllDigitChars(s)
    ensures ParseDecimal(PadStart2(s)) == ParseDecimal(s)
  {
    if |s| == 1 {
      assert PadStart2(s) == "0" + s;
      ParseLeadingZero(s);
    } else if |s| == 0 {
      assert PadStart2(s) == "0" + "0";
      ParseLeadingZero("0");
      ParseLeadingZero("");
    }
  }

  /** `formatTime(seconds)`: minutes and seconds, each padded to two digits. */
  function FormatTime(seconds: nat): (r: string)
    ensures |r| >= 5 && r[|r| - 3] == ':'
    ensures seconds < 6000 ==> |r| == 5
  {
    PadStart2(NatToString(seconds / 60)) + ":" + PadStart2(NatToString(seconds % 60))
  }

  /** "m:ss" splits back into m and ss at its third-last character. */
  lemma TimeParts(m: string, s: string)
    requires |s| == 2
    ensures var r := m + ":" + s; r[..|r| - 3] == m && r[|r| - 2..] == s && r[|r| - 3] == ':'
  {
  }

  /** The text splits at its third-last character ':' into a minutes part
      and a two-digit seconds part below 60 that add back up to `seconds`. */
  lemma FormatTimeRoundTrip(seconds: nat)
    ensures var r := FormatTime(seconds);
      && |r| >= 5 && r[|r| - 3] == ':'
      && AllDigitChars(r[..|r| - 3]) && AllDigitChars(r[|r| - 2..])
      && ParseDecimal(r[|r| - 2..]) < 60
      && 60 * ParseDecimal(r[..|r| - 3]) + ParseDecimal(r[|r| - 2..]) == seconds
  {
    var q, rest := seconds / 60, seconds % 60;
    assert seconds == 60 * q + rest && rest < 60;
    var m := PadStart2(NatToString(q));
    var s := PadStart2(NatToString(rest));
    assert FormatTime(seconds) == m + ":" + s;
    TimeParts(m, s);
    ParseNatToString(q);
    ParseNatToString(rest);
    PadStart2Value(NatToString(q));
    PadStart2Value(NatToString(rest));
    assert ParseDecimal(m) == q && ParseDecimal(s) == rest;
  }

  /** Below 100 minutes the text is exactly "MM:SS". */
  lemma FormatTimeShape(seconds: nat)
    requires seconds < 6000
    ensures var r := FormatTime(seconds);
      && |r| == 5 && r[2] == ':' && AllDigitChars(r[..2]) && AllDigitChars(r[3..])
      && ParseDecimal(r[3..]) < 60
      && 60 * ParseDecimal(r[..2]) + ParseDecimal(r[3..]) == seconds
  {
    FormatTimeRoundTrip(seconds);
  }

  // ---------------------------------------------------------------------
  // cloneBoard
  // ---------------------------------------------------------------------

  /** `cloneBoard(board)`: a new board with the same cells. */
  method CloneBoard(b: array2<int>) returns (c: array2<int>)
    ensures fresh(c)
    ensures c.Length0 == b.Length0 && c.Length1 == b.Length1
    ensures forall i, j :: 0 <= i < b.Length0 && 0 <= j < b.Length1 ==> c[i, j] == b[i, j]
  {
    c := new int[b.Length0, b.Length1]((i, j) reads b =>
      if 0 <= i < b.Length0 && 0 <= j < b.Length1 then b[i, j] else 0);
  }

  // ---------------------------------------------------------------------
  // getNavigationCoords and areCellsEqual
  // ---------------------------------------------------------------------

  predicate IsArrow(direction: string) {
    direction == "ArrowUp" || direction == "ArrowDown" || direction == "ArrowLeft" || direction == "ArrowRight"
  }

  function Max(a: int, b: int): int { if a >= b then a else b }
  function Min(a: int, b: int): int { if a <= b then a else b }
  function Abs(a: int): int { if a < 0 then -a else a }

  /** `getNavigationCoords(row, col, direction)`: one step in the arrow's
      direction, clamped to the board instead of wrapping. */
  function GetNavigationCoords(row: int, col: int, direction: string): (r: Cell)
    ensures InBounds(row, col) ==> InBounds(r.row, r.col)
    ensures InBounds(row, col) ==> (r.row == row || r.col == col) && Abs(r.row - row) <= 1 && Abs(r.col - col) <= 1
    ensures !IsArrow(direction) ==> r == Cell(row, col)
    ensures direction == "ArrowUp" ==> r.col == col && (row == 0 <==> r.row == row)
    ensures direction == "ArrowDown" ==> r.col == col && (row == Size - 1 <==> r.row == row)
    ensures direction == "ArrowLeft" ==> r.row == row && (col == 0 <==> r.col == col)
    ensures direction == "ArrowRight" ==> r.row == row && (col == Size - 1 <==> r.col == col)
    ensures InBounds(row, col) && direction == "ArrowUp" && row > 0 ==> r == Cell(row - 1, col)
    ensures InBounds(row, col) && direction == "ArrowDown" && row < Size - 1 ==> r == Cell(row + 1, col)
    ensures InBounds(row, col) && direction == "ArrowLeft" && col > 0 ==> r == Cell(row, col - 1)
    ensures InBounds(row, col) && direction == "ArrowRight" && col < Size - 1 ==> r == Cell(row, col + 1)
  {
    match direction
    case "ArrowUp" => Cell(Max(0, row - 1), col)
    case "ArrowDown" => Cell(Min(8, row + 1), col)
    case "ArrowLeft" => Cell(row, Max(0, col - 1))
    case "ArrowRight" => Cell(row, Min(8, col + 1))
    case _ => Cell(row, col)
  }

  /** `areCellsEqual(cell1, cell2)`: both present and at the same position. */
  function AreCellsEqual(a: Option<Cell>, b: Option<Cell>): (r: bool)
    ensures r <==> a.Some? && b.Some? && a.value == b.value
  {
    if a.None? || b.None? then false
    else a.value.row == b.value.row && a.value.col == b.value.col
  }

  lemma AreCellsEqualSymmetric(a: Option<Cell>, b: Option<Cell>)
    ensures AreCellsEqual(a, b) == AreCellsEqual(b, a)
  {
  }
}
