/**
 * The board and the winner scan of the game (`calculateWinner` in src/pages/App.js).
 * A board is nine cells in row-major order; a cell is empty (`null` in the
 * source), "X" or "O".
 */
module WinnerDetector {

  import opened Wrappers

  datatype Cell = Empty | X | O

  /** A square index, 0 to 8, row-major (index = row * 3 + col). */
  type Index = i: int | 0 <= i < 9

  type Board = s: seq<Cell> | |s| == 9
    witness [Empty, Empty, Empty, Empty, Empty, Empty, Empty, Empty, Empty]

  /** `Array(9).fill(null)`: the board every game starts from. */
  const EmptyBoard: Board := [Empty, Empty, Empty, Empty, Empty, Empty, Empty, Empty, Empty]

  /** One of the eight triples of square indices checked for three in a row. */
  datatype Line = Line(a: Index, b: Index, c: Index)
  {
    predicate Contains(k: int) {
      k == a || k == b || k == c
    }
  }

  /** The triples in the order they are scanned: rows top to bottom, columns left to right, then the two diagonals. */
  const Lines: seq<Line> := [
    Line(0, 1, 2), Line(3, 4, 5), Line(6, 7, 8),
    Line(0, 3, 6), Line(1, 4, 7), Line(2, 5, 8),
    Line(0, 4, 8), Line(2, 4, 6)
  ]

  /** What a win reports: the symbol and the triple that holds it. */
  datatype WinResult = WinResult(symbol: Cell, line: Line)

  /** The three cells of `line` hold the same symbol and it is not empty. */
  predicate Completes(squares: Board, line: Line) {
    squares[line.a] != Empty && squares[line.a] == squares[line.b] && squares[line.a] == squares[line.c]
  }

  /** `Lines[k]` is the first completed triple at or after position `i` of the scan. */
  predicate FirstCompletedFrom(squares: Board, i: nat, k: nat)
    requires k < |Lines|
  {
    i <= k && Completes(squares, Lines[k]) &&
    forall j :: i <= j < k ==> !Completes(squares, Lines[j])
  }

  /** The scan of `calculateWinner`, started at position `i` of `Lines`. */
  function WinnerFrom(squares: Board, i: nat): (r: Option<WinResult>)
    requires i <= |Lines|
    decreases |Lines| - i
    ensures r.None? ==> forall k :: i <= k < |Lines| ==> !Completes(squares, Lines[k])
    ensures r.Some? ==>
      exists k :: 0 <= k < |Lines| && FirstCompletedFrom(squares, i, k) &&
                  r.value == WinResult(squares[Lines[k].a], Lines[k])
  {
    if i == |Lines| then None
    else
      var line := Lines[i];
      if Completes(squares, line) then
        assert FirstCompletedFrom(squares, i, i);
        Some(WinResult(squares[line.a], line))
      else
        WinnerFrom(squares, i + 1)
  }

  /** The value `calculateWinner(squares)` returns. */
  function Winner(squares: Board): (r: Option<WinResult>) {
    WinnerFrom(squares, 0)
  }

  /**
   * `calculateWinner`: the loop over `lines` with its early return.
   */
  method CalculateWinner(squares: Board) returns (r: Option<WinResult>)
    ensures r == Winner(squares)
    ensures r.Some? ==> r.value.line in Lines && Completes(squares, r.value.line)
    ensures r.Some? ==> r.value.symbol == squares[r.value.line.a] != Empty
  {
    var i := 0;
    while i < |Lines|
      invariant 0 <= i <= |Lines|
      invariant WinnerFrom(squares, i) == Winner(squares)
    {
      var line := Lines[i];
      if squares[line.a] != Empty && squares[line.a] == squares[line.b] && squares[line.a] == squares[line.c] {
        return Some(WinResult(squares[line.a], line));
      }
      i := i + 1;
    }
    return None;
  }

  /** A reported win is real: the triple is one of the eight, its three cells equal the reported, non-empty symbol. */
  lemma WinnerSound(squares: Board)
    requires Winner(squares).Some?
    ensures var w := Winner(squares).value;
      w.line in Lines && w.symbol != Empty &&
      squares[w.line.a] == w.symbol && squares[w.line.b] == w.symbol && squares[w.line.c] == w.symbol
  {
  }

  /** No win is reported exactly when none of the eight triples is completed. */
  lemma NoWinnerIff(squares: Board)
    ensures Winner(squares).None? <==> forall line :: line in Lines ==> !Completes(squares, line)
  {
    if Winner(squares).None? {
      forall line | line in Lines ensures !Completes(squares, line) {
        var k :| 0 <= k < |Lines| && Lines[k] == line;
      }
    }
  }

  /** The reported triple is the first completed one in scan order, whatever later triples hold. */
  lemma WinnerIsFirst(squares: Board, k: nat)
    requires k < |Lines| && FirstCompletedFrom(squares, 0, k)
    ensures Winner(squares) == Some(WinResult(squares[Lines[k].a], Lines[k]))
  {
    var k' :| 0 <= k' < |Lines| && FirstCompletedFrom(squares, 0, k') &&
              Winner(squares).value == WinResult(squares[Lines[k'].a], Lines[k']);
    assert FirstCompletedFrom(squares, 0, k');
  }
}
