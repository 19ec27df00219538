/**
 * The `Board` component of src/pages/App.js without its markup: the click
 * handler, the status line and which squares are highlighted.
 */
module BoardView {

  import opened Wrappers
  import opened WinnerDetector

  /** The symbol written by the player to move: "X" when `xIsNext`, else "O". */
  function Mover(xIsNext: bool): (c: Cell)
    ensures c != Empty
  {
    if xIsNext then X else O
  }

  /** What `handleClick` hands to `onPlay`: the new squares and the index played. */
  datatype Play = Play(squares: Board, index: Index)

  /**
   * The board a click on square `i` leads to, or None when the click is
   * ignored (the game is won, or the square is taken).
   */
  function NextSquares(squares: Board, xIsNext: bool, i: Index): (r: Option<Board>)
    ensures r.None? <==> Winner(squares).Some? || squares[i] != Empty
    ensures r.Some? ==> r.value[i] == Mover(xIsNext) && r.value[i] != squares[i]
    ensures r.Some? ==> forall k :: 0 <= k < 9 && k != i ==> r.value[k] == squares[k]
  {
    if Winner(squares).Some? || squares[i] != Empty then None
    else Some(squares[i := Mover(xIsNext)])
  }

  /**
   * `handleClick(i)`: ignore the click when there is a winner or square `i`
   * is filled; otherwise copy the squares, write the mover's symbol at `i`
   * and emit the copy with `i`. The squares passed in are a value and are
   * left as they were.
   */
  method HandleClick(squares: Board, xIsNext: bool, i: Index) returns (emitted: Option<Play>)
    ensures emitted.None? <==> Winner(squares).Some? || squares[i] != Empty
    ensures emitted.Some? ==> emitted.value.index == i
    ensures emitted.Some? ==> emitted.value.squares[i] == Mover(xIsNext)
    ensures emitted.Some? ==> forall k :: 0 <= k < 9 && k != i ==> emitted.value.squares[k] == squares[k]
    ensures emitted.Some? <==> NextSquares(squares, xIsNext, i).Some?
    ensures emitted.Some? ==> NextSquares(squares, xIsNext, i) == Some(emitted.value.squares)
  {
    var winner := CalculateWinner(squares);
    if winner.Some? || squares[i] != Empty {
      return None;
    }
    var nextSquares := new Cell[9](k requires 0 <= k < 9 => squares[k]);
    if xIsNext {
      nextSquares[i] := X;
    } else {
      nextSquares[i] := O;
    }
    assert nextSquares[..] == squares[i := Mover(xIsNext)];
    emitted := Some(Play(nextSquares[..], i));
  }

  /** The three kinds of status line. */
  datatype Status = Won(symbol: Cell) | Tie | NextPlayer(player: Cell)

  /** The status line for `squares` at move `currentMove` with `xIsNext` telling whose turn it is. */
  function StatusOf(squares: Board, xIsNext: bool, currentMove: nat): (s: Status)
    ensures s.Won? <==> Winner(squares).Some?
    ensures s.Won? ==> s.symbol == Winner(squares).value.symbol && s.symbol != Empty
    ensures s.Tie? <==> Winner(squares).None? && currentMove == 9
    ensures s.NextPlayer? ==> s.player == Mover(xIsNext)
  {
    var winner := Winner(squares);
    if winner.Some? then Won(winner.value.symbol)
    else if currentMove == 9 then Tie
    else NextPlayer(Mover(xIsNext))
  }

  /** How a cell's symbol is written; an empty cell shows nothing. */
  function SymbolText(c: Cell): (r: string)
    ensures |r| <= 1 && (r == "" <==> c == Empty)
  {
    match c
    case Empty => ""
    case X => "X"
    case O => "O"
  }

  /** The text of the status line: "Winner: s", "Tie" or "Next player: s". */
  function StatusText(s: Status): (r: string)
    ensures s.Won? ==> |r| >= 8 && r[..8] == "Winner: " && r[8..] == SymbolText(s.symbol)
    ensures s.Tie? <==> r == "Tie"
    ensures s.NextPlayer? ==> |r| >= 13 && r[..13] == "Next player: " && r[13..] == SymbolText(s.player)
  {
    match s
    case Won(symbol) =>
      var r := "Winner: " + SymbolText(symbol);
      assert r[0] != "Tie"[0];
      r
    case Tie => "Tie"
    case NextPlayer(player) =>
      var r := "Next player: " + SymbolText(player);
      assert r[0] != "Tie"[0];
      r
  }

  /** Different statuses (with a real symbol) are shown as different texts. */
  lemma StatusTextInjective(s: Status, t: Status)
    requires s.Won? ==> s.symbol != Empty
    requires s.NextPlayer? ==> s.player != Empty
    requires t.Won? ==> t.symbol != Empty
    requires t.NextPlayer? ==> t.player != Empty
    requires StatusText(s) == StatusText(t)
    ensures s == t
  {
    var a, b := StatusText(s), StatusText(t);
    assert a[0] == b[0];
    if s.Won? {
      assert a[8] == b[8];
    } else if s.NextPlayer? {
      assert a[13] == b[13];
    }
  }

  /** Square `k` is highlighted: there is a winner and `k` is in its triple. */
  function IsWinningSquare(squares: Board, k: Index): (lit: bool)
    ensures lit ==> Winner(squares).Some? && squares[k] == Winner(squares).value.symbol != Empty
  {
    var winner := Winner(squares);
    winner.Some? && winner.value.line.Contains(k)
  }

  /** With a winner exactly three squares are highlighted, those of the winning triple; without one, none. */
  lemma HighlightedSquares(squares: Board)
    ensures var lit := set k: Index | IsWinningSquare(squares, k);
      (Winner(squares).None? ==> lit == {}) &&
      (Winner(squares).Some? ==>
        var line := Winner(squares).value.line;
        lit == {line.a, line.b, line.c} && |lit| == 3)
  {
    var lit := set k: Index | IsWinningSquare(squares, k);
    if Winner(squares).Some? {
      var line := Winner(squares).value.line;
      WinnerSound(squares);
      assert line.a != line.b && line.b != line.c && line.a != line.c;
      assert lit == {line.a, line.b, line.c};
    }
  }
}
