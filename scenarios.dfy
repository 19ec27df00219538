/**
 * Two whole games played through the model: X winning down the left column,
 * and a draw that fills the board.
 */
module Scenarios {

  import opened Wrappers
  import opened WinnerDetector
  import opened BoardView
  import opened MoveList
  import opened GameController

  /**
   * A legal click on the last board of a reachable history extends it to a
   * reachable history.
   */
  lemma Step(history: seq<Entry>, e: Entry)
    requires Played(history) && e.position.Some?
    requires var last, p := history[|history| - 1].squares, e.position.value;
      last[p] == Empty && (forall line :: line in Lines ==> !Completes(last, line)) &&
      e.squares == last[p := Mover(XIsNext(|history| - 1))]
    ensures Played(history + [e])
  {
    NoWinnerIff(history[|history| - 1].squares);
    PlayedExtend(history, e);
  }

  // X 0, O 1, X 3, O 4, X 6
  const W1: Entry := Entry([X, Empty, Empty, Empty, Empty, Empty, Empty, Empty, Empty], Some(0))
  const W2: Entry := Entry([X, O, Empty, Empty, Empty, Empty, Empty, Empty, Empty], Some(1))
  const W3: Entry := Entry([X, O, Empty, X, Empty, Empty, Empty, Empty, Empty], Some(3))
  const W4: Entry := Entry([X, O, Empty, X, O, Empty, Empty, Empty, Empty], Some(4))
  const W5: Entry := Entry([X, O, Empty, X, O, Empty, X, Empty, Empty], Some(6))

  /** X plays 0, O 1, X 3, O 4, X 6: X wins on the left column (0,3,6) and the status reads "Winner: X". */
  lemma ColumnWin()
    ensures Played([Start] + [W1] + [W2] + [W3] + [W4] + [W5])
    ensures Winner(W5.squares) == Some(WinResult(X, Line(0, 3, 6)))
    ensures StatusText(StatusOf(W5.squares, XIsNext(5), 5)) == "Winner: X"
  {
    ColumnWin3();
    Step([Start] + [W1] + [W2] + [W3], W4);
    Step([Start] + [W1] + [W2] + [W3] + [W4], W5);
    WinnerIsFirst(W5.squares, 3);
  }

  lemma ColumnWin3()
    ensures Played([Start] + [W1] + [W2] + [W3])
  {
    Step([Start], W1);
    Step([Start] + [W1], W2);
    Step([Start] + [W1] + [W2], W3);
  }

  // X 0, O 1, X 2, O 4, X 3, O 5, X 7, O 6, X 8
  const D1: Entry := Entry([X, Empty, Empty, Empty, Empty, Empty, Empty, Empty, Empty], Some(0))
  const D2: Entry := Entry([X, O, Empty, Empty, Empty, Empty, Empty, Empty, Empty], Some(1))
  const D3: Entry := Entry([X, O, X, Empty, Empty, Empty, Empty, Empty, Empty], Some(2))
  const D4: Entry := Entry([X, O, X, Empty, O, Empty, Empty, Empty, Empty], Some(4))
  const D5: Entry := Entry([X, O, X, X, O, Empty, Empty, Empty, Empty], Some(3))
  const D6: Entry := Entry([X, O, X, X, O, O, Empty, Empty, Empty], Some(5))
  const D7: Entry := Entry([X, O, X, X, O, O, Empty, X, Empty], Some(7))
  const D8: Entry := Entry([X, O, X, X, O, O, O, X, Empty], Some(6))
  const D9: Entry := Entry([X, O, X, X, O, O, O, X, X], Some(8))

  /** A game that fills all nine squares without three in a row: at move 9 the status reads "Tie". */
  lemma Draw()
    ensures Played([Start] + [D1] + [D2] + [D3] + [D4] + [D5] + [D6] + [D7] + [D8] + [D9])
    ensures Winner(D9.squares).None?
    ensures StatusText(StatusOf(D9.squares, XIsNext(9), 9)) == "Tie"
  {
    Draw7();
    Step([Start] + [D1] + [D2] + [D3] + [D4] + [D5] + [D6] + [D7], D8);
    Step([Start] + [D1] + [D2] + [D3] + [D4] + [D5] + [D6] + [D7] + [D8], D9);
    NoWinnerIff(D9.squares);
  }

  lemma Draw7()
    ensures Played([Start] + [D1] + [D2] + [D3] + [D4] + [D5] + [D6] + [D7])
  {
    Draw5();
    Step([Start] + [D1] + [D2] + [D3] + [D4] + [D5], D6);
    Step([Start] + [D1] + [D2] + [D3] + [D4] + [D5] + [D6], D7);
  }

  lemma Draw5()
    ensures Played([Start] + [D1] + [D2] + [D3] + [D4] + [D5])
  {
    Draw3();
    Step([Start] + [D1] + [D2] + [D3], D4);
    Step([Start] + [D1] + [D2] + [D3] + [D4], D5);
  }

  lemma Draw3()
    ensures Played([Start] + [D1] + [D2] + [D3])
  {
    Step([Start], D1);
    Step([Start] + [D1], D2);
    Step([Start] + [D1] + [D2], D3);
  }
}
