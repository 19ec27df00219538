/**
 * The `Game` component of src/pages/App.js: the history of boards, the
 * pointer to the current move and the sort flag, with the transitions
 * `handlePlay`, `jumpTo` and the sort toggle, and the click on a square
 * that `Board` turns into a play.
 */
module GameController {

  import opened Wrappers
  import opened WinnerDetector
  import opened BoardView
  import opened MoveList

  /** The first history entry: the empty board, no position. */
  const Start: Entry := Entry(EmptyBoard, None)

  /** `xIsNext`: X moves on even move numbers. */
  function XIsNext(move: nat): (x: bool) {
    move % 2 == 0
  }

  /** X makes the first move and the turn passes to the other player after every move. */
  lemma TurnsAlternate(move: nat)
    ensures XIsNext(0)
    ensures XIsNext(move) != XIsNext(move + 1)
  {
  }

  /** The number of cells of `s` that hold `c`. */
  function Count(s: seq<Cell>, c: Cell): (n: nat)
    ensures n <= |s|
    ensures n == 0 <==> forall k :: 0 <= k < |s| ==> s[k] != c
    ensures n == |s| <==> forall k :: 0 <= k < |s| ==> s[k] == c
  {
    if s == [] then 0 else (if s[0] == c then 1 else 0) + Count(s[1..], c)
  }

  /** Filling one empty cell with `v` adds one `v` and removes one empty cell. */
  lemma {:induction false} CountFill(s: seq<Cell>, i: nat, v: Cell, c: Cell)
    requires i < |s| && s[i] == Empty && v != Empty
    ensures Count(s[i := v], c) ==
      Count(s, c) + (if c == v then 1 else 0) - (if c == Empty then 1 else 0)
  {
    if i == 0 {
      assert s[i := v][1..] == s[1..];
    } else {
      assert s[i := v][1..] == s[1..][i - 1 := v];
      CountFill(s[1..], i - 1, v, c);
    }
  }

  /** `next` is what a click at its position on `prev`, at move number `move`, emits. */
  predicate Follows(prev: Board, move: nat, next: Entry) {
    next.position.Some? && NextSquares(prev, XIsNext(move), next.position.value) == Some(next.squares)
  }

  /** A history the game can reach: it starts empty and every entry is a legal click on the one before it. */
  predicate Played(history: seq<Entry>) {
    |history| >= 1 && history[0] == Start &&
    forall m :: 0 <= m < |history| - 1 ==> Follows(history[m].squares, m, history[m + 1])
  }

  /** Keeping the first `n` entries of a reachable history gives a reachable history. */
  lemma PlayedPrefix(history: seq<Entry>, n: nat)
    requires Played(history) && 1 <= n <= |history|
    ensures Played(history[..n])
  {
    var h := history[..n];
    forall m | 0 <= m < |h| - 1 ensures Follows(h[m].squares, m, h[m + 1]) {
      assert h[m] == history[m] && h[m + 1] == history[m + 1];
    }
  }

  /** Appending a legal click on the last board keeps a history reachable. */
  lemma PlayedExtend(history: seq<Entry>, e: Entry)
    requires Played(history) && Follows(history[|history| - 1].squares, |history| - 1, e)
    ensures Played(history + [e])
  {
    var h := history + [e];
    forall m | 0 <= m < |h| - 1 ensures Follows(h[m].squares, m, h[m + 1]) {
      if m < |history| - 1 {
        assert h[m] == history[m] && h[m + 1] == history[m + 1];
      }
    }
  }

  /** Entry `m` of a reachable history is entry `m - 1` with its empty square `p` given to the player to move. */
  lemma PlayedStep(history: seq<Entry>, m: nat)
    requires Played(history) && 0 < m < |history|
    ensures history[m].position.Some?
    ensures var prev, p := history[m - 1].squares, history[m].position.value;
      Winner(prev).None? && prev[p] == Empty &&
      history[m].squares == prev[p := Mover(XIsNext(m - 1))]
  {
    assert Follows(history[m - 1].squares, m - 1, history[m]);
  }

  /** The empty board: nine empty cells and no winner. */
  lemma EmptyBoardFacts()
    ensures Count(EmptyBoard, Empty) == 9 && Count(EmptyBoard, X) == 0 && Count(EmptyBoard, O) == 0
    ensures Winner(EmptyBoard).None?
  {
    NoWinnerIff(EmptyBoard);
  }

  /** The counts after move number `m` fills an empty square for the player to move. */
  lemma FillCounts(prev: Board, p: Index, m: nat)
    requires prev[p] == Empty
    requires Count(prev, X) == (m + 1) / 2 && Count(prev, O) == m / 2 && Count(prev, Empty) == 9 - m
    ensures var next := prev[p := Mover(XIsNext(m))];
      Count(next, X) == (m + 2) / 2 && Count(next, O) == (m + 1) / 2 && Count(next, Empty) == 8 - m
  {
    var v := Mover(XIsNext(m));
    CountFill(prev, p, v, X);
    CountFill(prev, p, v, O);
    CountFill(prev, p, v, Empty);
  }

  /**
   * After `m` moves the board holds `ceil(m/2)` X's, `floor(m/2)` O's and
   * `9 - m` empty cells.
   */
  lemma {:induction false} PlayedCounts(history: seq<Entry>, m: nat)
    requires Played(history) && m < |history|
    ensures Count(history[m].squares, X) == (m + 1) / 2
    ensures Count(history[m].squares, O) == m / 2
    ensures Count(history[m].squares, Empty) == 9 - m
  {
    if m == 0 {
      EmptyBoardFacts();
    } else {
      PlayedCounts(history, m - 1);
      PlayedStep(history, m);
      FillCounts(history[m - 1].squares, history[m].position.value, m - 1);
    }
  }

  /** A reachable history has at most ten entries: the start and nine moves. */
  lemma PlayedLength(history: seq<Entry>)
    requires Played(history)
    ensures |history| <= 10
  {
    PlayedCounts(history, |history| - 1);
  }

  /** A filled cell keeps its symbol in every later entry of a reachable history. */
  lemma {:induction false} CellsPersist(history: seq<Entry>, m: nat, n: nat, k: Index)
    requires Played(history) && m <= n < |history|
    requires history[m].squares[k] != Empty
    ensures history[n].squares[k] == history[m].squares[k]
  {
    if m < n {
      CellsPersist(history, m, n - 1, k);
      assert Follows(history[n - 1].squares, n - 1, history[n]);
    }
  }

  /** A board that a later entry follows has no winner: a win ends play from that snapshot. */
  lemma WonIsTerminal(history: seq<Entry>, m: nat)
    requires Played(history) && m < |history| - 1
    ensures Winner(history[m].squares).None?
  {
    PlayedStep(history, m + 1);
  }

  /** The winner of a reachable board is the player who made the last move, and the last square played is in the winning triple. */
  lemma WinnerMovedLast(history: seq<Entry>, m: nat)
    requires Played(history) && m < |history| && Winner(history[m].squares).Some?
    ensures m > 0 && history[m].position.Some?
    ensures Winner(history[m].squares).value.symbol == Mover(XIsNext(m - 1))
    ensures Winner(history[m].squares).value.line.Contains(history[m].position.value)
  {
    EmptyBoardFacts();
    assert m != 0;
    PlayedStep(history, m);
    var w := Winner(history[m].squares).value;
    WinnerSound(history[m].squares);
    var prev := history[m - 1].squares;
    NoWinnerIff(prev);
    assert !Completes(prev, w.line);
  }

  /**
   * The status of a reachable entry: "Tie" only on a full board with no
   * triple, and "Next player" only when a square is free, naming X exactly
   * when X and O have played equally often.
   */
  lemma StatusOfPlayed(history: seq<Entry>, m: nat)
    requires Played(history) && m < |history|
    ensures var squares := history[m].squares;
      var s := StatusOf(squares, XIsNext(m), m);
      (s.Tie? ==> (forall k :: 0 <= k < 9 ==> squares[k] != Empty) &&
                  (forall line :: line in Lines ==> !Completes(squares, line))) &&
      (s.NextPlayer? ==> (exists k :: 0 <= k < 9 && squares[k] == Empty) &&
                         (s.player == X <==> Count(squares, X) == Count(squares, O)))
  {
    PlayedCounts(history, m);
    NoWinnerIff(history[m].squares);
  }

  /** The game state: the board snapshots, the pointer into them and the sort flag. */
  class Game {
    var history: seq<Entry>
    var currentMove: nat
    var sortDescending: bool

    /** The history starts with the empty board and the pointer is inside it. */
    ghost predicate Valid()
      reads this
    {
      |history| >= 1 && history[0] == Start && currentMove < |history|
    }

    /** The state `useState` starts from. */
    constructor ()
      ensures Valid() && Played(history)
      ensures history == [Start] && currentMove == 0 && !sortDescending
    {
      history := [Start];
      currentMove := 0;
      sortDescending := false;
    }

    /** `history[currentMove].squares`: on a legal history, the board with `currentMove` squares filled. */
    function CurrentSquares(): (b: Board)
      reads this
      requires Valid()
      ensures Played(history) ==> Count(b, Empty) == 9 - currentMove
    {
      var b := history[currentMove].squares;
      if Played(history) then PlayedCounts(history, currentMove); b else b
    }

    /** `handlePlay`: drop the entries after the current move, append the new one, point at it. */
    method HandlePlay(nextSquares: Board, index: Index)
      requires Valid()
      modifies this`history, this`currentMove
      ensures Valid()
      ensures history == old(history[..currentMove + 1]) + [Entry(nextSquares, Some(index))]
      ensures currentMove == |history| - 1 == old(currentMove) + 1
      ensures forall m :: 0 <= m <= old(currentMove) ==> history[m] == old(history[m])
      ensures sortDescending == old(sortDescending)
      ensures old(Played(history)) && Follows(old(CurrentSquares()), old(currentMove), Entry(nextSquares, Some(index)))
        ==> Played(history)
    {
      var kept := history[..currentMove + 1];
      ghost var entry := Entry(nextSquares, Some(index));
      if Played(history) && Follows(history[currentMove].squares, currentMove, entry) {
        PlayedPrefix(history, currentMove + 1);
        PlayedExtend(kept, entry);
      }
      var nextHistory := kept + [Entry(nextSquares, Some(index))];
      history := nextHistory;
      currentMove := |nextHistory| - 1;
    }

    /** `jumpTo`: move the pointer; the history and the sort flag stay. */
    method JumpTo(nextMove: nat)
      requires Valid() && nextMove < |history|
      modifies this`currentMove
      ensures Valid()
      ensures currentMove == nextMove
      ensures history == old(history) && sortDescending == old(sortDescending)
      ensures CurrentSquares() == history[nextMove].squares
    {
      currentMove := nextMove;
    }

    /** The sort checkbox: flip the order; the list shown is the reverse of the one before. */
    method ToggleSort()
      requires Valid()
      modifies this`sortDescending
      ensures Valid()
      ensures sortDescending == !old(sortDescending)
      ensures history == old(history) && currentMove == old(currentMove)
      ensures Displayed() == Reverse(old(Displayed()))
    {
      OrderedFlip(Moves(history, currentMove), sortDescending);
      sortDescending := !sortDescending;
    }

    /** A click on square `i` of the board: `Board.handleClick` feeding `handlePlay`. */
    method Click(i: Index)
      requires Valid()
      modifies this`history, this`currentMove
      ensures Valid()
      ensures var next := NextSquares(old(CurrentSquares()), XIsNext(old(currentMove)), i);
        if next.None? then history == old(history) && currentMove == old(currentMove)
        else history == old(history[..currentMove + 1]) + [Entry(next.value, Some(i))] &&
             currentMove == old(currentMove) + 1
      ensures sortDescending == old(sortDescending)
      ensures old(Played(history)) ==> Played(history)
    {
      var emitted := HandleClick(history[currentMove].squares, XIsNext(currentMove), i);
      if emitted.Some? {
        HandlePlay(emitted.value.squares, emitted.value.index);
      }
    }

    /** The status line of the current board; on a legal history "Tie" is shown only for a full board. */
    function Status(): (s: Status)
      reads this
      requires Valid()
      ensures Played(history) && s.Tie? ==> forall k :: 0 <= k < 9 ==> CurrentSquares()[k] != Empty
    {
      var s := StatusOf(CurrentSquares(), XIsNext(currentMove), currentMove);
      if Played(history) then StatusOfPlayed(history, currentMove); s else s
    }

    /** `sortedMoves`: one item per history entry, oldest first or newest first; only the current move is not a button. */
    function Displayed(): (items: seq<Item>)
      reads this
      requires Valid()
      ensures |items| == |history|
      ensures forall k :: 0 <= k < |items| ==>
        items[k].move == (if sortDescending then |history| - 1 - k else k)
      ensures forall k :: 0 <= k < |items| ==> (items[k].clickable <==> items[k].move != currentMove)
    {
      Ordered(Moves(history, currentMove), sortDescending)
    }
  }
}
