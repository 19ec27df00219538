/**
 * The game-history list of `Game` in src/pages/App.js without its markup:
 * one label per history entry, with 1-based (row,col) coordinates of the
 * square played, and the ascending or descending display order.
 */
module MoveList {

  import opened Wrappers
  import opened WinnerDetector

  /** A history entry: the squares after a move and the index played (None for the start). */
  datatype Entry = Entry(squares: Board, position: Option<Index>)

  /** One item of the rendered list; `clickable` items are buttons that jump to `move`. */
  datatype Item = Item(move: nat, description: string, clickable: bool)

  predicate IsDigit(ch: char) {
    '0' <= ch <= '9'
  }

  function DigitChar(d: nat): (ch: char)
    requires d < 10
    ensures IsDigit(ch)
  {
    ('0' as int + d) as char
  }

  function DigitValue(ch: char): (d: nat)
    requires IsDigit(ch)
    ensures d < 10
  {
    ch as int - '0' as int
  }

  /** A number as JavaScript prints it in a template string: decimal digits, no leading zero. */
  function Decimal(n: nat): (s: string)
    decreases n
    ensures |s| >= 1 && (forall k :: 0 <= k < |s| ==> IsDigit(s[k]))
    ensures |s| > 1 ==> s[0] != '0'
  {
    if n < 10 then [DigitChar(n)] else Decimal(n / 10) + [DigitChar(n % 10)]
  }

  /** The number a string of decimal digits denotes. */
  function DecimalValue(s: string): (n: nat)
    requires forall k :: 0 <= k < |s| ==> IsDigit(s[k])
  {
    if s == [] then 0 else DecimalValue(s[..|s| - 1]) * 10 + DigitValue(s[|s| - 1])
  }

  /** Printing a number and reading it back gives the number. */
  lemma {:induction false} DecimalRoundTrip(n: nat)
    ensures DecimalValue(Decimal(n)) == n
  {
    var s := Decimal(n);
    if n >= 10 {
      assert s[..|s| - 1] == Decimal(n / 10);
      DecimalRoundTrip(n / 10);
    } else {
      assert s[..|s| - 1] == [];
    }
  }

  /** Two moves never print the same number. */
  lemma DecimalInjective(m: nat, n: nat)
    requires Decimal(m) == Decimal(n)
    ensures m == n
  {
    DecimalRoundTrip(m);
    DecimalRoundTrip(n);
  }

  /** The 1-based (row, col) of a square index: `floor(p / 3) + 1` and `p % 3 + 1`. */
  function Coords(p: Index): (rc: (int, int))
    ensures 1 <= rc.0 <= 3 && 1 <= rc.1 <= 3
    ensures (rc.0 - 1) * 3 + (rc.1 - 1) == p
  {
    (p / 3 + 1, p % 3 + 1)
  }

  /**
   * The coordinates shown for an entry. An entry after the start always has a
   * position; for a missing one JavaScript computes with null as 0, giving (1,1).
   */
  function PositionCoords(position: Option<Index>): (rc: (int, int))
    ensures 1 <= rc.0 <= 3 && 1 <= rc.1 <= 3
    ensures position.Some? ==> (rc.0 - 1) * 3 + (rc.1 - 1) == position.value
    ensures position.None? ==> rc == (1, 1)
  {
    match position
    case Some(p) => Coords(p)
    case None => Coords(0)
  }

  function PositionSuffix(position: Option<Index>): (r: string) {
    var (row, col) := PositionCoords(position);
    ". Position: (" + Decimal(row) + "," + Decimal(col) + ")"
  }

  /** What a label after the start begins with, up to and including the "#" before the move number. */
  function MoveLead(isCurrent: bool): (r: string)
    ensures |r| >= 1 && r[|r| - 1] == '#'
  {
    if isCurrent then "You are at move #" else "Go to move #"
  }

  /**
   * The text of the entry for `move`: "You are ..." for the current move,
   * "Go to move #..." / "Back to game start." for the others.
   */
  function Description(move: nat, position: Option<Index>, isCurrent: bool): (r: string)
    ensures |r| >= 8
    ensures isCurrent <==> r[..8] == "You are "
    ensures move > 0 <==> r[|r| - 1] == ')'
    ensures move > 0 && isCurrent ==> |r| >= 17 && r[..17] == "You are at move #"
    ensures move > 0 && !isCurrent ==> |r| >= 12 && r[..12] == "Go to move #"
    ensures move == 0 && isCurrent ==> r == "You are on game start."
    ensures move == 0 && !isCurrent ==> r == "Back to game start."
  {
    if move > 0 then
      var lead := MoveLead(isCurrent);
      var r := lead + Decimal(move) + PositionSuffix(position);
      assert r[..|lead|] == lead;
      assert r[..8] == lead[..8];
      assert !isCurrent ==> lead[0] == 'G' && r[..8][0] != "You are "[0];
      r
    else if isCurrent then "You are on game start."
    else
      var r := "Back to game start.";
      assert r[..8][0] != "You are "[0];
      r
  }

  /**
   * The label of a move names the move: right after the "#" come the decimal
   * digits of `move`, ended by the "." of ". Position:", and they read back as `move`.
   */
  lemma DescriptionNamesMove(move: nat, position: Option<Index>, isCurrent: bool)
    requires move > 0
    ensures var r, start, digits := Description(move, position, isCurrent), |MoveLead(isCurrent)|, Decimal(move);
      start + |digits| < |r| && r[start - 1] == '#' &&
      r[start..start + |digits|] == digits && r[start + |digits|] == '.' &&
      DecimalValue(r[start..start + |digits|]) == move
  {
    var lead, digits := MoveLead(isCurrent), Decimal(move);
    var r := Description(move, position, isCurrent);
    assert r == lead + digits + PositionSuffix(position);
    assert r[|lead|..|lead| + |digits|] == digits;
    DecimalRoundTrip(move);
  }

  /** Labels of different moves differ: two moves after the start never share a label. */
  lemma DescriptionsDiffer(m: nat, n: nat, pm: Option<Index>, pn: Option<Index>, isCurrent: bool)
    requires m > 0 && n > 0
    requires Description(m, pm, isCurrent) == Description(n, pn, isCurrent)
    ensures m == n
  {
    var r, start := Description(m, pm, isCurrent), |MoveLead(isCurrent)|;
    var dm, dn := Decimal(m), Decimal(n);
    DescriptionNamesMove(m, pm, isCurrent);
    DescriptionNamesMove(n, pn, isCurrent);
    assert !IsDigit(r[start + |dm|]) && !IsDigit(r[start + |dn|]);
    assert forall k :: 0 <= k < |dm| ==> r[start + k] == dm[k];
    assert forall k :: 0 <= k < |dn| ==> r[start + k] == dn[k];
    assert |dm| == |dn|;
    assert dm == r[start..start + |dm|] == dn;
    DecimalInjective(m, n);
  }

  /**
   * The label of a move names the square played: its last five characters are
   * "(row,col)" and the square index is recovered from them.
   */
  lemma DescriptionNamesSquare(move: nat, p: Index, isCurrent: bool)
    requires move > 0
    ensures var r := Description(move, Some(p), isCurrent);
      |r| >= 5 && r[|r| - 5] == '(' && r[|r| - 3] == ',' &&
      IsDigit(r[|r| - 4]) && IsDigit(r[|r| - 2]) &&
      (DigitValue(r[|r| - 4]) - 1) * 3 + (DigitValue(r[|r| - 2]) - 1) == p
  {
    var (row, col) := Coords(p);
    var r := Description(move, Some(p), isCurrent);
    var tail := "(" + Decimal(row) + "," + Decimal(col) + ")";
    assert tail == ['(', DigitChar(row), ',', DigitChar(col), ')'];
    assert r == (if isCurrent then "You are at move #" else "Go to move #") + Decimal(move) + ". Position: " + tail;
    assert r[|r| - 5..] == tail;
  }

  /** The labels `history.map(...)` builds, one per entry, in history order. */
  function Moves(history: seq<Entry>, currentMove: nat): (items: seq<Item>)
    ensures |items| == |history|
    ensures forall m :: 0 <= m < |items| ==> items[m].move == m
    ensures forall m :: 0 <= m < |items| ==> (items[m].clickable <==> m != currentMove)
    ensures forall m :: 0 <= m < |items| ==>
      items[m].description == Description(m, history[m].position, m == currentMove)
  {
    seq(|history|, m requires 0 <= m < |history| =>
      Item(m, Description(m, history[m].position, m == currentMove), m != currentMove))
  }

  /** The elements of `s` back to front. */
  function Reverse<T>(s: seq<T>): (r: seq<T>)
    ensures |r| == |s|
    ensures forall k :: 0 <= k < |s| ==> r[k] == s[|s| - 1 - k]
  {
    if s == [] then [] else Reverse(s[1..]) + [s[0]]
  }

  /** Reversing twice gives back the list. */
  lemma ReverseReverse<T>(s: seq<T>)
    ensures Reverse(Reverse(s)) == s
  {
  }

  /** `sortedMoves`: the items as they are, or reversed when sorting descending. */
  function Ordered(items: seq<Item>, sortDescending: bool): (r: seq<Item>)
    ensures |r| == |items|
    ensures forall k :: 0 <= k < |r| ==> r[k] == items[if sortDescending then |items| - 1 - k else k]
  {
    if sortDescending then Reverse(items) else items
  }

  /** Flipping the sort flag shows exactly the reverse of what was shown. */
  lemma OrderedFlip(items: seq<Item>, sortDescending: bool)
    ensures Ordered(items, !sortDescending) == Reverse(Ordered(items, sortDescending))
  {
    if !sortDescending {
      ReverseReverse(items);
    }
  }

  /** Whatever the order, the one entry shown as plain text rather than a button is the current move. */
  lemma OnlyCurrentInert(history: seq<Entry>, currentMove: nat, sortDescending: bool, k: nat)
    requires currentMove < |history| && k < |history|
    ensures var shown := Ordered(Moves(history, currentMove), sortDescending);
      !shown[k].clickable <==> shown[k].move == currentMove
  {
  }
}
