/** calculateWinner: scans the eight fixed lines in order and reports the mark of
    the first one whose three squares hold the same mark. */
module WinDetector {
  import opened Grid

  datatype Option<T> = None | Some(value: T)

  /** The winning lines, in the order the scan visits them:
      three rows, three columns, two diagonals. */
  const LINES: seq<(Idx, Idx, Idx)> := [
    (0, 1, 2),
    (3, 4, 5),
    (6, 7, 8),
    (0, 3, 6),
    (1, 4, 7),
    (2, 5, 8),
    (0, 4, 8),
    (2, 4, 6)
  ]

  /** Line k is complete: its three squares are non-empty and hold the same mark. */
  predicate Complete(b: Board, k: nat)
    requires k < |LINES|
  {
    var (p, q, r) := LINES[k];
    b[p] != Empty && b[p] == b[q] && b[p] == b[r]
  }

  /** The mark filling a complete line. */
  function LineMark(b: Board, k: nat): Mark
    requires k < |LINES| && Complete(b, k)
  {
    b[LINES[k].0].mark
  }

  /** Line k is complete and no earlier line is. */
  ghost predicate FirstComplete(b: Board, k: nat)
  {
    k < |LINES| && Complete(b, k) && forall j :: 0 <= j < k ==> !Complete(b, j)
  }

  /** The scan from line i onwards. */
  function WinnerFrom(b: Board, i: nat): (r: Option<Mark>)
    requires i <= |LINES|
    ensures r.None? <==> forall k :: i <= k < |LINES| ==> !Complete(b, k)
    ensures r.Some? ==>
      exists k :: i <= k < |LINES| && Complete(b, k) && LineMark(b, k) == r.value &&
        forall j :: i <= j < k ==> !Complete(b, j)
    decreases |LINES| - i
  {
    if i == |LINES| then None
    else if Complete(b, i) then Some(LineMark(b, i))
    else WinnerFrom(b, i + 1)
  }

  /** The winner of a board: the mark of the first complete line, or none
      when no line is complete. */
  function Winner(b: Board): (r: Option<Mark>)
    ensures r.None? <==> forall k :: 0 <= k < |LINES| ==> !Complete(b, k)
    ensures r.Some? ==> exists k: nat :: FirstComplete(b, k) && LineMark(b, k) == r.value
  {
    WinnerFrom(b, 0)
  }

  /** The first complete line decides the result, whatever the later lines hold. */
  lemma WinnerIsFirstLine(b: Board, k: nat)
    requires FirstComplete(b, k)
    ensures Winner(b) == Some(LineMark(b, k))
  {
    var r := Winner(b);
    assert r.Some? by { assert Complete(b, k); }
    var k': nat :| FirstComplete(b, k') && LineMark(b, k') == r.value;
  }

  /** A top row of one mark wins for that mark, whatever the other squares hold. */
  lemma TopRowWins(b: Board, m: Mark)
    requires b[0] == Marked(m) && b[1] == Marked(m) && b[2] == Marked(m)
    ensures Winner(b) == Some(m)
  {
    assert Complete(b, 0);
    WinnerIsFirstLine(b, 0);
  }

  /** A board with no mark has no winner. */
  lemma EmptyBoardHasNoWinner()
    ensures Winner(EMPTY_BOARD) == None
  {
    forall k | 0 <= k < |LINES| ensures !Complete(EMPTY_BOARD, k) {
      assert EMPTY_BOARD[LINES[k].0] == Empty;
    }
  }

  /** The indexed loop with early return over the eight lines. */
  method CalculateWinner(squares: Board) returns (winner: Option<Mark>)
    ensures winner == Winner(squares)
  {
    var i := 0;
    while i < |LINES|
      invariant 0 <= i <= |LINES|
      invariant forall j :: 0 <= j < i ==> !Complete(squares, j)
    {
      var (a, b, c) := LINES[i];
      if squares[a] != Empty && squares[a] == squares[b] && squares[a] == squares[c] {
        assert Complete(squares, i);
        WinnerIsFirstLine(squares, i);
        return Some(squares[a].mark);
      }
      i := i + 1;
    }
    return None;
  }
}
