/** The data `Game.render` derives from the state, without the markup: the
    status line, the move descriptors and their display order. */
module View {
  import opened Grid
  import opened WinDetector
  import opened History

  /** The status line: a winner, or the player to move next. */
  datatype Status = Won(winner: Mark) | NextPlayer(player: Mark)

  /** The label of one move button: the start of the game, or a move with the
      1-based column and row of the square it played. */
  datatype MoveLabel = GameStart | GoToMove(column: int, row: int)

  /** One entry of the move list: the step `jumpTo` receives when it is
      clicked, its description, and whether it is the displayed step. */
  datatype MoveDesc = MoveDesc(move: nat, desc: MoveLabel, active: bool)

  /** The status line for the displayed board. A full board without a winner
      still names the next player: there is no draw status. */
  function StatusOf(squares: Board, xIsNext: bool): (s: Status)
    ensures s.Won? <==> exists k :: 0 <= k < |LINES| && Complete(squares, k)
    ensures s.Won? ==> exists k: nat :: FirstComplete(squares, k) && LineMark(squares, k) == s.winner
    ensures s.NextPlayer? ==> s.player == PlayerMark(xIsNext)
  {
    var winner := Winner(squares);
    if winner.Some? then Won(winner.value) else NextPlayer(PlayerMark(xIsNext))
  }

  /** The label of entry `move`, whose last move (if any) was square `last`. */
  function Label(move: nat, last: Option<Idx>): MoveLabel
    requires move > 0 ==> last.Some?
  {
    if move == 0 then GameStart
    else GoToMove(last.value % 3 + 1, last.value / 3 + 1)
  }

  /** `history.map`: one descriptor per entry, in chronological order. */
  function Chronological(h: seq<Step>, stepNumber: nat): (r: seq<MoveDesc>)
    requires forall m :: 0 < m < |h| ==> h[m].lastMoveSquare.Some?
    ensures |r| == |h|
    ensures forall m :: 0 <= m < |h| ==> r[m].move == m && (r[m].active <==> m == stepNumber)
    ensures |h| > 0 ==> r[0].desc == GameStart
    ensures forall m :: 0 < m < |h| ==>
      && r[m].desc.GoToMove?
      && 1 <= r[m].desc.column <= 3
      && 1 <= r[m].desc.row <= 3
      && (r[m].desc.row - 1) * 3 + (r[m].desc.column - 1) == h[m].lastMoveSquare.value
  {
    seq(|h|, m requires 0 <= m < |h| => MoveDesc(m, Label(m, h[m].lastMoveSquare), m == stepNumber))
  }

  /** The sequence in reverse order. */
  function Reverse<T>(s: seq<T>): (r: seq<T>)
    ensures |r| == |s|
    ensures forall j :: 0 <= j < |s| ==> r[j] == s[|s| - 1 - j]
  {
    if s == [] then [] else Reverse(s[1..]) + [s[0]]
  }

  /** Reversing twice gives back the original order. */
  lemma ReverseReverse<T>(s: seq<T>)
    ensures Reverse(Reverse(s)) == s
  {
    assert forall j :: 0 <= j < |s| ==> Reverse(Reverse(s))[j] == s[j];
  }

  /** The move list as displayed: chronological when ascending, reversed otherwise.
      Exactly one entry is active, the one for the displayed step. */
  function Displayed(h: seq<Step>, stepNumber: nat, isAscending: bool): (r: seq<MoveDesc>)
    requires forall m :: 0 < m < |h| ==> h[m].lastMoveSquare.Some?
    requires stepNumber < |h|
    ensures |r| == |h|
    ensures forall j :: 0 <= j < |h| ==>
      r[j] == Chronological(h, stepNumber)[if isAscending then j else |h| - 1 - j]
    ensures forall j :: 0 <= j < |h| ==>
      (r[j].active <==> j == if isAscending then stepNumber else |h| - 1 - stepNumber)
  {
    var chrono := Chronological(h, stepNumber);
    if isAscending then chrono else Reverse(chrono)
  }

  /** `moves.reverse()`: reverses an array in place. */
  method ReverseInPlace<T>(a: array<T>)
    modifies a
    ensures a[..] == Reverse(old(a[..]))
  {
    var lo, hi := 0, a.Length;
    while lo + 1 < hi
      invariant 0 <= lo <= hi && lo + hi == a.Length
      invariant forall j :: 0 <= j < lo ==> a[j] == old(a[a.Length - 1 - j]) && a[a.Length - 1 - j] == old(a[j])
      invariant forall j :: lo <= j < hi ==> a[j] == old(a[j])
    {
      a[lo], a[hi - 1] := a[hi - 1], a[lo];
      lo, hi := lo + 1, hi - 1;
    }
    assert forall j :: 0 <= j < a.Length ==> a[..][j] == Reverse(old(a[..]))[j];
  }
}
