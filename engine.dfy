/** The `Game` component's state and its three handlers, plus the view data
    its render derives. */
module Engine {
  import opened Grid
  import opened WinDetector
  import opened History
  import opened View

  /** What render shows: the displayed board, its winner, the status line and
      the move list in display order. */
  datatype ViewModel = ViewModel(squares: Board, winner: Option<Mark>, status: Status, moves: seq<MoveDesc>)

  class Game {
    var history: seq<Step>
    var stepNumber: nat
    var xIsNext: bool
    var isAscending: bool

    /** The state invariant: a valid ledger, the cursor inside it, and the turn
        flag equal to the cursor's parity. */
    ghost predicate Valid()
      reads this
    {
      && ValidHistory(history)
      && stepNumber < |history|
      && xIsNext == (stepNumber % 2 == 0)
    }

    /** One entry holding the empty board, cursor 0, 'X' to move, ascending order. */
    constructor ()
      ensures Valid()
      ensures history == [START] && stepNumber == 0 && xIsNext && isAscending
    {
      history := [START];
      stepNumber := 0;
      xIsNext := true;
      isAscending := true;
    }

    /** A click on square i is taken into account: the displayed board has no
        winner and square i is empty. */
    ghost predicate Playable(i: Idx)
      reads this
      requires Valid()
    {
      Winner(history[stepNumber].squares).None? && history[stepNumber].squares[i] == Empty
    }

    /** A click on square i. Ignored when the displayed board has a winner or
        the square is taken; otherwise the history is cut after the cursor, the
        new board is appended, the cursor moves to it and the turn passes. */
    method HandleClick(i: Idx)
      requires Valid()
      modifies this
      ensures Valid()
      ensures isAscending == old(isAscending)
      ensures !old(Playable(i)) ==>
        history == old(history) && stepNumber == old(stepNumber) && xIsNext == old(xIsNext)
      ensures old(Playable(i)) ==>
        && history == old(history[..stepNumber + 1]
                          + [Step(history[stepNumber].squares[i := Marked(PlayerMark(xIsNext))], Some(i))])
        && stepNumber == old(stepNumber) + 1
        && stepNumber == |history| - 1
        && xIsNext == !old(xIsNext)
    {
      var past := history[..stepNumber + 1];
      var current := past[|past| - 1];
      var squares := new Cell[9](k requires 0 <= k < 9 => current.squares[k]);
      assert squares[..] == current.squares;
      var winner := CalculateWinner(squares[..]);
      if winner.Some? || squares[i] != Empty {
        return;
      }
      squares[i] := Marked(PlayerMark(xIsNext));
      var next := Step(squares[..], Some(i));
      assert next == Step(current.squares[i := Marked(PlayerMark(xIsNext))], Some(i));
      LegalMoveKeepsHistory(history, stepNumber, i);
      history := past + [next];
      stepNumber := |past|;
      xIsNext := !xIsNext;
    }

    /** Time travel: show entry `step` and give the turn to the player its
        parity designates. The history is kept; nothing checks the range. */
    method JumpTo(step: nat)
      requires Valid() && step < |history|
      modifies this
      ensures Valid()
      ensures stepNumber == step && xIsNext == (step % 2 == 0)
      ensures history == old(history) && isAscending == old(isAscending)
      ensures step == old(stepNumber) ==> unchanged(this)
    {
      stepNumber := step;
      xIsNext := step % 2 == 0;
    }

    /** Flips the display order of the move list, and nothing else. */
    method HandleSortToggle()
      requires Valid()
      modifies this
      ensures Valid()
      ensures isAscending == !old(isAscending)
      ensures history == old(history) && stepNumber == old(stepNumber) && xIsNext == old(xIsNext)
    {
      isAscending := !isAscending;
    }

    /** The non-markup part of render: the displayed board is the entry at the
        cursor, the status comes from its winner and the turn flag, and the
        move list is reversed in place when the order is descending. */
    method Render() returns (v: ViewModel)
      requires Valid()
      ensures v.squares == history[stepNumber].squares
      ensures v.winner == Winner(v.squares)
      ensures v.status == StatusOf(v.squares, xIsNext)
      ensures v.moves == Displayed(history, stepNumber, isAscending)
    {
      var current := history[stepNumber];
      var winner := CalculateWinner(current.squares);
      var chrono := Chronological(history, stepNumber);
      var moves := new MoveDesc[|chrono|](j requires 0 <= j < |chrono| => chrono[j]);
      assert moves[..] == chrono;
      if !isAscending {
        ReverseInPlace(moves);
      }
      assert moves[..] == if isAscending then chrono else Reverse(chrono);
      var status := if winner.Some? then Won(winner.value) else NextPlayer(PlayerMark(xIsNext));
      v := ViewModel(current.squares, winner, status, moves[..]);
    }
  }
}
