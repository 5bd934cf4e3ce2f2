/** Play sequences that callers of `Game` can reason about from the method
    contracts alone. */
module Scenarios {
  import opened Grid
  import opened WinDetector
  import opened History
  import opened View
  import opened Engine

  /** A first move in the centre, then a jump back to the start and a
      different first move that replaces it. */
  method BranchFromStart()
  {
    var g := new Game();
    EmptyBoardHasNoWinner();
    assert g.Playable(4);
    g.HandleClick(4);
    var v := g.Render();
    assert v.squares[4] == Marked(X);
    assert v.status == NextPlayer(O);

    g.JumpTo(0);
    v := g.Render();
    assert v.squares == EMPTY_BOARD;
    assert v.status == NextPlayer(X);
    assert |g.history| == 2;

    assert g.Playable(2);
    g.HandleClick(2);
    assert |g.history| == 2;
    assert g.history[1].squares[2] == Marked(X);
    assert g.history[1].squares[4] == Empty;
  }

  /** The boards of a game in which X takes the left column (squares 0, 3, 6)
      while O plays 1 and 4: none has a winner until X completes the column,
      the fourth line of the scan. */
  lemma ColumnGameWinners()
    ensures Winner(EMPTY_BOARD) == None
    ensures Winner(EMPTY_BOARD[0 := Marked(X)]) == None
    ensures Winner(EMPTY_BOARD[0 := Marked(X)][1 := Marked(O)]) == None
    ensures Winner(EMPTY_BOARD[0 := Marked(X)][1 := Marked(O)][3 := Marked(X)]) == None
    ensures Winner(EMPTY_BOARD[0 := Marked(X)][1 := Marked(O)][3 := Marked(X)][4 := Marked(O)]) == None
    ensures Winner(EMPTY_BOARD[0 := Marked(X)][1 := Marked(O)][3 := Marked(X)][4 := Marked(O)][6 := Marked(X)]) == Some(X)
  {
    EmptyBoardHasNoWinner();
    var last := EMPTY_BOARD[0 := Marked(X)][1 := Marked(O)][3 := Marked(X)][4 := Marked(O)][6 := Marked(X)];
    assert FirstComplete(last, 3);
    WinnerIsFirstLine(last, 3);
  }

  /** A click on an empty square of a board without a winner, as a caller
      sees it: the cursor advances and the new board has the mover's mark at i. */
  method PlayOpenSquare(g: Game, i: Idx)
    requires g.Valid() && g.Playable(i)
    modifies g
    ensures g.Valid() && g.stepNumber == old(g.stepNumber) + 1 && g.xIsNext == !old(g.xIsNext)
    ensures g.history[g.stepNumber].squares
         == old(g.history[g.stepNumber].squares)[i := Marked(PlayerMark(old(g.xIsNext)))]
  {
    g.HandleClick(i);
  }

  /** The first three moves of that game: X at 0, O at 1, X at 3. */
  method ColumnOpening() returns (g: Game)
    ensures fresh(g) && g.Valid() && g.stepNumber == 3 && !g.xIsNext
    ensures g.history[3].squares == EMPTY_BOARD[0 := Marked(X)][1 := Marked(O)][3 := Marked(X)]
  {
    g := new Game();
    ColumnGameWinners();
    PlayOpenSquare(g, 0);
    PlayOpenSquare(g, 1);
    PlayOpenSquare(g, 3);
  }

  /** O then plays 4 and X completes the left column; the game is won and a
      further click is ignored. */
  method ColumnWin()
  {
    var g := ColumnOpening();
    ColumnGameWinners();
    PlayOpenSquare(g, 4);
    PlayOpenSquare(g, 6);
    var v := g.Render();
    assert v.status == Won(X);
    assert !g.Playable(8);
    g.HandleClick(8);
    assert g.stepNumber == 5;
  }

  /** Clicking the same square twice: the second click is ignored. */
  method OccupiedSquareIgnored()
  {
    var g := new Game();
    EmptyBoardHasNoWinner();
    assert g.Playable(4);
    g.HandleClick(4);
    var before := g.history;
    assert !g.Playable(4);
    g.HandleClick(4);
    assert g.history == before && g.stepNumber == 1 && !g.xIsNext;
  }

  /** Two sort toggles give back the original move list. */
  method ToggleTwice()
  {
    var g := new Game();
    var v := g.Render();
    g.HandleSortToggle();
    g.HandleSortToggle();
    var w := g.Render();
    assert w.moves == v.moves;
  }
}
