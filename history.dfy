/** The history ledger: board snapshots, one per move, and the invariant that
    every reachable history satisfies. */
module History {
  import opened Grid
  import opened WinDetector

  /** One history entry: a board snapshot and the square just played
      (absent for the first entry). */
  datatype Step = Step(squares: Board, lastMoveSquare: Option<Idx>)

  /** The single entry the game starts with. */
  const START: Step := Step(EMPTY_BOARD, None)

  /** `next` is the entry a legal click produces from `prev` when the cursor
      stands at `turn`: the game was not won, the square was empty, and it now
      holds the mark of the player whose turn it was; nothing else changed. */
  predicate IsMove(prev: Step, next: Step, turn: nat)
  {
    && next.lastMoveSquare.Some?
    && Winner(prev.squares).None?
    && prev.squares[next.lastMoveSquare.value] == Empty
    && next.squares == prev.squares[next.lastMoveSquare.value := Marked(PlayerMark(turn % 2 == 0))]
  }

  /** The ledger invariant: it starts with the empty board and each entry is a
      legal move from its predecessor. */
  predicate ValidHistory(h: seq<Step>)
  {
    && |h| > 0
    && h[0] == START
    && (forall k :: 0 <= k < |h| - 1 ==> IsMove(h[k], h[k + 1], k))
    && (forall k :: 0 < k < |h| ==> h[k].lastMoveSquare.Some?)
  }

  /** The number of squares of `s` holding mark `m`. */
  function Count(s: seq<Cell>, m: Mark): (n: nat)
    ensures n <= |s|
  {
    if s == [] then 0 else (if s[0] == Marked(m) then 1 else 0) + Count(s[1..], m)
  }

  /** The squares that differ between two boards. */
  function Diff(a: Board, b: Board): set<Idx>
  {
    set c: Idx | a[c] != b[c]
  }

  /** A legal click keeps the ledger invariant: truncating at the cursor and
      appending the new entry yields a valid history. */
  lemma LegalMoveKeepsHistory(h: seq<Step>, k: nat, i: Idx)
    requires ValidHistory(h) && k < |h|
    requires Winner(h[k].squares).None? && h[k].squares[i] == Empty
    ensures ValidHistory(h[..k + 1] + [Step(h[k].squares[i := Marked(PlayerMark(k % 2 == 0))], Some(i))])
  {
    var h' := h[..k + 1] + [Step(h[k].squares[i := Marked(PlayerMark(k % 2 == 0))], Some(i))];
    forall j | 0 <= j < |h'| - 1 ensures IsMove(h'[j], h'[j + 1], j) {
      if j < k {
        assert h'[j] == h[j] && h'[j + 1] == h[j + 1];
      }
    }
  }

  /** Marks alternate: entry k > 0 holds 'X' at its last-move square when k is
      odd and 'O' when k is even. */
  lemma MarkAlternation(h: seq<Step>, k: nat)
    requires ValidHistory(h) && 0 < k < |h|
    ensures h[k].lastMoveSquare.Some?
    ensures h[k].squares[h[k].lastMoveSquare.value] == Marked(if k % 2 == 1 then X else O)
  {
    assert IsMove(h[k - 1], h[k], k - 1);
  }

  /** Each entry differs from its predecessor in exactly one square: the one
      recorded as its last move, empty before and marked after. */
  lemma SingleCellDelta(h: seq<Step>, k: nat)
    requires ValidHistory(h) && 0 < k < |h|
    ensures h[k].lastMoveSquare.Some?
    ensures Diff(h[k - 1].squares, h[k].squares) == {h[k].lastMoveSquare.value}
    ensures h[k - 1].squares[h[k].lastMoveSquare.value] == Empty
    ensures h[k].squares[h[k].lastMoveSquare.value] != Empty
  {
    assert IsMove(h[k - 1], h[k], k - 1);
    var c := h[k].lastMoveSquare.value;
    assert c in Diff(h[k - 1].squares, h[k].squares);
  }

  /** Only the last entry of a history can have a winner: no move follows a win. */
  lemma NoMoveAfterWin(h: seq<Step>, k: nat)
    requires ValidHistory(h) && k < |h| - 1
    ensures Winner(h[k].squares) == None
  {
    assert IsMove(h[k], h[k + 1], k);
  }

  lemma {:induction false} CountNone(s: seq<Cell>, m: Mark)
    requires forall j :: 0 <= j < |s| ==> s[j] == Empty
    ensures Count(s, m) == 0
  {
    if s != [] {
      CountNone(s[1..], m);
    }
  }

  /** Filling an empty square with `m` adds one `m` and leaves the other mark's count alone. */
  lemma {:induction false} CountPlace(s: seq<Cell>, c: nat, m: Mark, other: Mark)
    requires c < |s| && s[c] == Empty
    ensures Count(s[c := Marked(m)], m) == Count(s, m) + 1
    ensures other != m ==> Count(s[c := Marked(m)], other) == Count(s, other)
  {
    if c == 0 {
      assert s[c := Marked(m)][1..] == s[1..];
    } else {
      assert s[c := Marked(m)][1..] == s[1..][c - 1 := Marked(m)];
      CountPlace(s[1..], c - 1, m, other);
    }
  }

  /** No square holds two marks. */
  lemma {:induction false} CountsFit(s: seq<Cell>)
    ensures Count(s, X) + Count(s, O) <= |s|
  {
    if s != [] {
      CountsFit(s[1..]);
    }
  }

  /** Entry k holds ceil(k/2) 'X' marks and floor(k/2) 'O' marks. */
  lemma {:induction false} MarkCounts(h: seq<Step>, k: nat)
    requires ValidHistory(h) && k < |h|
    ensures Count(h[k].squares, X) == (k + 1) / 2
    ensures Count(h[k].squares, O) == k / 2
  {
    if k == 0 {
      CountNone(h[0].squares, X);
      CountNone(h[0].squares, O);
    } else {
      MarkCounts(h, k - 1);
      assert IsMove(h[k - 1], h[k], k - 1);
      var c := h[k].lastMoveSquare.value;
      var m := PlayerMark((k - 1) % 2 == 0);
      CountPlace(h[k - 1].squares, c, m, if m == X then O else X);
    }
  }

  /** A history never holds more than ten entries: every move fills one of the nine squares. */
  lemma HistoryBounded(h: seq<Step>)
    requires ValidHistory(h)
    ensures |h| <= 10
  {
    MarkCounts(h, |h| - 1);
    CountsFit(h[|h| - 1].squares);
  }
}
