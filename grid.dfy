/** Cells, marks and the 9-cell board shared by the win detector and the game engine. */
module Grid {

  /** The two players' marks, 'X' and 'O'. */
  datatype Mark = X | O

  /** A square holds null (empty) or a mark. */
  datatype Cell = Empty | Marked(mark: Mark)

  /** A square index: row-major, index = row * 3 + column. */
  type Idx = i: int | 0 <= i < 9

  /** A board snapshot: exactly nine squares. */
  type Board = s: seq<Cell> | |s| == 9
    witness [Empty, Empty, Empty, Empty, Empty, Empty, Empty, Empty, Empty]

  /** `Array(9).fill(null)`: the board of the first history entry. */
  const EMPTY_BOARD: Board := [Empty, Empty, Empty, Empty, Empty, Empty, Empty, Empty, Empty]

  /** The mark the turn flag designates: 'X' when xIsNext, else 'O'. */
  function PlayerMark(xIsNext: bool): Mark
  {
    if xIsNext then X else O
  }
}
