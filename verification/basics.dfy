/** Shared vocabulary of the tic-tac-toe core: an optional value (the source's
    nullable pointers), the nine linear cell indices and the eight winning lines. */
module Basics {

  datatype Option<+T> = None | Some(value: T)

  /** A linear cell index y * 3 + x of the 3x3 board, in row-major order. */
  type Index = i: int | 0 <= i < 9

  /** The fixed winning lines, in the order both scans use:
      three rows, three columns, then the two diagonals. */
  const Lines: seq<(Index, Index, Index)> :=
    [(0, 1, 2), (3, 4, 5), (6, 7, 8),
     (0, 3, 6), (1, 4, 7), (2, 5, 8),
     (0, 4, 8), (2, 4, 6)]
}
