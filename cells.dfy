/** Shared vocabulary of the racing model: grid cells, optional values and
 *  observation grids. */
module Cells {

  /** A grid cell (x, y). */
  type Cell = (int, int)

  /** An observation grid, indexed [x][y]. */
  type Grid = seq<seq<int>>

  /** A value that may be absent (an attribute the source has not created yet). */
  datatype Option<T> = None | Some(value: T)

  /** Both coordinates lie in [0, gridSize). */
  predicate InGrid(gridSize: int, c: Cell) {
    0 <= c.0 < gridSize && 0 <= c.1 < gridSize
  }
}
