/** The observation encoder of get_observation: 0 off the track, 1 on it,
 *  and each agent's cell overwritten with 2 (the viewer or its teammate) or
 *  3 (an opponent), agents written in id order. */
module Observation {
  import opened Cells

  /** The code agent `other` gets in the grid of agent `viewer`; teams are
   *  pairs of consecutive ids. */
  function TeamCode(viewer: nat, other: nat): int {
    if other == viewer then 2
    else if viewer / 2 == other / 2 then 2
    else 3
  }

  /** The code of cell `c` after the track layer and the writes of the agents
   *  at `positions`, in index order (the last writer wins). */
  function CellCode(track: set<Cell>, positions: seq<Cell>, viewer: nat, c: Cell): int
    decreases |positions|
  {
    if positions == [] then (if c in track then 1 else 0)
    else
      var last := |positions| - 1;
      if positions[last] == c then TeamCode(viewer, last)
      else CellCode(track, positions[..last], viewer, c)
  }

  /** Column x of the grid, rows 0 .. height - 1. */
  function Column(track: set<Cell>, positions: seq<Cell>, viewer: nat, x: int, height: nat): seq<int>
  {
    if height == 0 then []
    else Column(track, positions, viewer, x, height - 1) + [CellCode(track, positions, viewer, (x, height - 1))]
  }

  /** Columns 0 .. width - 1 of a grid `size` cells high. */
  function Columns(track: set<Cell>, positions: seq<Cell>, viewer: nat, width: nat, size: nat): Grid
  {
    if width == 0 then []
    else Columns(track, positions, viewer, width - 1, size) + [Column(track, positions, viewer, width - 1, size)]
  }

  /** The whole grid of agent `viewer`, indexed [x][y]. */
  function Observe(gridSize: nat, track: set<Cell>, positions: seq<Cell>, viewer: nat): Grid
  {
    Columns(track, positions, viewer, gridSize, gridSize)
  }

  lemma {:induction false} ColumnCells(track: set<Cell>, positions: seq<Cell>, viewer: nat, x: int, height: nat)
    ensures var col := Column(track, positions, viewer, x, height);
      |col| == height && forall y :: 0 <= y < height ==> col[y] == CellCode(track, positions, viewer, (x, y))
  {
    if height > 0 {
      ColumnCells(track, positions, viewer, x, height - 1);
    }
  }

  lemma {:induction false} ColumnsCells(track: set<Cell>, positions: seq<Cell>, viewer: nat, width: nat, size: nat)
    ensures var g := Columns(track, positions, viewer, width, size);
      |g| == width && forall x :: 0 <= x < width ==> g[x] == Column(track, positions, viewer, x, size)
  {
    if width > 0 {
      ColumnsCells(track, positions, viewer, width - 1, size);
    }
  }

  /** The grid is gridSize by gridSize and cell (x, y) holds CellCode. */
  lemma ObserveCells(gridSize: nat, track: set<Cell>, positions: seq<Cell>, viewer: nat)
    ensures var g := Observe(gridSize, track, positions, viewer);
      |g| == gridSize
      && forall x :: 0 <= x < gridSize ==>
           |g[x]| == gridSize && forall y :: 0 <= y < gridSize ==> g[x][y] == CellCode(track, positions, viewer, (x, y))
  {
    ColumnsCells(track, positions, viewer, gridSize, gridSize);
    forall x | 0 <= x < gridSize
      ensures var col := Column(track, positions, viewer, x, gridSize);
        |col| == gridSize && forall y :: 0 <= y < gridSize ==> col[y] == CellCode(track, positions, viewer, (x, y))
    {
      ColumnCells(track, positions, viewer, x, gridSize);
    }
  }

  /** A cell no agent occupies shows the track layer: 1 on the track, 0 off it. */
  lemma {:induction false} UnoccupiedCell(track: set<Cell>, positions: seq<Cell>, viewer: nat, c: Cell)
    requires forall j :: 0 <= j < |positions| ==> positions[j] != c
    ensures CellCode(track, positions, viewer, c) == if c in track then 1 else 0
  {
    if positions != [] {
      UnoccupiedCell(track, positions[..|positions| - 1], viewer, c);
    }
  }

  /** An occupied cell shows the code of the highest-numbered agent on it. */
  lemma {:induction false} LastWriterWins(track: set<Cell>, positions: seq<Cell>, viewer: nat, c: Cell, j: nat)
    requires j < |positions| && positions[j] == c
    requires forall k :: j < k < |positions| ==> positions[k] != c
    ensures CellCode(track, positions, viewer, c) == TeamCode(viewer, j)
  {
    var last := |positions| - 1;
    if j < last {
      LastWriterWins(track, positions[..last], viewer, c, j);
    }
  }

  /** Codes are 0..3, and a code of 2 or more marks exactly the occupied cells. */
  lemma {:induction false} CodeRange(track: set<Cell>, positions: seq<Cell>, viewer: nat, c: Cell)
    ensures 0 <= CellCode(track, positions, viewer, c) <= 3
    ensures CellCode(track, positions, viewer, c) >= 2 <==>
      exists j :: 0 <= j < |positions| && positions[j] == c
  {
    if positions != [] {
      var last := |positions| - 1;
      CodeRange(track, positions[..last], viewer, c);
      if exists j :: 0 <= j < last && positions[..last][j] == c {
        var j :| 0 <= j < last && positions[..last][j] == c;
        assert positions[j] == c;
      }
    }
  }

  /** With the agents on pairwise distinct cells, each agent's cell carries its
   *  own code; the viewer sees itself as 2. */
  lemma AgentCell(track: set<Cell>, positions: seq<Cell>, viewer: nat, j: nat)
    requires j < |positions|
    requires forall a, b :: 0 <= a < b < |positions| ==> positions[a] != positions[b]
    ensures CellCode(track, positions, viewer, positions[j]) == TeamCode(viewer, j)
    ensures j == viewer ==> CellCode(track, positions, viewer, positions[j]) == 2
  {
    LastWriterWins(track, positions, viewer, positions[j], j);
  }
}
