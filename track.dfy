/** The integer part of create_track_and_checkpoints: the annular track, the
 *  checkpoint groups filtered from candidate strips, and the start line. */
module Track {
  import opened Cells

  function Center(gridSize: nat): int { gridSize / 2 }

  function OuterRadius(gridSize: nat): int { gridSize / 2 - 2 }

  function InnerRadius(gridSize: nat, trackWidth: int): int { OuterRadius(gridSize) - trackWidth }

  function SquaredDistance(gridSize: nat, c: Cell): int {
    var dx := c.0 - Center(gridSize);
    var dy := c.1 - Center(gridSize);
    dx * dx + dy * dy
  }

  /** inner <= sqrt(d2) < outer, restated on integers: a negative or zero
   *  inner radius admits every distance, a non-positive outer radius none. */
  predicate InAnnulus(gridSize: nat, trackWidth: int, c: Cell) {
    var d2 := SquaredDistance(gridSize, c);
    var outer := OuterRadius(gridSize);
    var inner := InnerRadius(gridSize, trackWidth);
    (inner <= 0 || inner * inner <= d2) && 0 < outer && d2 < outer * outer
  }

  /** A cell of the generated track. */
  predicate OnTrack(gridSize: nat, trackWidth: int, c: Cell) {
    InGrid(gridSize, c) && InAnnulus(gridSize, trackWidth, c)
  }

  /** Builds the track row by row, adding every grid cell of the annulus. */
  method CreateTrack(gridSize: nat, trackWidth: int) returns (track: set<Cell>)
    ensures forall c :: c in track <==> OnTrack(gridSize, trackWidth, c)
  {
    track := {};
    var y := 0;
    while y < gridSize
      invariant 0 <= y <= gridSize
      invariant forall c :: c in track <==> OnTrack(gridSize, trackWidth, c) && c.1 < y
    {
      var x := 0;
      while x < gridSize
        invariant 0 <= x <= gridSize
        invariant forall c :: c in track <==>
          OnTrack(gridSize, trackWidth, c) && (c.1 < y || (c.1 == y && c.0 < x))
      {
        if InAnnulus(gridSize, trackWidth, (x, y)) {
          track := track + {(x, y)};
        }
        x := x + 1;
      }
      y := y + 1;
    }
  }

  /** The cells of one candidate strip that survive as a checkpoint group:
   *  those inside the grid and on the track, in strip order. */
  function Kept(gridSize: nat, track: set<Cell>, strip: seq<Cell>): seq<Cell>
  {
    if strip == [] then []
    else
      var rest := Kept(gridSize, track, strip[..|strip| - 1]);
      var c := strip[|strip| - 1];
      if InGrid(gridSize, c) && c in track then rest + [c] else rest
  }

  lemma {:induction false} KeptMembers(gridSize: nat, track: set<Cell>, strip: seq<Cell>, c: Cell)
    ensures c in Kept(gridSize, track, strip) <==> c in strip && InGrid(gridSize, c) && c in track
  {
    if strip != [] {
      var init := strip[..|strip| - 1];
      KeptMembers(gridSize, track, init, c);
      assert strip == init + [strip[|strip| - 1]];
    }
  }

  lemma {:induction false} KeptShorter(gridSize: nat, track: set<Cell>, strip: seq<Cell>)
    ensures |Kept(gridSize, track, strip)| <= |strip|
  {
    if strip != [] {
      KeptShorter(gridSize, track, strip[..|strip| - 1]);
    }
  }

  /** Filters one strip, appending each kept cell in turn. */
  method FilterStrip(gridSize: nat, track: set<Cell>, strip: seq<Cell>) returns (checkpoint: seq<Cell>)
    ensures checkpoint == Kept(gridSize, track, strip)
    ensures forall c :: c in checkpoint <==> c in strip && InGrid(gridSize, c) && c in track
  {
    checkpoint := [];
    var w := 0;
    while w < |strip|
      invariant 0 <= w <= |strip|
      invariant checkpoint == Kept(gridSize, track, strip[..w])
    {
      var c := strip[w];
      assert strip[..w + 1][..w] == strip[..w];
      if InGrid(gridSize, c) && c in track {
        checkpoint := checkpoint + [c];
      }
      w := w + 1;
    }
    assert strip[..|strip|] == strip;
    forall c | true
      ensures c in checkpoint <==> c in strip && InGrid(gridSize, c) && c in track
    {
      KeptMembers(gridSize, track, strip, c);
    }
  }

  /** The checkpoint groups, one per strip, with empty groups dropped. */
  function Groups(gridSize: nat, track: set<Cell>, strips: seq<seq<Cell>>): seq<seq<Cell>>
  {
    if strips == [] then []
    else
      var rest := Groups(gridSize, track, strips[..|strips| - 1]);
      var group := Kept(gridSize, track, strips[|strips| - 1]);
      if group != [] then rest + [group] else rest
  }

  /** A well-formed list of checkpoint groups: no group is empty and every
   *  cell is an in-grid track cell. */
  predicate GroupsOnTrack(gridSize: nat, track: set<Cell>, groups: seq<seq<Cell>>) {
    forall i :: 0 <= i < |groups| ==>
      groups[i] != [] && forall c :: c in groups[i] ==> InGrid(gridSize, c) && c in track
  }

  lemma {:induction false} GroupsWellFormed(gridSize: nat, track: set<Cell>, strips: seq<seq<Cell>>)
    ensures |Groups(gridSize, track, strips)| <= |strips|
    ensures GroupsOnTrack(gridSize, track, Groups(gridSize, track, strips))
  {
    if strips != [] {
      var last := strips[|strips| - 1];
      GroupsWellFormed(gridSize, track, strips[..|strips| - 1]);
      forall c | c in Kept(gridSize, track, last)
        ensures InGrid(gridSize, c) && c in track
      {
        KeptMembers(gridSize, track, last, c);
      }
    }
  }

  /** Every non-empty filtered strip is kept, and nothing else is. */
  lemma {:induction false} GroupsMembers(gridSize: nat, track: set<Cell>, strips: seq<seq<Cell>>, g: seq<Cell>)
    ensures g in Groups(gridSize, track, strips) <==>
      g != [] && exists i :: 0 <= i < |strips| && g == Kept(gridSize, track, strips[i])
  {
    if strips != [] {
      var init := strips[..|strips| - 1];
      GroupsMembers(gridSize, track, init, g);
      if exists i :: 0 <= i < |strips| && g == Kept(gridSize, track, strips[i]) {
        var i :| 0 <= i < |strips| && g == Kept(gridSize, track, strips[i]);
        if i < |init| {
          assert strips[i] == init[i];
        }
      }
      if exists i :: 0 <= i < |init| && g == Kept(gridSize, track, init[i]) {
        var i :| 0 <= i < |init| && g == Kept(gridSize, track, init[i]);
        assert init[i] == strips[i];
      }
    }
  }

  /** The indices of the strips whose filtered form is non-empty, in
   *  ascending order. */
  function KeptIndices(gridSize: nat, track: set<Cell>, strips: seq<seq<Cell>>): seq<int>
  {
    if strips == [] then []
    else
      var rest := KeptIndices(gridSize, track, strips[..|strips| - 1]);
      if Kept(gridSize, track, strips[|strips| - 1]) != [] then rest + [|strips| - 1] else rest
  }

  /** The groups keep the order of their strips: group k is the filtered
   *  form of the k-th strip with a non-empty one, so checkpoint counter k
   *  points at that strip's cells. */
  lemma {:induction false} GroupsInOrder(gridSize: nat, track: set<Cell>, strips: seq<seq<Cell>>)
    ensures var idx := KeptIndices(gridSize, track, strips);
      var groups := Groups(gridSize, track, strips);
      |idx| == |groups|
      && (forall k :: 0 <= k < |idx| ==> 0 <= idx[k] < |strips| && groups[k] == Kept(gridSize, track, strips[idx[k]]))
      && (forall k, l :: 0 <= k < l < |idx| ==> idx[k] < idx[l])
      && (forall i :: 0 <= i < |strips| ==> (i in idx <==> Kept(gridSize, track, strips[i]) != []))
  {
    if strips != [] {
      var init := strips[..|strips| - 1];
      GroupsInOrder(gridSize, track, init);
      var idx := KeptIndices(gridSize, track, strips);
      var before := KeptIndices(gridSize, track, init);
      assert forall k :: 0 <= k < |before| ==> before[k] < |init|;
      forall i | 0 <= i < |init|
        ensures strips[i] == init[i]
      {
      }
    }
  }

  /** The start line: exactly the track cells in the centre column from the
   *  centre row downwards, in ascending y. */
  predicate IsStartLine(gridSize: nat, track: set<Cell>, startLine: seq<Cell>) {
    (forall i :: 0 <= i < |startLine| ==>
      startLine[i].0 == Center(gridSize) && Center(gridSize) <= startLine[i].1 < gridSize
      && startLine[i] in track)
    && (forall i, j :: 0 <= i < j < |startLine| ==> startLine[i].1 < startLine[j].1)
    && (forall y :: Center(gridSize) <= y < gridSize && (Center(gridSize), y) in track ==>
      (Center(gridSize), y) in startLine)
  }

  /** Start-line cells are pairwise distinct, so agents seeded on different
   *  start-line indices never share a cell. */
  lemma StartLineDistinct(gridSize: nat, track: set<Cell>, startLine: seq<Cell>, i: int, j: int)
    requires IsStartLine(gridSize, track, startLine)
    requires 0 <= i < |startLine| && 0 <= j < |startLine| && i != j
    ensures startLine[i] != startLine[j]
  {
    if i > j {
      assert startLine[j].1 < startLine[i].1;
    }
  }

  /** Scans the centre column from the centre row to the bottom edge. */
  method CreateStartLine(gridSize: nat, track: set<Cell>) returns (startLine: seq<Cell>)
    ensures IsStartLine(gridSize, track, startLine)
  {
    startLine := [];
    var startX := Center(gridSize);
    var y := gridSize / 2;
    while y < gridSize
      invariant Center(gridSize) <= y <= gridSize
      invariant forall i :: 0 <= i < |startLine| ==>
        startLine[i].0 == startX && Center(gridSize) <= startLine[i].1 < y && startLine[i] in track
      invariant forall i, j :: 0 <= i < j < |startLine| ==> startLine[i].1 < startLine[j].1
      invariant forall y' :: Center(gridSize) <= y' < y && (startX, y') in track ==> (startX, y') in startLine
    {
      if (startX, y) in track {
        startLine := startLine + [(startX, y)];
      }
      y := y + 1;
    }
  }

  /** The groups with the start line appended to the last one. */
  function WithStartLine(groups: seq<seq<Cell>>, startLine: seq<Cell>): seq<seq<Cell>>
  {
    if groups == [] then []
    else groups[..|groups| - 1] + [groups[|groups| - 1] + startLine]
  }

  /** Track, checkpoints and start line for a grid; the candidate strips are
   *  the cells the angular placement proposes, one strip per checkpoint (none
   *  for a negative count). A count of zero divides by zero in the angle
   *  step, so it is excluded. */
  method CreateTrackAndCheckpoints(gridSize: nat, trackWidth: int, numCheckpoints: int,
                                   strips: seq<seq<Cell>>)
    returns (track: set<Cell>, checkpoints: seq<seq<Cell>>, startLine: seq<Cell>)
    requires numCheckpoints != 0
    requires |strips| == if numCheckpoints > 0 then numCheckpoints else 0
    ensures forall c :: c in track <==> OnTrack(gridSize, trackWidth, c)
    ensures IsStartLine(gridSize, track, startLine)
    ensures checkpoints == WithStartLine(Groups(gridSize, track, strips), startLine)
    ensures |checkpoints| <= |strips|
    ensures GroupsOnTrack(gridSize, track, checkpoints)
    ensures |checkpoints| > 0 ==> forall c :: c in startLine ==> c in checkpoints[|checkpoints| - 1]
  {
    track := CreateTrack(gridSize, trackWidth);
    checkpoints := [];
    var i := 0;
    while i < |strips|
      invariant 0 <= i <= |strips|
      invariant checkpoints == Groups(gridSize, track, strips[..i])
    {
      var checkpoint := FilterStrip(gridSize, track, strips[i]);
      assert strips[..i + 1][..i] == strips[..i];
      if checkpoint != [] {
        checkpoints := checkpoints + [checkpoint];
      }
      i := i + 1;
    }
    assert strips[..|strips|] == strips;
    GroupsWellFormed(gridSize, track, strips);
    startLine := CreateStartLine(gridSize, track);
    if |checkpoints| > 0 {
      var last := |checkpoints| - 1;
      checkpoints := checkpoints[last := checkpoints[last] + startLine];
    }
  }
}
