/** The MultiCarRacing engine of environment.py: construction, reset, step
 *  and the per-agent observation. The agents dictionary, keyed 0 .. n - 1,
 *  is an array of car records indexed by agent id. */
module Environment {
  import opened Cells
  import opened Agent
  import opened Observation
  import opened Transition
  import Track

  /** The number of ids `range(nCars)` yields. */
  function AgentCount(nCars: int): nat
  {
    if nCars > 0 then nCars else 0
  }

  /** The start cell of agent `i`: the start line, reused cyclically. */
  function StartCell(startLine: seq<Cell>, i: nat): (c: Cell)
    requires |startLine| > 0
    ensures c in startLine
  {
    startLine[i % |startLine|]
  }

  /** Agents on consecutive start-line cells never share one while there
   *  are no more agents than start-line cells. */
  lemma StartCellsApart(gridSize: nat, track: set<Cell>, startLine: seq<Cell>, n: nat)
    requires Track.IsStartLine(gridSize, track, startLine) && 0 < n <= |startLine|
    ensures forall i, j :: 0 <= i < n && 0 <= j < n && i != j ==> StartCell(startLine, i) != StartCell(startLine, j)
  {
    forall i, j | 0 <= i < n && 0 <= j < n && i != j
      ensures StartCell(startLine, i) != StartCell(startLine, j)
    {
      assert i % |startLine| == i && j % |startLine| == j;
      Track.StartLineDistinct(gridSize, track, startLine, i, j);
    }
  }

  /** A copy of an observation array as a grid value, indexed [x][y]. */
  method Snapshot(a: array2<int>) returns (g: Grid)
    ensures |g| == a.Length0
    ensures forall x :: 0 <= x < a.Length0 ==> |g[x]| == a.Length1 && forall y :: 0 <= y < a.Length1 ==> g[x][y] == a[x, y]
  {
    g := [];
    var x := 0;
    while x < a.Length0
      invariant 0 <= x <= a.Length0 && |g| == x
      invariant forall i :: 0 <= i < x ==> |g[i]| == a.Length1 && forall y :: 0 <= y < a.Length1 ==> g[i][y] == a[i, y]
    {
      var column := [];
      var y := 0;
      while y < a.Length1
        invariant 0 <= y <= a.Length1 && |column| == y
        invariant forall j :: 0 <= j < y ==> column[j] == a[x, j]
      {
        column := column + [a[x, y]];
        y := y + 1;
      }
      g := g + [column];
      x := x + 1;
    }
  }

  /** Two grids with the same dimensions and cells are the same grid. */
  lemma SameGrid(g: Grid, h: Grid, size: nat)
    requires |g| == size && |h| == size
    requires forall x :: 0 <= x < size ==> |g[x]| == size && |h[x]| == size
    requires forall x, y :: 0 <= x < size && 0 <= y < size ==> g[x][y] == h[x][y]
    ensures g == h
  {
    forall x | 0 <= x < size
      ensures g[x] == h[x]
    {
    }
  }

  /** Every checkpoint counter indexes a checkpoint group; when there are
   *  no groups at all, every counter is still the 0 the car started with. */
  predicate CountersFit(cars: seq<CarState>, groups: nat) {
    if groups > 0 then CountersOk(cars, groups)
    else forall i :: 0 <= i < |cars| ==> cars[i].checkpointCounter == 0
  }

  /** The agents dictionary the constructor fills: car i is a new `Car`
   *  built with its start cell. */
  method SeedCars(startLine: seq<Cell>, n: nat) returns (cars: array<CarState>)
    requires n > 0 ==> |startLine| > 0
    ensures fresh(cars) && cars.Length == n
    ensures forall i :: 0 <= i < n ==> cars[i] == CarState(StartCell(startLine, i), (0, 0), 0, 0, 0, false, None)
  {
    cars := new CarState[n];
    var i := 0;
    while i < n
      invariant 0 <= i <= n
      invariant forall j :: 0 <= j < i ==> cars[j] == CarState(StartCell(startLine, j), (0, 0), 0, 0, 0, false, None)
    {
      var car := new Car(StartCell(startLine, i));
      cars[i] := car.Value();
      i := i + 1;
    }
  }

  class MultiCarRacing {
    const nCars: int
    /** grid_rows and grid_columns, which are always equal. */
    const gridSize: nat
    const track: set<Cell>
    const checkpoints: seq<seq<Cell>>
    const startLine: seq<Cell>
    /** The agents dictionary: agents[i] is the car with id i. */
    const agents: array<CarState>
    /** self.rewards and self.dones, created by `Reset`. */
    var rewards: Option<seq<int>>
    var dones: Option<seq<bool>>

    /** What every public method keeps. Until the first reset the cars sit
     *  where the car constructor put them, which need not be on the track. */
    ghost predicate Valid()
      reads this, agents
    {
      agents.Length == AgentCount(nCars)
      && (forall c :: c in track ==> InGrid(gridSize, c))
      && Track.IsStartLine(gridSize, track, startLine)
      && (agents.Length > 0 ==> |startLine| > 0)
      && CountersFit(agents[..], |checkpoints|) && CooldownsOk(agents[..])
      && (rewards.Some? ==> |rewards.value| == agents.Length)
      && (dones.Some? ==> DonesMatch(agents[..], dones.value) && CarsOnTrack(agents[..], track))
    }

    /** The static part of the engine a step reads. */
    function Layout(): Course
    {
      Course(gridSize, track, checkpoints)
    }

    /** Builds the track, the checkpoints and the start line, and gives
     *  agent i a car whose identifier is its start cell; the cars
     *  themselves stay at (0, 0) until `Reset`. */
    constructor (nCars: int, gridSize: nat, trackWidth: int, numCheckpoints: int, strips: seq<seq<Cell>>)
      requires numCheckpoints != 0
      requires |strips| == if numCheckpoints > 0 then numCheckpoints else 0
      requires nCars > 0 ==>
        exists y :: Track.Center(gridSize) <= y < gridSize && Track.OnTrack(gridSize, trackWidth, (Track.Center(gridSize), y))
      ensures Valid() && rewards == None && dones == None
      ensures this.nCars == nCars && this.gridSize == gridSize
      ensures forall c :: c in track <==> Track.OnTrack(gridSize, trackWidth, c)
      ensures Track.IsStartLine(gridSize, track, startLine)
      ensures checkpoints == Track.WithStartLine(Track.Groups(gridSize, track, strips), startLine)
      ensures agents.Length == AgentCount(nCars)
      ensures forall i :: 0 <= i < agents.Length ==>
        agents[i] == CarState(StartCell(startLine, i), (0, 0), 0, 0, 0, false, None)
    {
      this.nCars := nCars;
      this.gridSize := gridSize;
      var track, checkpoints, startLine := Track.CreateTrackAndCheckpoints(gridSize, trackWidth, numCheckpoints, strips);
      this.track := track;
      this.checkpoints := checkpoints;
      this.startLine := startLine;
      if nCars > 0 {
        var y :| Track.Center(gridSize) <= y < gridSize && Track.OnTrack(gridSize, trackWidth, (Track.Center(gridSize), y));
        assert (Track.Center(gridSize), y) in startLine;
      }
      var cars := SeedCars(startLine, AgentCount(nCars));
      agents := cars;
      rewards := None;
      dones := None;
      new;
      assert forall c :: c in track ==> InGrid(gridSize, c) by {
        forall c | c in track
          ensures InGrid(gridSize, c)
        {
          assert Track.OnTrack(gridSize, trackWidth, c);
        }
      }
    }

    /** The grid agent `viewer` sees: 1 on the track, 0 elsewhere, and each
     *  agent's cell overwritten in id order with its team code. */
    method GetObservation(viewer: nat) returns (observation: array2<int>)
      requires forall c :: c in track ==> InGrid(gridSize, c)
      requires forall i :: 0 <= i < agents.Length ==> InGrid(gridSize, agents[i].position)
      ensures observation.Length0 == gridSize && observation.Length1 == gridSize
      ensures forall x, y :: 0 <= x < gridSize && 0 <= y < gridSize ==>
        observation[x, y] == CellCode(track, Positions(agents[..]), viewer, (x, y))
    {
      observation := new int[gridSize, gridSize]((_, _) => 0);
      var rest := track;
      while rest != {}
        invariant rest <= track
        invariant forall x, y :: 0 <= x < gridSize && 0 <= y < gridSize ==>
          observation[x, y] == if (x, y) in track - rest then 1 else 0
        decreases rest
      {
        var c :| c in rest;
        observation[c.0, c.1] := 1;
        rest := rest - {c};
      }
      var i := 0;
      while i < agents.Length
        invariant 0 <= i <= agents.Length
        invariant forall x, y :: 0 <= x < gridSize && 0 <= y < gridSize ==>
          observation[x, y] == CellCode(track, Positions(agents[..i]), viewer, (x, y))
      {
        var pos := agents[i].position;
        assert Positions(agents[..i + 1])[..i] == Positions(agents[..i]);
        observation[pos.0, pos.1] := TeamCode(viewer, i);
        i := i + 1;
      }
      assert agents[..agents.Length] == agents[..];
    }

    /** `GetObservation` as a grid value; it equals `Observe`. */
    method ObservationGrid(viewer: nat) returns (g: Grid)
      requires forall c :: c in track ==> InGrid(gridSize, c)
      requires forall i :: 0 <= i < agents.Length ==> InGrid(gridSize, agents[i].position)
      ensures g == Observe(gridSize, track, Positions(agents[..]), viewer)
    {
      var observation := GetObservation(viewer);
      g := Snapshot(observation);
      ObserveCells(gridSize, track, Positions(agents[..]), viewer);
      SameGrid(g, Observe(gridSize, track, Positions(agents[..]), viewer), gridSize);
    }

    /** Puts every agent back on its start cell with counters, cooldown and
     *  done flag cleared (reward and last observation are kept), creates
     *  zero rewards and false done flags, and returns each agent's view. */
    method Reset() returns (observations: seq<Grid>)
      requires Valid()
      modifies this, agents
      ensures Valid() && rewards.Some? && dones.Some?
      ensures forall i :: 0 <= i < agents.Length ==>
        agents[i] == old(agents[i]).(position := StartCell(startLine, i), checkpointCounter := 0,
                                     collisionCounter := 0, done := false)
      ensures |rewards.value| == agents.Length && forall i :: 0 <= i < agents.Length ==> rewards.value[i] == 0
      ensures |dones.value| == agents.Length && forall i :: 0 <= i < agents.Length ==> !dones.value[i]
      ensures |observations| == agents.Length
      ensures forall i :: 0 <= i < agents.Length ==>
        observations[i] == Observe(gridSize, track, Positions(agents[..]), i)
      ensures agents.Length <= |startLine| ==> Apart(agents[..])
    {
      PlaceAgents();
      rewards := Some(seq(agents.Length, _ => 0));
      dones := Some(seq(agents.Length, _ => false));
      observations := ObserveAll();
      if 0 < agents.Length <= |startLine| {
        StartCellsApart(gridSize, track, startLine, agents.Length);
      }
    }

    /** The first loop of `Reset`: every agent back on its start cell. */
    method PlaceAgents()
      requires agents.Length > 0 ==> |startLine| > 0
      modifies agents
      ensures forall i :: 0 <= i < agents.Length ==>
        agents[i] == old(agents[i]).(position := StartCell(startLine, i), checkpointCounter := 0,
                                     collisionCounter := 0, done := false)
    {
      var i := 0;
      while i < agents.Length
        invariant 0 <= i <= agents.Length
        invariant forall j :: 0 <= j < i ==>
          agents[j] == old(agents[j]).(position := StartCell(startLine, j), checkpointCounter := 0,
                                       collisionCounter := 0, done := false)
        invariant forall j :: i <= j < agents.Length ==> agents[j] == old(agents[j])
      {
        agents[i] := agents[i].(position := StartCell(startLine, i), checkpointCounter := 0,
                                collisionCounter := 0, done := false);
        i := i + 1;
      }
    }

    /** Every agent's observation, in id order. */
    method ObserveAll() returns (observations: seq<Grid>)
      requires forall c :: c in track ==> InGrid(gridSize, c)
      requires forall i :: 0 <= i < agents.Length ==> InGrid(gridSize, agents[i].position)
      ensures |observations| == agents.Length
      ensures forall i :: 0 <= i < agents.Length ==>
        observations[i] == Observe(gridSize, track, Positions(agents[..]), i)
    {
      observations := [];
      var i := 0;
      while i < agents.Length
        invariant 0 <= i <= agents.Length && |observations| == i
        invariant forall j :: 0 <= j < i ==> observations[j] == Observe(gridSize, track, Positions(agents[..]), j)
      {
        var g := ObservationGrid(i);
        observations := observations + [g];
        i := i + 1;
      }
    }

    /** The collision loop for mover `k`, which stood on `position`: each
     *  other car whose intended cell equals the mover's sends the mover back
     *  to `position` and gives both cars the cooldown. */
    method CollideAll(k: nat, position: Cell, intended: seq<Cell>) returns (next: seq<Cell>)
      requires dones.Some? && |dones.value| == agents.Length && |intended| == agents.Length && k < agents.Length
      modifies agents
      ensures Tick(agents[..], dones.value, next, false)
        == Collide(Tick(old(agents[..]), dones.value, intended, false), k, position, agents.Length)
    {
      ghost var t := Tick(agents[..], dones.value, intended, false);
      next := intended;
      var j := 0;
      while j < agents.Length
        invariant 0 <= j <= agents.Length && |next| == agents.Length
        invariant Tick(agents[..], dones.value, next, false) == Collide(t, k, position, j)
      {
        if k != j && next[k] == next[j] {
          agents[k] := agents[k].(collisionCounter := CollisionCooldown);
          next := next[k := position];
          agents[j] := agents[j].(collisionCounter := CollisionCooldown);
        }
        j := j + 1;
      }
    }

    /** The movement-loop body for agent `k`, up to its collision loop. */
    method MoveAgent(k: nat, actions: map<int, int>, intended: seq<Cell>) returns (next: seq<Cell>)
      requires dones.Some? && |dones.value| == agents.Length && |intended| == agents.Length && k < agents.Length
      requires dones.value[k] || k in actions
      modifies agents
      ensures Tick(agents[..], dones.value, next, false)
        == Move(Layout(), Tick(old(agents[..]), dones.value, intended, false), k, actions)
    {
      next := intended;
      if dones.value[k] {
        return;
      }
      var action := actions[k];
      var car := agents[k];
      var position := car.position;
      if car.collisionCounter > 0 {
        agents[k] := car.(collisionCounter := car.collisionCounter - 1);
      } else {
        var newPos := Target(position, action);
        next := next[k := if newPos in track then newPos else position];
      }
      next := CollideAll(k, position, next);
    }

    /** One pass of the scoring loop: agent `j` takes its intended cell,
     *  collects the reward of its next checkpoint if it stands on it, and
     *  gets a fresh observation; its done flag is copied to the engine's. */
    method ScoreAgent(j: nat, intended: seq<Cell>)
      requires dones.Some? && |dones.value| == agents.Length && |intended| == agents.Length && j < agents.Length
      requires CountersOk(agents[..], |checkpoints|)
      requires forall c :: c in track ==> InGrid(gridSize, c)
      requires CarsOnTrack(agents[..], track) && intended[j] in track
      modifies this, agents
      ensures dones.Some? && rewards == old(rewards)
      ensures Tick(agents[..], dones.value, intended, false)
        == ScoreAt(Layout(), Tick(old(agents[..]), old(dones.value), intended, false), j)
    {
      var car := agents[j].(position := intended[j]);
      if car.position in checkpoints[car.checkpointCounter] {
        car := car.(reward := car.reward + CheckpointReward, checkpointCounter := car.checkpointCounter + 1);
        if car.checkpointCounter >= |checkpoints| {
          car := car.(done := true, checkpointCounter := 0);
        }
      }
      ghost var before := agents[..];
      assert car == ScoreCar(before[j].(position := intended[j]), checkpoints);
      agents[j] := car;
      assert agents[..] == before[j := car];
      assert CarsOnTrack(agents[..], track);
      var g := ObservationGrid(j);
      assert g == Observe(gridSize, track, Positions(before[j := car]), j);
      agents[j] := car.(observation := Some(g));
      assert agents[..] == before[j := car.(observation := Some(g))];
      dones := Some(dones.value[j := car.done]);
    }

    /** The scoring loop: every agent in id order. */
    method ScoreAll(intended: seq<Cell>)
      requires dones.Some? && |dones.value| == agents.Length && |intended| == agents.Length
      requires CountersOk(agents[..], |checkpoints|)
      requires forall c :: c in track ==> InGrid(gridSize, c)
      requires CarsOnTrack(agents[..], track) && forall i :: 0 <= i < |intended| ==> intended[i] in track
      modifies this, agents
      ensures dones.Some? && rewards == old(rewards)
      ensures Tick(agents[..], dones.value, intended, false)
        == Score(Layout(), Tick(old(agents[..]), old(dones.value), intended, false), agents.Length)
    {
      ghost var t := Tick(agents[..], dones.value, intended, false);
      var j := 0;
      while j < agents.Length
        invariant 0 <= j <= agents.Length && dones.Some? && rewards == old(rewards)
        invariant Tick(agents[..], dones.value, intended, false) == Score(Layout(), t, j)
        invariant CarsOnTrack(agents[..], track) && CountersOk(agents[..], |checkpoints|)
      {
        ScoreAtFacts(Layout(), Score(Layout(), t, j), j);
        ScoreAgent(j, intended);
        j := j + 1;
      }
    }

    /** One iteration of the movement loop: agent `k` moves, then every
     *  agent is scored. */
    method RunIteration(k: nat, actions: map<int, int>, intended: seq<Cell>) returns (next: seq<Cell>)
      requires dones.Some? && |dones.value| == agents.Length && |intended| == agents.Length && k < agents.Length
      requires forall c :: c in track ==> InGrid(gridSize, c)
      requires Sound(Layout(), Tick(agents[..], dones.value, intended, false))
      requires !Iteration(Layout(), Tick(agents[..], dones.value, intended, false), k, actions).failed
      modifies this, agents
      ensures dones.Some? && rewards == old(rewards)
      ensures Tick(agents[..], dones.value, next, false)
        == Iteration(Layout(), Tick(old(agents[..]), old(dones.value), intended, false), k, actions)
    {
      ghost var t := Tick(agents[..], dones.value, intended, false);
      IterationFails(Layout(), t, k, actions);
      MoveFrame(Layout(), t, k, actions);
      next := MoveAgent(k, actions, intended);
      assert CountersOk(agents[..], |checkpoints|) by {
        assert OnlyCooldowns(t.cars, agents[..]);
      }
      ScoreAll(next);
    }

    /** The movement loop over all agents. */
    method RunAll(actions: map<int, int>)
      requires dones.Some? && |dones.value| == agents.Length
      requires forall c :: c in track ==> InGrid(gridSize, c)
      requires Sound(Layout(), Start(agents[..], dones.value))
      requires !Outcome(Layout(), agents[..], dones.value, actions).failed
      modifies this, agents
      ensures dones.Some? && rewards == old(rewards)
      ensures agents[..] == Outcome(Layout(), old(agents[..]), old(dones.value), actions).cars
      ensures dones.value == Outcome(Layout(), old(agents[..]), old(dones.value), actions).dones
    {
      ghost var course := Layout();
      ghost var t0 := Start(agents[..], dones.value);
      var n := agents.Length;
      var intended := Positions(agents[..]);
      assert Tick(agents[..], dones.value, intended, false) == Iterate(course, t0, 0, actions);
      var k := 0;
      while k < n
        invariant 0 <= k <= n && dones.Some? && rewards == old(rewards)
        invariant Tick(agents[..], dones.value, intended, false) == Iterate(course, t0, k, actions)
      {
        EarlierRan(course, t0, k + 1, n, actions);
        IterateNext(course, t0, k, actions);
        StepKeeps(course, t0, k, actions);
        intended := RunIteration(k, actions, intended);
        k := k + 1;
      }
      assert Iterate(course, t0, n, actions) == Outcome(Layout(), old(agents[..]), old(dones.value), actions);
    }

    /** The observations and cumulative rewards `step` returns, in id order. */
    method Report() returns (observations: seq<Grid>, cumulativeRewards: seq<int>)
      requires forall i :: 0 <= i < agents.Length ==> agents[i].observation.Some?
      ensures |observations| == agents.Length && forall i :: 0 <= i < agents.Length ==> agents[i].observation == Some(observations[i])
      ensures |cumulativeRewards| == agents.Length && forall i :: 0 <= i < agents.Length ==> cumulativeRewards[i] == agents[i].reward
    {
      observations := [];
      cumulativeRewards := [];
      var i := 0;
      while i < agents.Length
        invariant 0 <= i <= agents.Length && |observations| == i && |cumulativeRewards| == i
        invariant forall j :: 0 <= j < i ==> agents[j].observation == Some(observations[j])
        invariant forall j :: 0 <= j < i ==> cumulativeRewards[j] == agents[j].reward
      {
        observations := observations + [agents[i].observation.value];
        cumulativeRewards := cumulativeRewards + [agents[i].reward];
        i := i + 1;
      }
    }

    /** One step: each agent in id order moves (unless done), then the whole
     *  scoring loop runs. The result is the `Outcome` of the transition
     *  model; rewards are returned cumulatively and done flags as the
     *  engine's own. */
    method Step(actions: map<int, int>) returns (observations: seq<Grid>, cumulativeRewards: seq<int>, doneFlags: seq<bool>)
      requires Valid() && dones.Some?
      requires agents.Length > 0 ==> |checkpoints| > 0
      requires !Outcome(Layout(), agents[..], dones.value, actions).failed
      modifies this, agents
      ensures Valid() && dones.Some? && rewards == old(rewards)
      ensures agents[..] == old(Outcome(Layout(), agents[..], dones.value, actions)).cars
      ensures dones.value == old(Outcome(Layout(), agents[..], dones.value, actions)).dones
      ensures |observations| == agents.Length && forall i :: 0 <= i < agents.Length ==> agents[i].observation == Some(observations[i])
      ensures |cumulativeRewards| == agents.Length && forall i :: 0 <= i < agents.Length ==> cumulativeRewards[i] == agents[i].reward
      ensures doneFlags == dones.value
      ensures forall i :: 0 <= i < agents.Length ==> Progressed(old(agents[..])[i], agents[..][i])
      ensures forall i :: 0 <= i < agents.Length && old(agents[..])[i].done ==>
        agents[..][i].position == old(agents[..])[i].position
      ensures old(Apart(agents[..])) ==> Apart(agents[..])
    {
      ghost var course := Layout();
      ghost var t0 := Start(agents[..], dones.value);
      assert CountersOk(agents[..], |checkpoints|);
      RunAll(actions);
      StepKeeps(course, t0, agents.Length, actions);
      observations, cumulativeRewards := Report();
      doneFlags := dones.value;
    }
  }
}
