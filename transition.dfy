/** The per-tick transition of MultiCarRacing.step, as functions on values.
 *  Each function follows one loop of the source: `Move` is the body of the
 *  movement loop for one agent, `Collide` its collision loop, `Score` the
 *  scoring loop, and `Iterate` the movement loop around them. The scoring
 *  loop sits inside the movement loop, so it runs once per agent per step. */
module Transition {
  import opened Cells
  import opened Agent
  import opened Observation

  /** The static part of the environment that a step reads. */
  datatype Course = Course(gridSize: nat, track: set<Cell>, checkpoints: seq<seq<Cell>>)

  /** The state during a step: the cars, the engine's done flags, the
   *  intended positions, and whether a missing action has aborted the step. */
  datatype Tick = Tick(cars: seq<CarState>, dones: seq<bool>, intended: seq<Cell>, failed: bool)

  /** The reward for reaching a checkpoint. */
  const CheckpointReward := 5

  /** The cooldown given to both parties of a collision. */
  const CollisionCooldown := 2

  predicate Shaped(t: Tick) {
    |t.dones| == |t.cars| && |t.intended| == |t.cars|
  }

  /** The cars' positions in id order. */
  function Positions(cars: seq<CarState>): (ps: seq<Cell>)
    ensures |ps| == |cars| && forall i :: 0 <= i < |cars| ==> ps[i] == cars[i].position
  {
    seq(|cars|, i requires 0 <= i < |cars| => cars[i].position)
  }

  /** Every checkpoint counter indexes a checkpoint group. */
  predicate CountersOk(cars: seq<CarState>, groups: nat) {
    forall i :: 0 <= i < |cars| ==> 0 <= cars[i].checkpointCounter < groups
  }

  /** Every cooldown lies in [0, CollisionCooldown]. */
  predicate CooldownsOk(cars: seq<CarState>) {
    forall i :: 0 <= i < |cars| ==> 0 <= cars[i].collisionCounter <= CollisionCooldown
  }

  /** Every car stands on a track cell. */
  predicate CarsOnTrack(cars: seq<CarState>, track: set<Cell>) {
    forall i :: 0 <= i < |cars| ==> cars[i].position in track
  }

  /** No two cars share a cell. */
  predicate Apart(cars: seq<CarState>) {
    forall i, j :: 0 <= i < |cars| && 0 <= j < |cars| && i != j ==> cars[i].position != cars[j].position
  }

  /** Every intended position is the car's current one. */
  predicate Settled(t: Tick) {
    Shaped(t) && forall i :: 0 <= i < |t.cars| ==> t.intended[i] == t.cars[i].position
  }

  /** The engine's done flags are the cars' own. */
  predicate DonesMatch(cars: seq<CarState>, dones: seq<bool>) {
    |dones| == |cars| && forall i :: 0 <= i < |cars| ==> dones[i] == cars[i].done
  }

  /** Mid-step, the engine's done flags agree with the cars' own. */
  predicate Synced(t: Tick) {
    Shaped(t) && DonesMatch(t.cars, t.dones)
  }

  /** What holds between two iterations of the movement loop. */
  predicate Sound(course: Course, t: Tick) {
    Settled(t) && Synced(t) && !t.failed
    && CountersOk(t.cars, |course.checkpoints|) && CooldownsOk(t.cars) && CarsOnTrack(t.cars, course.track)
  }

  /** `after` differs from `before` in its collision counter at most. */
  predicate SameButCooldown(before: CarState, after: CarState) {
    after.agentId == before.agentId && after.position == before.position
    && after.checkpointCounter == before.checkpointCounter && after.reward == before.reward
    && after.done == before.done && after.observation == before.observation
  }

  /** The cars differ in collision counters at most. */
  predicate OnlyCooldowns(before: seq<CarState>, after: seq<CarState>) {
    |after| == |before| && forall i :: 0 <= i < |before| ==> SameButCooldown(before[i], after[i])
  }

  /** What a step may do to one car: the identifier and the cooldown aside,
   *  reward grows by whole checkpoint rewards and done is never cleared. */
  predicate Progressed(before: CarState, after: CarState) {
    after.agentId == before.agentId
    && after.reward >= before.reward && (after.reward - before.reward) % CheckpointReward == 0
    && (before.done ==> after.done)
  }

  /** The cell one unit step away: 0 left, 1 right, 2 forward (y + 1),
   *  3 back (y - 1); any other action stays. */
  function Target(p: Cell, action: int): Cell {
    if action == 0 then (p.0 - 1, p.1)
    else if action == 1 then (p.0 + 1, p.1)
    else if action == 2 then (p.0, p.1 + 1)
    else if action == 3 then (p.0, p.1 - 1)
    else p
  }

  /** The target if it is on the track, else the current cell. */
  function Wanted(track: set<Cell>, p: Cell, action: int): Cell {
    var target := Target(p, action);
    if target in track then target else p
  }

  /** Both cars get the collision cooldown and car `k` goes back to `p`. */
  function Bumped(t: Tick, k: nat, p: Cell, other: nat): Tick
    requires Shaped(t) && k < |t.cars| && other < |t.cars|
  {
    var cars := t.cars[k := t.cars[k].(collisionCounter := CollisionCooldown)];
    t.(cars := cars[other := cars[other].(collisionCounter := CollisionCooldown)],
       intended := t.intended[k := p])
  }

  /** One test of the collision loop: mover `k` against car `other`. */
  function CollideWith(t: Tick, k: nat, p: Cell, other: nat): Tick
    requires Shaped(t) && k < |t.cars| && other < |t.cars|
  {
    if k != other && t.intended[k] == t.intended[other] then Bumped(t, k, p, other) else t
  }

  /** The collision loop after testing cars 0 .. j - 1. */
  function Collide(t: Tick, k: nat, p: Cell, j: nat): (r: Tick)
    requires Shaped(t) && k < |t.cars| && j <= |t.cars|
    ensures Shaped(r) && |r.cars| == |t.cars| && r.dones == t.dones && r.failed == t.failed
  {
    if j == 0 then t else CollideWith(Collide(t, k, p, j - 1), k, p, j - 1)
  }

  /** The movement-loop body for car `k`, before scoring. */
  function Move(course: Course, t: Tick, k: nat, actions: map<int, int>): (r: Tick)
    requires Shaped(t) && k < |t.cars|
    ensures Shaped(r) && |r.cars| == |t.cars| && r.dones == t.dones
  {
    if t.dones[k] then t
    else if k !in actions then t.(failed := true)
    else
      var car := t.cars[k];
      var p := car.position;
      var t1 :=
        if car.collisionCounter > 0
        then t.(cars := t.cars[k := car.(collisionCounter := car.collisionCounter - 1)])
        else t.(intended := t.intended[k := Wanted(course.track, p, actions[k])]);
      Collide(t1, k, p, |t.cars|)
  }

  /** The checkpoint test for one car at its committed position. A counter
   *  outside the groups would make the source fail on the lookup; the
   *  engine never reaches one (see `StepKeeps`), and the car is then left
   *  as it is. */
  function ScoreCar(car: CarState, checkpoints: seq<seq<Cell>>): (r: CarState)
    ensures 0 <= car.checkpointCounter < |checkpoints| ==> 0 <= r.checkpointCounter < |checkpoints|
    ensures Progressed(car, r)
  {
    if 0 <= car.checkpointCounter < |checkpoints| && car.position in checkpoints[car.checkpointCounter] then
      var next := car.(reward := car.reward + CheckpointReward,
                       checkpointCounter := car.checkpointCounter + 1);
      if next.checkpointCounter >= |checkpoints| then next.(done := true, checkpointCounter := 0)
      else next
    else car
  }

  /** One pass of the scoring loop for car `j`: commit its intended position,
   *  test its checkpoint, refresh its observation, copy its done flag. */
  function ScoreAt(course: Course, t: Tick, j: nat): (r: Tick)
    requires Shaped(t) && j < |t.cars|
    ensures Shaped(r) && |r.cars| == |t.cars|
  {
    var scored := ScoreCar(t.cars[j].(position := t.intended[j]), course.checkpoints);
    var cars := t.cars[j := scored];
    var seen := scored.(observation := Some(Observe(course.gridSize, course.track, Positions(cars), j)));
    t.(cars := t.cars[j := seen], dones := t.dones[j := seen.done])
  }

  /** The scoring loop after cars 0 .. j - 1. */
  function Score(course: Course, t: Tick, j: nat): (r: Tick)
    requires Shaped(t) && j <= |t.cars|
    ensures Shaped(r) && |r.cars| == |t.cars|
  {
    if j == 0 then t else ScoreAt(course, Score(course, t, j - 1), j - 1)
  }

  /** One iteration of the movement loop: move car `k`, then, unless its
   *  action was missing, run the whole scoring loop. */
  function Iteration(course: Course, t: Tick, k: nat, actions: map<int, int>): (r: Tick)
    requires Shaped(t) && k < |t.cars|
    ensures Shaped(r) && |r.cars| == |t.cars|
  {
    var m := Move(course, t, k, actions);
    if m.failed then m else Score(course, m, |t.cars|)
  }

  /** The movement loop after cars 0 .. k - 1; a missing action stops it. */
  function Iterate(course: Course, t: Tick, k: nat, actions: map<int, int>): (r: Tick)
    requires Shaped(t) && k <= |t.cars|
    ensures Shaped(r) && |r.cars| == |t.cars|
  {
    if k == 0 then t
    else
      var prev := Iterate(course, t, k - 1, actions);
      if prev.failed then prev else Iteration(course, prev, k - 1, actions)
  }

  /** The state at the start of a step: every intended position is the
   *  car's current one. */
  function Start(cars: seq<CarState>, dones: seq<bool>): Tick {
    Tick(cars, dones, Positions(cars), false)
  }

  /** The whole step. */
  function Outcome(course: Course, cars: seq<CarState>, dones: seq<bool>, actions: map<int, int>): Tick
    requires |dones| == |cars|
  {
    Iterate(course, Start(cars, dones), |cars|, actions)
  }

  // ---------------------------------------------------------------------
  // The collision loop

  /** A mover that meets no car among 0 .. j - 1 changes nothing. */
  lemma {:induction false} CollideQuiet(t: Tick, k: nat, p: Cell, j: nat)
    requires Shaped(t) && k < |t.cars| && j <= |t.cars|
    requires forall i :: 0 <= i < j && i != k ==> t.intended[k] != t.intended[i]
    ensures Collide(t, k, p, j) == t
  {
    if j > 0 {
      CollideQuiet(t, k, p, j - 1);
    }
  }

  /** A mover whose first clash is with car `o` is bumped once, and once back
   *  at `p` it clashes with nobody else. */
  lemma {:induction false} CollideHit(t: Tick, k: nat, p: Cell, o: nat, j: nat)
    requires Shaped(t) && k < |t.cars| && o < |t.cars| && o != k && o < j <= |t.cars|
    requires t.intended[k] == t.intended[o]
    requires forall i :: 0 <= i < o && i != k ==> t.intended[k] != t.intended[i]
    requires forall i :: 0 <= i < |t.cars| && i != k ==> t.intended[i] != p
    ensures Collide(t, k, p, j) == Bumped(t, k, p, o)
  {
    if j == o + 1 {
      CollideQuiet(t, k, p, o);
    } else {
      CollideHit(t, k, p, o, j - 1);
    }
  }

  /** What the collision loop may do, `t` before and `r` after: send the
   *  mover `k` back to `p` and set cooldowns to CollisionCooldown. */
  predicate Framed(t: Tick, r: Tick, k: nat, p: Cell)
    requires Shaped(t) && Shaped(r) && |r.cars| == |t.cars| && k < |t.cars|
  {
    OnlyCooldowns(t.cars, r.cars)
    && (forall i :: 0 <= i < |t.cars| && i != k ==> r.intended[i] == t.intended[i])
    && (r.intended[k] == t.intended[k] || r.intended[k] == p)
    && forall i :: 0 <= i < |t.cars| ==>
         r.cars[i].collisionCounter == t.cars[i].collisionCounter || r.cars[i].collisionCounter == CollisionCooldown
  }

  /** One more collision test keeps to the frame. */
  lemma CollideWithFrame(t: Tick, prev: Tick, k: nat, p: Cell, other: nat)
    requires Shaped(t) && Shaped(prev) && |prev.cars| == |t.cars| && k < |t.cars| && other < |t.cars|
    requires Framed(t, prev, k, p)
    ensures Framed(t, CollideWith(prev, k, p, other), k, p)
  {
  }

  /** Whatever the positions, the collision loop keeps to the frame. */
  lemma {:induction false} CollideFrame(t: Tick, k: nat, p: Cell, j: nat)
    requires Shaped(t) && k < |t.cars| && j <= |t.cars|
    ensures Framed(t, Collide(t, k, p, j), k, p)
  {
    if j > 0 {
      CollideFrame(t, k, p, j - 1);
      CollideWithFrame(t, Collide(t, k, p, j - 1), k, p, j - 1);
    }
  }

  // ---------------------------------------------------------------------
  // One car's move

  /** The rules of a move when every car is on its own cell: a done car
   *  does nothing; a missing action aborts; a cooling car loses one tick of
   *  cooldown and stays; otherwise the car heads for its wanted cell (the
   *  target, or its own cell when the target is off the track), and if a
   *  car occupies it, stays where it is and both cars get the cooldown. */
  lemma MoveRules(course: Course, t: Tick, k: nat, actions: map<int, int>)
    requires Settled(t) && Apart(t.cars) && k < |t.cars|
    ensures t.dones[k] ==> Move(course, t, k, actions) == t
    ensures !t.dones[k] && k !in actions ==> Move(course, t, k, actions) == t.(failed := true)
    ensures !t.dones[k] && k in actions && t.cars[k].collisionCounter > 0 ==>
      Move(course, t, k, actions)
        == t.(cars := t.cars[k := t.cars[k].(collisionCounter := t.cars[k].collisionCounter - 1)])
    ensures (!t.dones[k] && k in actions && t.cars[k].collisionCounter <= 0
             && forall o :: 0 <= o < |t.cars| && o != k ==>
                  t.cars[o].position != Wanted(course.track, t.cars[k].position, actions[k]))
      ==> Move(course, t, k, actions)
            == t.(intended := t.intended[k := Wanted(course.track, t.cars[k].position, actions[k])])
    ensures forall o ::
      (0 <= o < |t.cars| && o != k && !t.dones[k] && k in actions && t.cars[k].collisionCounter <= 0
       && t.cars[o].position == Wanted(course.track, t.cars[k].position, actions[k]))
      ==>
      Move(course, t, k, actions)
      == t.(cars := t.cars[k := t.cars[k].(collisionCounter := CollisionCooldown)]
                          [o := t.cars[o].(collisionCounter := CollisionCooldown)])
  {
    var car := t.cars[k];
    var p := car.position;
    var n := |t.cars|;
    if !t.dones[k] && k in actions {
      if car.collisionCounter > 0 {
        var t1 := t.(cars := t.cars[k := car.(collisionCounter := car.collisionCounter - 1)]);
        CollideQuiet(t1, k, p, n);
      } else {
        var want := Wanted(course.track, p, actions[k]);
        var t1 := t.(intended := t.intended[k := want]);
        if exists o :: 0 <= o < n && o != k && t.cars[o].position == want {
          var o :| 0 <= o < n && o != k && t.cars[o].position == want;
          CollideHit(t1, k, p, o, n);
          assert t.intended[k := want][k := p] == t.intended;
        } else {
          CollideQuiet(t1, k, p, n);
        }
      }
    }
  }

  /** A move keeps the intended positions of the other cars, puts the mover's
   *  on the track, changes cars in cooldowns only, and keeps them in range. */
  lemma MoveFrame(course: Course, t: Tick, k: nat, actions: map<int, int>)
    requires Sound(course, t) && k < |t.cars|
    ensures var m := Move(course, t, k, actions);
      m.failed == (!t.dones[k] && k !in actions)
      && (t.dones[k] ==> m == t)
      && (forall i :: 0 <= i < |t.cars| && i != k ==> m.intended[i] == t.cars[i].position)
      && m.intended[k] in course.track
      && OnlyCooldowns(t.cars, m.cars) && CooldownsOk(m.cars)
  {
    var car := t.cars[k];
    var p := car.position;
    if !t.dones[k] && k in actions {
      var t1 :=
        if car.collisionCounter > 0
        then t.(cars := t.cars[k := car.(collisionCounter := car.collisionCounter - 1)])
        else t.(intended := t.intended[k := Wanted(course.track, p, actions[k])]);
      CollideFrame(t1, k, p, |t.cars|);
    }
  }

  /** On pairwise distinct cells, a move leaves the intended positions
   *  pairwise distinct. */
  lemma MoveSeparates(course: Course, t: Tick, k: nat, actions: map<int, int>)
    requires Settled(t) && Apart(t.cars) && k < |t.cars|
    ensures var m := Move(course, t, k, actions);
      forall i, j :: 0 <= i < |t.cars| && 0 <= j < |t.cars| && i != j ==> m.intended[i] != m.intended[j]
  {
    MoveRules(course, t, k, actions);
  }

  // ---------------------------------------------------------------------
  // The scoring loop

  lemma ProgressedTrans(a: CarState, b: CarState, c: CarState)
    requires Progressed(a, b) && Progressed(b, c)
    ensures Progressed(a, c)
  {
    var x := (b.reward - a.reward) / CheckpointReward;
    var y := (c.reward - b.reward) / CheckpointReward;
    assert c.reward - a.reward == CheckpointReward * (x + y);
  }

  /** What one pass of the scoring loop for car `j` did, `t` before and `r`
   *  after: car `j` was scored at its intended position and saw the grid of
   *  the cars as they stood at that moment; nothing else changed. */
  predicate ScoredOne(course: Course, t: Tick, r: Tick, j: nat)
    requires Shaped(t) && Shaped(r) && |r.cars| == |t.cars| && j < |t.cars|
  {
    var scored := ScoreCar(t.cars[j].(position := t.intended[j]), course.checkpoints);
    r.intended == t.intended && r.failed == t.failed
    && r.cars[j] == scored.(observation := r.cars[j].observation)
    && r.cars[j].observation
       == Some(Observe(course.gridSize, course.track, Positions(t.cars[j := scored]), j))
    && r.cars[j].position == t.intended[j] && r.dones[j] == r.cars[j].done
    && Progressed(t.cars[j], r.cars[j]) && r.cars[j].collisionCounter == t.cars[j].collisionCounter
    && (forall i :: 0 <= i < |t.cars| && i != j ==> r.cars[i] == t.cars[i] && r.dones[i] == t.dones[i])
  }

  /** Car `i` of `r` is car `i` of `t` scored at its intended position,
   *  with a fresh observation and its done flag copied. */
  predicate ScoredCar(course: Course, t: Tick, r: Tick, i: nat)
    requires Shaped(t) && Shaped(r) && |r.cars| == |t.cars| && i < |t.cars|
  {
    r.cars[i] == ScoreCar(t.cars[i].(position := t.intended[i]), course.checkpoints)
                   .(observation := r.cars[i].observation)
    && r.cars[i].position == t.intended[i] && r.dones[i] == r.cars[i].done
    && r.cars[i].observation.Some?
  }

  /** Car `i` and its done flag are as they were. */
  predicate Untouched(t: Tick, r: Tick, i: nat)
    requires Shaped(t) && Shaped(r) && |r.cars| == |t.cars| && i < |t.cars|
  {
    r.cars[i] == t.cars[i] && r.dones[i] == t.dones[i]
  }

  /** Car `i` progressed and kept its cooldown. */
  predicate KeptCooldown(t: Tick, r: Tick, i: nat)
    requires |r.cars| == |t.cars| && i < |t.cars|
  {
    Progressed(t.cars[i], r.cars[i]) && r.cars[i].collisionCounter == t.cars[i].collisionCounter
  }

  /** What the scoring loop did after cars 0 .. j - 1, `t` before and `r` after. */
  predicate ScoredPrefix(course: Course, t: Tick, r: Tick, j: nat)
    requires Shaped(t) && Shaped(r) && |r.cars| == |t.cars| && j <= |t.cars|
  {
    r.intended == t.intended && r.failed == t.failed
    && (forall i :: 0 <= i < j ==> ScoredCar(course, t, r, i))
    && (forall i :: j <= i < |t.cars| ==> Untouched(t, r, i))
    && (forall i :: 0 <= i < |t.cars| ==> KeptCooldown(t, r, i))
  }

  /** One pass of the scoring loop changes car `j` alone. */
  lemma ScoreAtFacts(course: Course, t: Tick, j: nat)
    requires Shaped(t) && j < |t.cars|
    ensures ScoredOne(course, t, ScoreAt(course, t, j), j)
  {
  }

  /** One more pass of the scoring loop extends the prefix by car `j - 1`. */
  lemma ScoredExtend(course: Course, t: Tick, prev: Tick, j: nat)
    requires Shaped(t) && Shaped(prev) && |prev.cars| == |t.cars| && 0 < j <= |t.cars|
    requires ScoredPrefix(course, t, prev, j - 1)
    ensures ScoredPrefix(course, t, ScoreAt(course, prev, j - 1), j)
  {
    ScoreAtFacts(course, prev, j - 1);
    var r := ScoreAt(course, prev, j - 1);
    forall i | 0 <= i < |t.cars|
      ensures i < j ==> ScoredCar(course, t, r, i)
      ensures j <= i ==> Untouched(t, r, i)
      ensures KeptCooldown(t, r, i)
    {
      if i == j - 1 {
        assert Untouched(t, prev, i);
        ProgressedTrans(t.cars[i], prev.cars[i], r.cars[i]);
      } else {
        assert Untouched(prev, r, i);
        assert KeptCooldown(t, prev, i);
        if i < j - 1 {
          assert ScoredCar(course, t, prev, i);
        } else {
          assert Untouched(t, prev, i);
        }
      }
    }
  }

  /** The scoring loop after cars 0 .. j - 1 has committed their intended
   *  positions, refreshed their observations and copied their done flags;
   *  it has touched no later car and changed no cooldown. */
  lemma {:induction false} ScoreFacts(course: Course, t: Tick, j: nat)
    requires Shaped(t) && j <= |t.cars|
    ensures ScoredPrefix(course, t, Score(course, t, j), j)
  {
    if j > 0 {
      ScoreFacts(course, t, j - 1);
      ScoredExtend(course, t, Score(course, t, j - 1), j);
    }
  }

  /** The whole scoring loop: every car scored at its intended position,
   *  with a fresh observation, its done flag copied and its cooldown kept. */
  lemma ScoreLoopFacts(course: Course, t: Tick)
    requires Shaped(t)
    ensures var r := Score(course, t, |t.cars|);
      r.intended == t.intended && r.failed == t.failed
      && forall i :: 0 <= i < |t.cars| ==>
           r.cars[i] == ScoreCar(t.cars[i].(position := t.intended[i]), course.checkpoints)
                          .(observation := r.cars[i].observation)
           && r.cars[i].position == t.intended[i] && r.dones[i] == r.cars[i].done
           && r.cars[i].observation.Some?
           && Progressed(t.cars[i], r.cars[i]) && r.cars[i].collisionCounter == t.cars[i].collisionCounter
  {
    ScoreFacts(course, t, |t.cars|);
    var r := Score(course, t, |t.cars|);
    forall i | 0 <= i < |t.cars|
      ensures r.cars[i] == ScoreCar(t.cars[i].(position := t.intended[i]), course.checkpoints)
                             .(observation := r.cars[i].observation)
      ensures r.cars[i].position == t.intended[i] && r.dones[i] == r.cars[i].done
      ensures r.cars[i].observation.Some?
      ensures Progressed(t.cars[i], r.cars[i]) && r.cars[i].collisionCounter == t.cars[i].collisionCounter
    {
      assert ScoredCar(course, t, r, i) && KeptCooldown(t, r, i);
    }
  }

  /** Later passes of the scoring loop leave car `j` as pass `j` left it. */
  lemma {:induction false} ScoreSettles(course: Course, t: Tick, j: nat, m: nat)
    requires Shaped(t) && j < m <= |t.cars|
    ensures Score(course, t, m).cars[j] == Score(course, t, j + 1).cars[j]
  {
    if m > j + 1 {
      ScoreSettles(course, t, j, m - 1);
      var prev := Score(course, t, m - 1);
      ScoreAtOthers(course, prev, m - 1, j);
      assert Score(course, t, m) == ScoreAt(course, prev, m - 1);
    } else {
      assert m == j + 1;
    }
  }

  /** Pass `j` of the scoring loop leaves every other car as it was. */
  lemma ScoreAtOthers(course: Course, t: Tick, j: nat, i: nat)
    requires Shaped(t) && j < |t.cars| && i < |t.cars| && i != j
    ensures ScoreAt(course, t, j).cars[i] == t.cars[i]
  {
  }

  /** The cells car `j` sees in the scoring loop: cars up to `j` at their
   *  intended (now committed) cells, later cars where they stood before. */
  function Seen(t: Tick, j: nat): (ps: seq<Cell>)
    requires Shaped(t)
    ensures |ps| == |t.cars|
  {
    seq(|t.cars|, i requires 0 <= i < |t.cars| => if i <= j then t.intended[i] else t.cars[i].position)
  }

  /** After the scoring loop, car `j` holds the grid of the cars as they
   *  stood when its own pass ran: earlier cars already committed, later
   *  ones not yet. */
  lemma ScoringView(course: Course, t: Tick, j: nat)
    requires Shaped(t) && j < |t.cars|
    ensures Score(course, t, |t.cars|).cars[j].observation
            == Some(Observe(course.gridSize, course.track, Seen(t, j), j))
  {
    ScoreFacts(course, t, j);
    var prev := Score(course, t, j);
    ScoreAtFacts(course, prev, j);
    var scored := ScoreCar(prev.cars[j].(position := prev.intended[j]), course.checkpoints);
    var ps := Positions(prev.cars[j := scored]);
    forall i | 0 <= i < |t.cars|
      ensures ps[i] == Seen(t, j)[i]
    {
      if i < j {
        assert ScoredCar(course, t, prev, i);
      } else {
        assert Untouched(t, prev, i);
      }
    }
    assert ps == Seen(t, j);
    ScoreSettles(course, t, j, |t.cars|);
  }

  // ---------------------------------------------------------------------
  // The whole step

  /** How a stretch of the step relates the cars before (`t`) and after
   *  (`r`): each car progressed, and a car that was done has not moved. */
  predicate Advanced(t: Tick, r: Tick) {
    |r.cars| == |t.cars|
    && forall i :: 0 <= i < |t.cars| ==>
         Progressed(t.cars[i], r.cars[i]) && (t.cars[i].done ==> r.cars[i].position == t.cars[i].position)
  }

  lemma AdvancedTrans(a: Tick, b: Tick, c: Tick)
    requires Advanced(a, b) && Advanced(b, c)
    ensures Advanced(a, c)
  {
    forall i | 0 <= i < |a.cars|
      ensures Progressed(a.cars[i], c.cars[i])
    {
      ProgressedTrans(a.cars[i], b.cars[i], c.cars[i]);
    }
  }

  /** What a stretch of the step keeps, `t` before and `r` after; `ran`
   *  says whether a scoring loop has run, refreshing every observation. */
  predicate Keeps(course: Course, t: Tick, r: Tick, ran: bool) {
    Sound(course, r) && Advanced(t, r) && (Apart(t.cars) ==> Apart(r.cars))
    && (ran ==> forall i :: 0 <= i < |r.cars| ==> r.cars[i].observation.Some?)
  }

  lemma KeepsTrans(course: Course, a: Tick, b: Tick, c: Tick, ran: bool)
    requires Keeps(course, a, b, ran) && Keeps(course, b, c, true)
    ensures Keeps(course, a, c, true)
  {
    AdvancedTrans(a, b, c);
  }

  /** One iteration of the movement loop keeps every car on the track and
   *  every counter in range, keeps cars apart if they were, lets no car
   *  lose reward or its done flag, and leaves done cars where they are. */
  lemma IterationKeeps(course: Course, t: Tick, k: nat, actions: map<int, int>)
    requires Sound(course, t) && k < |t.cars|
    requires !Iteration(course, t, k, actions).failed
    ensures Keeps(course, t, Iteration(course, t, k, actions), true)
  {
    var r := Iteration(course, t, k, actions);
    forall i | 0 <= i < |t.cars|
      ensures r.intended[i] == r.cars[i].position && r.dones[i] == r.cars[i].done
      ensures 0 <= r.cars[i].checkpointCounter < |course.checkpoints|
      ensures 0 <= r.cars[i].collisionCounter <= CollisionCooldown
      ensures r.cars[i].position in course.track && r.cars[i].observation.Some?
      ensures Progressed(t.cars[i], r.cars[i])
      ensures t.cars[i].done ==> r.cars[i].position == t.cars[i].position
    {
      IterationCar(course, t, k, actions, i);
    }
    if Apart(t.cars) {
      IterationApart(course, t, k, actions);
    }
  }

  /** Cars on distinct cells stay on distinct cells through an iteration. */
  lemma IterationApart(course: Course, t: Tick, k: nat, actions: map<int, int>)
    requires Sound(course, t) && Apart(t.cars) && k < |t.cars|
    requires !Iteration(course, t, k, actions).failed
    ensures Apart(Iteration(course, t, k, actions).cars)
  {
    var m := Move(course, t, k, actions);
    MoveSeparates(course, t, k, actions);
    MoveFrame(course, t, k, actions);
    ScoreLoopFacts(course, m);
  }

  /** What one iteration of the movement loop does to car `i`. */
  lemma IterationCar(course: Course, t: Tick, k: nat, actions: map<int, int>, i: nat)
    requires Sound(course, t) && k < |t.cars| && i < |t.cars|
    requires !Iteration(course, t, k, actions).failed
    ensures var r := Iteration(course, t, k, actions);
      r.intended[i] == r.cars[i].position && r.dones[i] == r.cars[i].done
      && 0 <= r.cars[i].checkpointCounter < |course.checkpoints|
      && 0 <= r.cars[i].collisionCounter <= CollisionCooldown
      && r.cars[i].position in course.track && r.cars[i].observation.Some?
      && Progressed(t.cars[i], r.cars[i])
      && (t.cars[i].done ==> r.cars[i].position == t.cars[i].position)
  {
    var m := Move(course, t, k, actions);
    MoveFrame(course, t, k, actions);
    ScoreLoopFacts(course, m);
    var r := Score(course, m, |t.cars|);
    assert SameButCooldown(t.cars[i], m.cars[i]);
    ProgressedTrans(t.cars[i], m.cars[i], r.cars[i]);
  }

  /** An iteration aborts exactly when its car is not done and has no action. */
  lemma IterationFails(course: Course, t: Tick, k: nat, actions: map<int, int>)
    requires Shaped(t) && !t.failed && k < |t.cars|
    ensures Iteration(course, t, k, actions).failed == (!t.dones[k] && k !in actions)
  {
    var m := Move(course, t, k, actions);
    if !m.failed {
      ScoreLoopFacts(course, m);
    }
  }

  lemma StepKeepsNext(course: Course, t: Tick, k: nat, actions: map<int, int>)
    requires Sound(course, t) && 0 < k <= |t.cars|
    requires Keeps(course, t, Iterate(course, t, k - 1, actions), k - 1 > 0)
    requires !Iterate(course, t, k, actions).failed
    ensures Keeps(course, t, Iterate(course, t, k, actions), true)
  {
    var prev := Iterate(course, t, k - 1, actions);
    var r := Iteration(course, prev, k - 1, actions);
    assert Iterate(course, t, k, actions) == r;
    assert !r.failed;
    assert Sound(course, prev);
    IterationKeeps(course, prev, k - 1, actions);
    KeepsTrans(course, t, prev, r, k - 1 > 0);
  }

  lemma StepKeepsNone(course: Course, t: Tick, actions: map<int, int>)
    requires Sound(course, t)
    ensures Keeps(course, t, Iterate(course, t, 0, actions), false)
  {
    forall i | 0 <= i < |t.cars|
      ensures Progressed(t.cars[i], t.cars[i])
    {
    }
  }

  /** The movement loop after cars 0 .. k - 1 keeps what IterationKeeps
   *  keeps; once it has run at all, every car holds an observation. */
  lemma {:induction false} StepKeeps(course: Course, t: Tick, k: nat, actions: map<int, int>)
    requires Sound(course, t) && k <= |t.cars|
    requires !Iterate(course, t, k, actions).failed
    ensures Keeps(course, t, Iterate(course, t, k, actions), k > 0)
  {
    if k > 0 {
      StepKeeps(course, t, k - 1, actions);
      StepKeepsNext(course, t, k, actions);
    } else {
      StepKeepsNone(course, t, actions);
    }
  }

  /** A step that got through cars 0 .. m - 1 got through every shorter
   *  prefix: once an action is missing, the movement loop stops for good. */
  lemma {:induction false} EarlierRan(course: Course, t: Tick, k: nat, m: nat, actions: map<int, int>)
    requires Shaped(t) && k <= m <= |t.cars|
    requires !Iterate(course, t, m, actions).failed
    ensures !Iterate(course, t, k, actions).failed
  {
    if k < m {
      assert !Iterate(course, t, m - 1, actions).failed;
      EarlierRan(course, t, k, m - 1, actions);
    }
  }

  /** When the step gets through car `k`, the prefix through car k is the
   *  prefix before it followed by iteration k, and neither fails. */
  lemma IterateNext(course: Course, t: Tick, k: nat, actions: map<int, int>)
    requires Shaped(t) && k < |t.cars|
    requires !Iterate(course, t, k + 1, actions).failed
    ensures !Iterate(course, t, k, actions).failed
    ensures !Iteration(course, Iterate(course, t, k, actions), k, actions).failed
    ensures Iterate(course, t, k + 1, actions) == Iteration(course, Iterate(course, t, k, actions), k, actions)
  {
  }

  /** Every car not done holds an action. */
  predicate ActionsCover(cars: seq<CarState>, actions: map<int, int>) {
    forall i :: 0 <= i < |cars| && !cars[i].done ==> i in actions
  }

  /** A car done at the start of a step is still flagged done at its turn. */
  lemma StillDone(course: Course, t: Tick, k: nat, actions: map<int, int>)
    requires Sound(course, t) && k < |t.cars|
    requires !Iterate(course, t, k, actions).failed
    ensures t.cars[k].done ==> Iterate(course, t, k, actions).dones[k]
  {
    StepKeeps(course, t, k, actions);
    var r := Iterate(course, t, k, actions);
    assert Progressed(t.cars[k], r.cars[k]) && Synced(r);
  }

  /** At its turn, car `k` gets through its iteration if it is done or
   *  holds an action. */
  lemma ActionsSufficeNext(course: Course, t: Tick, k: nat, actions: map<int, int>)
    requires Shaped(t) && k < |t.cars| && ActionsCover(t.cars, actions)
    requires !Iterate(course, t, k, actions).failed
    requires t.cars[k].done ==> Iterate(course, t, k, actions).dones[k]
    ensures !Iterate(course, t, k + 1, actions).failed
  {
    IterationFails(course, Iterate(course, t, k, actions), k, actions);
  }

  /** An action for every car not done when the step starts is enough. */
  lemma {:induction false} ActionsSuffice(course: Course, t: Tick, k: nat, actions: map<int, int>)
    requires Sound(course, t) && k <= |t.cars| && ActionsCover(t.cars, actions)
    ensures !Iterate(course, t, k, actions).failed
  {
    if k > 0 {
      ActionsSuffice(course, t, k - 1, actions);
      StillDone(course, t, k - 1, actions);
      ActionsSufficeNext(course, t, k - 1, actions);
    }
  }

  // ---------------------------------------------------------------------
  // Two-car consequences of the loop order

  /** The first iteration when car 0 heads for a cell `want` that car 1
   *  does not hold: both cars are then scored where they stand. */
  lemma FirstIteration(course: Course, t: Tick, actions: map<int, int>, want: Cell)
    requires |t.cars| == 2 && Sound(course, t) && Apart(t.cars)
    requires !t.cars[0].done && 0 in actions && t.cars[0].collisionCounter == 0
    requires Wanted(course.track, t.cars[0].position, actions[0]) == want && want != t.cars[1].position
    ensures var p := Iterate(course, t, 1, actions);
      Sound(course, p) && Apart(p.cars)
      && p.cars[0].position == want && p.cars[1].position == t.cars[1].position
      && p.cars[0].collisionCounter == 0 && p.cars[1].collisionCounter == t.cars[1].collisionCounter
      && p.cars[0] == ScoreCar(t.cars[0].(position := want), course.checkpoints)
                        .(observation := p.cars[0].observation)
      && p.cars[1] == ScoreCar(t.cars[1], course.checkpoints).(observation := p.cars[1].observation)
  {
    MoveRules(course, t, 0, actions);
    var m0 := Move(course, t, 0, actions);
    assert m0 == t.(intended := t.intended[0 := want]);
    ScoreLoopFacts(course, m0);
    assert Iterate(course, t, 1, actions) == Score(course, m0, 2);
    IterationKeeps(course, t, 0, actions);
    assert t.cars[1].(position := m0.intended[1]) == t.cars[1];
  }

  /** A car that cannot reach the last checkpoint in one pass is not done
   *  after it. */
  lemma NotFinished(car: CarState, checkpoints: seq<seq<Cell>>)
    requires 0 <= car.checkpointCounter && car.checkpointCounter + 1 < |checkpoints|
    ensures ScoreCar(car, checkpoints).done == car.done
  {
  }

  /** A car whose cell the mover does not want is left as it was. */
  lemma Bystander(course: Course, t: Tick, k: nat, actions: map<int, int>, o: nat)
    requires Sound(course, t) && Apart(t.cars) && k < |t.cars| && o < |t.cars| && o != k
    requires k in actions && Wanted(course.track, t.cars[k].position, actions[k]) != t.cars[o].position
    ensures var m := Move(course, t, k, actions);
      m.cars[o] == t.cars[o] && m.intended[o] == t.cars[o].position && !m.failed
  {
    MoveRules(course, t, k, actions);
    MoveFrame(course, t, k, actions);
  }

  /** Collisions are decided by id order: when both cars want the same cell
   *  and car 1 is not standing on it, car 0 moves first and takes it, and
   *  car 1, moving second, bounces and stays; both get the cooldown. */
  lemma FirstMoverWins(course: Course, t: Tick, actions: map<int, int>)
    requires |t.cars| == 2 && Sound(course, t) && Apart(t.cars)
    requires !t.cars[0].done && !t.cars[1].done && 0 in actions && 1 in actions
    requires t.cars[0].collisionCounter == 0 && t.cars[1].collisionCounter == 0
    requires t.cars[1].checkpointCounter + 1 < |course.checkpoints|
    requires Wanted(course.track, t.cars[0].position, actions[0])
             == Wanted(course.track, t.cars[1].position, actions[1]) != t.cars[1].position
    ensures var r := Iterate(course, t, 2, actions);
      r.cars[0].position == Wanted(course.track, t.cars[0].position, actions[0])
      && r.cars[1].position == t.cars[1].position
      && r.cars[0].collisionCounter == CollisionCooldown && r.cars[1].collisionCounter == CollisionCooldown
  {
    var want := Wanted(course.track, t.cars[0].position, actions[0]);
    FirstIteration(course, t, actions, want);
    NotFinished(t.cars[1], course.checkpoints);
    var p := Iterate(course, t, 1, actions);
    MoveRules(course, p, 1, actions);
    var m1 := Move(course, p, 1, actions);
    assert m1 == p.(cars := p.cars[1 := p.cars[1].(collisionCounter := CollisionCooldown)]
                                  [0 := p.cars[0].(collisionCounter := CollisionCooldown)]);
    ScoreLoopFacts(course, m1);
    assert Iterate(course, t, 2, actions) == Score(course, m1, 2);
  }

  /** The scoring loop runs once per car in a step, so a car standing on a
   *  cell that two consecutive checkpoint groups share passes both in a
   *  two-car step, earning two checkpoint rewards. */
  lemma RepeatedScoring(course: Course, t: Tick, actions: map<int, int>)
    requires |t.cars| == 2 && Sound(course, t) && Apart(t.cars)
    requires !t.cars[0].done && 0 in actions && t.cars[0].collisionCounter == 0
    requires Wanted(course.track, t.cars[0].position, actions[0]) == t.cars[0].position
    requires t.cars[0].checkpointCounter + 2 < |course.checkpoints|
    requires t.cars[0].position in course.checkpoints[t.cars[0].checkpointCounter]
    requires t.cars[0].position in course.checkpoints[t.cars[0].checkpointCounter + 1]
    requires 1 in actions && Wanted(course.track, t.cars[1].position, actions[1]) != t.cars[0].position
    ensures var r := Iterate(course, t, 2, actions);
      r.cars[0].position == t.cars[0].position
      && r.cars[0].checkpointCounter == t.cars[0].checkpointCounter + 2
      && r.cars[0].reward == t.cars[0].reward + 2 * CheckpointReward
  {
    var c := t.cars[0].position;
    FirstIteration(course, t, actions, c);
    var p := Iterate(course, t, 1, actions);
    assert p.cars[0].checkpointCounter == t.cars[0].checkpointCounter + 1;
    Bystander(course, p, 1, actions, 0);
    var m1 := Move(course, p, 1, actions);
    ScoreLoopFacts(course, m1);
    assert Iterate(course, t, 2, actions) == Score(course, m1, 2);
  }

  /** A second iteration in which car 1 moves to a free cell leaves car 0
   *  the grid it saw before car 1 moved. */
  lemma SecondMoveUnseen(course: Course, p: Tick, actions: map<int, int>)
    requires |p.cars| == 2 && Sound(course, p) && Apart(p.cars)
    requires !p.cars[1].done && 1 in actions && p.cars[1].collisionCounter == 0
    requires Wanted(course.track, p.cars[1].position, actions[1]) !in {p.cars[0].position, p.cars[1].position}
    ensures var r := Iteration(course, p, 1, actions);
      r.cars[1].position == Wanted(course.track, p.cars[1].position, actions[1])
      && r.cars[0].position == p.cars[0].position
      && r.cars[0].observation
         == Some(Observe(course.gridSize, course.track, [p.cars[0].position, p.cars[1].position], 0))
  {
    var new1 := Wanted(course.track, p.cars[1].position, actions[1]);
    MoveRules(course, p, 1, actions);
    var m1 := Move(course, p, 1, actions);
    assert m1 == p.(intended := p.intended[1 := new1]);
    ScoreLoopFacts(course, m1);
    ScoringView(course, m1, 0);
    assert Seen(m1, 0) == [p.cars[0].position, p.cars[1].position];
  }

  /** Observations are refreshed inside the scoring loop, before a later car
   *  commits its move: when car 1 moves to a free cell in the second
   *  iteration, the grid left for car 0 still shows car 1 on its old cell
   *  (as a teammate, code 2) and its new cell as bare track. */
  lemma StaleObservation(course: Course, t: Tick, actions: map<int, int>)
    requires |t.cars| == 2 && Sound(course, t) && Apart(t.cars)
    requires !t.cars[0].done && !t.cars[1].done && 0 in actions && 1 in actions
    requires t.cars[0].collisionCounter == 0 && t.cars[1].collisionCounter == 0
    requires t.cars[1].checkpointCounter + 1 < |course.checkpoints|
    requires Wanted(course.track, t.cars[0].position, actions[0]) != t.cars[1].position
    requires Wanted(course.track, t.cars[1].position, actions[1])
             !in {t.cars[1].position, Wanted(course.track, t.cars[0].position, actions[0])}
    ensures var r := Iterate(course, t, 2, actions);
      var old1 := t.cars[1].position;
      var new1 := Wanted(course.track, old1, actions[1]);
      r.cars[1].position == new1 && r.cars[0].observation.Some?
      && r.cars[0].observation.value == Observe(course.gridSize, course.track, [r.cars[0].position, old1], 0)
      && CellCode(course.track, [r.cars[0].position, old1], 0, old1) == 2
      && CellCode(course.track, [r.cars[0].position, old1], 0, new1) == 1
  {
    var want := Wanted(course.track, t.cars[0].position, actions[0]);
    var old1 := t.cars[1].position;
    var new1 := Wanted(course.track, old1, actions[1]);
    FirstIteration(course, t, actions, want);
    NotFinished(t.cars[1], course.checkpoints);
    var p := Iterate(course, t, 1, actions);
    SecondMoveUnseen(course, p, actions);
    assert Iterate(course, t, 2, actions) == Iteration(course, p, 1, actions);
    UnoccupiedCell(course.track, [want, old1], 0, new1);
    LastWriterWins(course.track, [want, old1], 0, old1, 1);
  }
}
