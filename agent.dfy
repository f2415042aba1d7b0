/** The per-car record of agent.py. */
module Agent {
  import opened Cells

  /** The value of a car's fields. `agentId` is a Cell because the only
   *  caller passes the car's start cell there. */
  datatype CarState = CarState(
    agentId: Cell,
    position: Cell,
    checkpointCounter: int,
    collisionCounter: int,
    reward: int,
    done: bool,
    observation: Option<Grid>)

  /** A car object; `observation` is None until `Reset` creates it. */
  class Car {
    var agentId: Cell
    var position: Cell
    var checkpointCounters: int
    var collisionCounter: int
    var reward: int
    var done: bool
    var observation: Option<Grid>

    function Value(): CarState
      reads this
    {
      CarState(agentId, position, checkpointCounters, collisionCounter, reward, done, observation)
    }

    constructor (agentId: Cell)
      ensures Value() == CarState(agentId, (0, 0), 0, 0, 0, false, None)
    {
      this.agentId := agentId;
      position := (0, 0);
      checkpointCounters := 0;
      collisionCounter := 0;
      reward := 0;
      done := false;
      observation := None;
    }

    /** Restarts the car at `position`; only `agentId` survives, so the new
     *  state is a function of the arguments and the identifier alone. */
    method Reset(position: Cell, observation: Grid)
      modifies this
      ensures Value() == CarState(old(agentId), position, 0, 0, 0, false, Some(observation))
    {
      this.position := position;
      checkpointCounters := 0;
      collisionCounter := 0;
      reward := 0;
      done := false;
      this.observation := Some(observation);
    }
  }
}
