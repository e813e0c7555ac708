/** The shared parts of every moving game object: its cell type and its move timer. */
module Entity {

  /** A grid cell: a plain integer pair compared field by field. */
  datatype Cell = Cell(x: int, y: int)

  /** The value of a default-constructed cell. */
  const Origin: Cell := Cell(0, 0)

  /** Seconds that must accumulate before the move timer resets. */
  const MoveInterval: real := 0.2

  /**
   * The timer bookkeeping of one update: add the frame time, and reset to
   * zero once the threshold is reached.
   */
  function AccumulateTimer(timer: real, dt: real): (t: real)
    ensures t < MoveInterval
    ensures t == timer + dt || t == 0.0
    ensures t != timer + dt ==> timer + dt >= MoveInterval
  {
    if timer + dt >= MoveInterval then 0.0 else timer + dt
  }

  /** The threshold is positive, so a fresh timer (zero) has not reached it. */
  lemma MoveIntervalPositive()
    ensures 0.0 < MoveInterval
  {
  }

  /** Below the threshold the timer only accumulates, and the times add up. */
  lemma AccumulateTimerAdds(timer: real, dt1: real, dt2: real)
    requires timer + dt1 + dt2 < MoveInterval
    requires 0.0 <= dt2
    ensures AccumulateTimer(AccumulateTimer(timer, dt1), dt2) == timer + dt1 + dt2
  {
  }
}
