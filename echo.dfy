/**
 * The player's actor: it holds a direction set by input, extends its own
 * trail one cell per update, and ends the game on hitting a wall or its
 * own trail.
 */
module Player {
  import opened Types
  import opened Entity
  import opened Rendering
  import opened Game
  import opened Motion

  /** One player step from the head of `trail`: its own trail is the obstacle. */
  function PlayerOutcome(trail: seq<Cell>, d: Direction, width: int, height: int): StepOutcome
    requires |trail| > 0
  {
    Probe(Last(trail), d, width, height, trail)
  }

  /** The trail after one player step: only a committed move appends a cell. */
  function PlayerTrailAfter(trail: seq<Cell>, d: Direction, width: int, height: int): (t: seq<Cell>)
    requires |trail| > 0
    ensures |t| == |trail| || |t| == |trail| + 1
    ensures t[..|trail|] == trail
  {
    match PlayerOutcome(trail, d, width, height)
    case Moved(c) => trail + [c]
    case _ => trail
  }

  /** The game state after one player step: a rejected move means GAME_OVER. */
  function PlayerStateAfter(trail: seq<Cell>, d: Direction, width: int, height: int, state: GameState): (s: GameState)
    requires |trail| > 0
    ensures s == state || (s == GameOver && d != None)
  {
    var o := PlayerOutcome(trail, d, width, height);
    if o.OutOfBounds? || o.HitTrail? then GameOver else state
  }

  /** The invariants of a player trail: a non-empty, self-avoiding, in-bounds path. */
  ghost predicate PlayerTrailOk(t: seq<Cell>, width: int, height: int)
  {
    |t| > 0 && IsPath(t) && Distinct(t) && AllInBounds(t, width, height)
  }

  /** Every player step keeps the trail a self-avoiding in-bounds path. */
  lemma PlayerStepPreservesTrail(t: seq<Cell>, d: Direction, width: int, height: int)
    requires PlayerTrailOk(t, width, height)
    ensures PlayerTrailOk(PlayerTrailAfter(t, d, width, height), width, height)
  {
    var o := PlayerOutcome(t, d, width, height);
    if o.Moved? {
      AppendKeepsPath(t, o.next);
      AppendKeepsDistinct(t, o.next);
      AppendKeepsInBounds(t, o.next, width, height);
    }
  }

  /**
   * A step either commits (one cell longer, the new head a unit step from
   * the old one, state untouched) or is rejected (trail unchanged) and a
   * rejection with a direction is always GAME_OVER.
   */
  lemma PlayerStepCases(t: seq<Cell>, d: Direction, width: int, height: int, state: GameState)
    requires |t| > 0
    ensures var t' := PlayerTrailAfter(t, d, width, height);
            var s' := PlayerStateAfter(t, d, width, height, state);
            (|t'| == |t| + 1 && IsUnitStep(Last(t), Last(t')) && s' == state) ||
            (t' == t && (d == None ==> s' == state) && (d != None ==> s' == GameOver))
  {
  }

  /** After a rejected step, repeating it is rejected again and the trail stays put. */
  lemma PlayerRejectionRepeats(t: seq<Cell>, d: Direction, width: int, height: int, state: GameState)
    requires |t| > 0
    requires PlayerStateAfter(t, d, width, height, state) == GameOver
    requires !PlayerOutcome(t, d, width, height).Moved?
    ensures PlayerTrailAfter(t, d, width, height) == t
    ensures PlayerStateAfter(PlayerTrailAfter(t, d, width, height), d, width, height, GameOver) == GameOver
    ensures PlayerTrailAfter(PlayerTrailAfter(t, d, width, height), d, width, height) == t
  {
  }

  /**
   * A trail that already covers every cell of the grid cannot grow: any
   * step with a direction ends the game, so a game has at most
   * width * height - 1 player moves.
   */
  lemma PlayerFullTrailEndsGame(t: seq<Cell>, d: Direction, width: int, height: int, state: GameState)
    requires width > 0 && height > 0
    requires PlayerTrailOk(t, width, height) && |t| == width * height
    requires d != None
    ensures PlayerTrailAfter(t, d, width, height) == t
    ensures PlayerStateAfter(t, d, width, height, state) == GameOver
  {
    PlayerStepPreservesTrail(t, d, width, height);
    TrailFitsGrid(PlayerTrailAfter(t, d, width, height), width, height);
    PlayerStepCases(t, d, width, height, state);
  }

  /** A step to the right from (5,5) on a 10 by 10 grid commits (6,5). */
  lemma PlayerMovesRight()
    ensures PlayerTrailAfter([Cell(5, 5)], Right, 10, 10) == [Cell(5, 5), Cell(6, 5)]
    ensures PlayerStateAfter([Cell(5, 5)], Right, 10, 10, Running) == Running
  {
  }

  /** A step to the right from (9,5) on a grid 10 wide leaves it and ends the game. */
  lemma PlayerHitsWall()
    ensures PlayerTrailAfter([Cell(9, 5)], Right, 10, 10) == [Cell(9, 5)]
    ensures PlayerStateAfter([Cell(9, 5)], Right, 10, 10, Running) == GameOver
  {
  }

  /** A step into a cell the trail already holds ends the game. */
  lemma PlayerHitsOwnTrail()
    ensures PlayerTrailAfter([Cell(6, 5), Cell(6, 6), Cell(5, 6), Cell(5, 5)], Right, 10, 10)
         == [Cell(6, 5), Cell(6, 6), Cell(5, 6), Cell(5, 5)]
    ensures PlayerStateAfter([Cell(6, 5), Cell(6, 6), Cell(5, 6), Cell(5, 5)], Right, 10, 10, Running) == GameOver
  {
  }

  class Echo {
    var position: Cell
    var moveTimer: real
    var direction: Direction
    var trail: seq<Cell>
    /** The trail geometry buffer, owned by this Echo alone. */
    const buffer: Buffer

    ghost predicate Valid()
      reads this, buffer
    {
      |trail| > 0 && Last(trail) == position && IsPath(trail) && Distinct(trail) && buffer.Valid()
    }

    /** Starts at the given cell, with a one-cell trail, no direction and an empty buffer. */
    constructor (startX: int, startY: int)
      ensures Valid() && fresh(buffer)
      ensures position == Cell(startX, startY) && trail == [position]
      ensures direction == None && moveTimer == 0.0
      ensures buffer.data == [] && buffer.vertexCount == 0 && buffer.acquired && !buffer.released
    {
      position := Cell(startX, startY);
      moveTimer := 0.0;
      direction := None;
      trail := [Cell(startX, startY)];
      buffer := new Buffer();
    }

    method SetPosition(p: Cell)
      modifies this
      ensures position == p
      ensures moveTimer == old(moveTimer) && direction == old(direction) && trail == old(trail)
    {
      position := p;
    }

    /** Stores the direction; the move happens on the next update. */
    method HandleInput(d: Direction)
      requires Valid()
      modifies this
      ensures Valid()
      ensures direction == d
      ensures position == old(position) && trail == old(trail) && moveTimer == old(moveTimer)
    {
      direction := d;
    }

    /** Rebuilds the trail's point list and uploads it to the buffer. */
    method GenerateTrailGeometry(width: int, height: int)
      requires width > 0 && height > 0
      requires buffer.Valid()
      modifies buffer
      ensures buffer.Valid()
      ensures buffer.State() == Upload(old(buffer.State()), TrailGeometry(trail, width, height))
      ensures buffer.acquired == old(buffer.acquired) && buffer.released == old(buffer.released)
    {
      var vertices := BuildTrailVertices(trail, width, height);
      buffer.SetData(vertices);
    }

    /**
     * One movement attempt: nothing without a direction; GAME_OVER on
     * leaving the grid or meeting the trail; otherwise the candidate is
     * appended, becomes the position, and the geometry is re-uploaded.
     */
    method Step(width: int, height: int, state: GameState) returns (next: GameState)
      requires width > 0 && height > 0
      requires Valid()
      modifies this, buffer
      ensures Valid()
      ensures trail == PlayerTrailAfter(old(trail), old(direction), width, height)
      ensures next == PlayerStateAfter(old(trail), old(direction), width, height, state)
      ensures direction == old(direction) && moveTimer == old(moveTimer)
      ensures AllInBounds(old(trail), width, height) ==> AllInBounds(trail, width, height)
      ensures trail == old(trail) ==> unchanged(buffer)
      ensures trail != old(trail) ==>
        buffer.data == TrailGeometry(trail, width, height) && buffer.vertexCount == |trail|
      ensures buffer.acquired == old(buffer.acquired) && buffer.released == old(buffer.released)
    {
      if direction == None {
        assert PlayerOutcome(trail, direction, width, height) == Idle;
        return state;
      }
      var candidate := Neighbor(position, direction);
      if !InBounds(candidate, width, height) {
        assert PlayerOutcome(trail, direction, width, height) == OutOfBounds;
        return GameOver;
      }
      var hit := FindInTrail(trail, candidate);
      if hit {
        assert PlayerOutcome(trail, direction, width, height) == HitTrail;
        return GameOver;
      }
      assert PlayerOutcome(trail, direction, width, height) == Moved(candidate);
      Extend(candidate, width, height);
      next := state;
    }

    /** Commits a checked candidate: it joins the trail, becomes the position, and the geometry is re-uploaded. */
    method Extend(candidate: Cell, width: int, height: int)
      requires width > 0 && height > 0
      requires Valid()
      requires IsUnitStep(position, candidate) && InBounds(candidate, width, height) && candidate !in trail
      modifies this, buffer
      ensures Valid()
      ensures trail == old(trail) + [candidate] && position == candidate
      ensures direction == old(direction) && moveTimer == old(moveTimer)
      ensures AllInBounds(old(trail), width, height) ==> AllInBounds(trail, width, height)
      ensures buffer.data == TrailGeometry(trail, width, height) && buffer.vertexCount == |trail|
      ensures buffer.acquired == old(buffer.acquired) && buffer.released == old(buffer.released)
    {
      AppendKeepsPath(trail, candidate);
      AppendKeepsDistinct(trail, candidate);
      if AllInBounds(trail, width, height) {
        AppendKeepsInBounds(trail, candidate, width, height);
      }
      trail := trail + [candidate];
      SetPosition(candidate);
      GenerateTrailGeometry(width, height);
    }

    /**
     * Timer bookkeeping followed by an unconditional movement attempt: the
     * timer gate encloses only the reset, not the move.
     */
    method Update(dt: real, width: int, height: int, state: GameState) returns (next: GameState)
      requires width > 0 && height > 0
      requires Valid()
      modifies this, buffer
      ensures Valid()
      ensures moveTimer == AccumulateTimer(old(moveTimer), dt)
      ensures moveTimer < MoveInterval
      ensures trail == PlayerTrailAfter(old(trail), old(direction), width, height)
      ensures next == PlayerStateAfter(old(trail), old(direction), width, height, state)
      ensures direction == old(direction)
      ensures AllInBounds(old(trail), width, height) ==> AllInBounds(trail, width, height)
      ensures trail == old(trail) ==> unchanged(buffer)
      ensures trail != old(trail) ==>
        buffer.data == TrailGeometry(trail, width, height) && buffer.vertexCount == |trail|
      ensures buffer.acquired == old(buffer.acquired) && buffer.released == old(buffer.released)
    {
      moveTimer := moveTimer + dt;
      if moveTimer >= MoveInterval {
        moveTimer := 0.0;
      }
      next := Step(width, height, state);
    }
  }
}
