/**
 * The autonomous adversary: each update it picks a random moving direction,
 * and extends its own trail unless the step would leave the grid or land on
 * the player's trail, in which case the step is silently skipped.
 */
module Drifter {
  import opened Types
  import opened Entity
  import opened Rendering
  import opened Game
  import opened Motion

  /** The direction chosen from a draw of the uniform distribution over 1..4. */
  function DecideMove(roll: int): (d: Direction)
    requires 1 <= roll <= 4
    ensures d != None
    ensures DirectionOrdinal(d) == roll
  {
    DirectionFromOrdinal(roll)
  }

  /** One ghost step from the head of its trail: the player's trail is the obstacle. */
  function GhostOutcome(trail: seq<Cell>, roll: int, width: int, height: int, playerTrail: seq<Cell>): StepOutcome
    requires |trail| > 0 && 1 <= roll <= 4
  {
    Probe(Last(trail), DecideMove(roll), width, height, playerTrail)
  }

  /** The ghost's trail after one step while the game runs. */
  function GhostTrailAfter(trail: seq<Cell>, roll: int, width: int, height: int, playerTrail: seq<Cell>): (t: seq<Cell>)
    requires |trail| > 0 && 1 <= roll <= 4
    ensures |t| == |trail| || |t| == |trail| + 1
    ensures t[..|trail|] == trail
  {
    match GhostOutcome(trail, roll, width, height, playerTrail)
    case Moved(c) => trail + [c]
    case _ => trail
  }

  /** The invariants of a ghost trail: a non-empty in-bounds path (revisits allowed). */
  ghost predicate GhostTrailOk(t: seq<Cell>, width: int, height: int)
  {
    |t| > 0 && IsPath(t) && AllInBounds(t, width, height)
  }

  /** Every ghost step keeps its trail an in-bounds path. */
  lemma GhostStepPreservesTrail(t: seq<Cell>, roll: int, width: int, height: int, playerTrail: seq<Cell>)
    requires 1 <= roll <= 4
    requires GhostTrailOk(t, width, height)
    ensures GhostTrailOk(GhostTrailAfter(t, roll, width, height, playerTrail), width, height)
  {
    var o := GhostOutcome(t, roll, width, height, playerTrail);
    if o.Moved? {
      AppendKeepsPath(t, o.next);
      AppendKeepsInBounds(t, o.next, width, height);
    }
  }

  /** A committed ghost step never lands on the player's trail, and a new cell is a unit step away. */
  lemma GhostAvoidsPlayerTrail(t: seq<Cell>, roll: int, width: int, height: int, playerTrail: seq<Cell>)
    requires |t| > 0 && 1 <= roll <= 4
    ensures var t' := GhostTrailAfter(t, roll, width, height, playerTrail);
            t' == t || (|t'| == |t| + 1 && Last(t') !in playerTrail && IsUnitStep(Last(t), Last(t')))
  {
  }

  /**
   * The boundary asymmetry: a step that leaves the grid ends the game for
   * the player but leaves a ghost's trail as it was.
   */
  lemma GhostIgnoresWalls(t: seq<Cell>, roll: int, width: int, height: int, playerTrail: seq<Cell>)
    requires |t| > 0 && 1 <= roll <= 4
    requires !InBounds(Neighbor(Last(t), DecideMove(roll)), width, height)
    ensures GhostTrailAfter(t, roll, width, height, playerTrail) == t
  {
  }

  /** Without a self-check a ghost may step back onto its own trail. */
  lemma GhostMayRevisit()
    ensures GhostTrailAfter([Cell(1, 1), Cell(2, 1)], 3, 5, 5, []) == [Cell(1, 1), Cell(2, 1), Cell(1, 1)]
    ensures !Distinct(GhostTrailAfter([Cell(1, 1), Cell(2, 1)], 3, 5, 5, []))
  {
    var t := GhostTrailAfter([Cell(1, 1), Cell(2, 1)], 3, 5, 5, []);
    assert t[0] == t[2];
  }

  /**
   * Ghost `g` has taken exactly one update from the previous state: its
   * trail and timer are as `Ghost.Update` leaves them, and its buffer holds
   * the new trail's point list after a move and is untouched otherwise.
   */
  twostate predicate Advanced(g: Ghost, dt: real, roll: int, running: bool, width: int, height: int, playerTrail: seq<Cell>)
    reads g, g.buffer
  {
    && |old(g.trail)| > 0 && width > 0 && height > 0 && 1 <= roll <= 4
    && g.trail == (if running then GhostTrailAfter(old(g.trail), roll, width, height, playerTrail) else old(g.trail))
    && g.moveTimer == (if running then AccumulateTimer(old(g.moveTimer), dt) else old(g.moveTimer) + dt)
    && (g.trail == old(g.trail) ==> unchanged(g.buffer))
    && (g.trail != old(g.trail) ==>
          g.buffer.data == TrailGeometry(g.trail, width, height) && g.buffer.vertexCount == |g.trail|)
  }

  class Ghost {
    var position: Cell
    var moveTimer: real
    var trail: seq<Cell>
    /** The trail geometry buffer, owned by this Ghost alone. */
    const buffer: Buffer

    ghost predicate Valid()
      reads this, buffer
    {
      |trail| > 0 && Last(trail) == position && IsPath(trail) && buffer.Valid()
    }

    /** Starts at the given cell with a one-cell trail and an empty buffer. */
    constructor (startX: int, startY: int)
      ensures Valid() && fresh(buffer)
      ensures position == Cell(startX, startY) && trail == [position] && moveTimer == 0.0
      ensures buffer.data == [] && buffer.vertexCount == 0 && buffer.acquired && !buffer.released
    {
      position := Cell(startX, startY);
      moveTimer := 0.0;
      trail := [Cell(startX, startY)];
      buffer := new Buffer();
    }

    method SetPosition(p: Cell)
      modifies this
      ensures position == p
      ensures moveTimer == old(moveTimer) && trail == old(trail)
    {
      position := p;
    }

    /** Rebuilds the trail's point list and uploads it to the buffer. */
    method GenerateTrailGeometry(width: int, height: int)
      requires width > 0 && height > 0
      requires buffer.Valid()
      modifies buffer
      ensures buffer.Valid()
      ensures buffer.State() == Upload(old(buffer.State()), TrailGeometry(trail, width, height))
      ensures buffer.acquired == old(buffer.acquired) && buffer.released == old(buffer.released)
    {
      var vertices := BuildTrailVertices(trail, width, height);
      buffer.SetData(vertices);
    }

    /**
     * The timer accumulates first; when the game is not running nothing
     * else happens. Otherwise the timer bookkeeping runs and a move is
     * attempted whatever the timer says. `roll` is the random draw of 1..4.
     */
    method Update(dt: real, state: GameState, width: int, height: int, playerTrail: seq<Cell>, roll: int)
      requires width > 0 && height > 0
      requires 1 <= roll <= 4
      requires Valid()
      modifies this, buffer
      ensures Valid()
      ensures moveTimer == if state == Running then AccumulateTimer(old(moveTimer), dt) else old(moveTimer) + dt
      ensures trail == if state == Running then GhostTrailAfter(old(trail), roll, width, height, playerTrail) else old(trail)
      ensures AllInBounds(old(trail), width, height) ==> AllInBounds(trail, width, height)
      ensures trail == old(trail) ==> unchanged(buffer)
      ensures trail != old(trail) ==>
        buffer.data == TrailGeometry(trail, width, height) && buffer.vertexCount == |trail|
      ensures buffer.acquired == old(buffer.acquired) && buffer.released == old(buffer.released)
    {
      moveTimer := moveTimer + dt;
      if state != Running {
        return;
      }
      if moveTimer >= MoveInterval {
        moveTimer := 0.0;
      }
      var decided := DecideMove(roll);
      var candidate := Neighbor(position, decided);
      if !InBounds(candidate, width, height) {
        return;
      }
      var hit := FindInTrail(playerTrail, candidate);
      if hit {
        return;
      }
      AppendKeepsPath(trail, candidate);
      if AllInBounds(trail, width, height) {
        AppendKeepsInBounds(trail, candidate, width, height);
      }
      trail := trail + [candidate];
      SetPosition(candidate);
      GenerateTrailGeometry(width, height);
    }
  }
}
