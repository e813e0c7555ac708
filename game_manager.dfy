/**
 * The coordinator: it owns the grid, the player's Echo, the ghosts and the
 * game state, forwards input while the game runs, and steps the player and
 * then every ghost once per update.
 */
module Coordinator {
  import opened Types
  import opened Entity
  import opened Rendering
  import opened Game
  import opened Motion
  import opened Player
  import opened Drifter

  class GameManager {
    const grid: Grid
    const player: Echo
    var ghosts: seq<Ghost>
    var state: GameState
    ghost var Repr: set<object>

    /** Every buffer belongs to exactly one owner; no two ghosts are the same object. */
    ghost predicate Separate()
      reads this
    {
      player.buffer != grid.buffer &&
      (forall i :: 0 <= i < |ghosts| ==> ghosts[i].buffer != player.buffer && ghosts[i].buffer != grid.buffer) &&
      (forall i, j :: 0 <= i < |ghosts| && 0 <= j < |ghosts| && i != j ==>
        ghosts[i] != ghosts[j] && ghosts[i].buffer != ghosts[j].buffer)
    }

    ghost predicate Valid()
      reads this, Repr
    {
      this in Repr && grid in Repr && grid.buffer in Repr && player in Repr && player.buffer in Repr &&
      (forall i :: 0 <= i < |ghosts| ==> ghosts[i] in Repr && ghosts[i].buffer in Repr) &&
      grid.Valid() && Separate() &&
      grid.buffer.acquired && !grid.buffer.released &&
      player.buffer.acquired && !player.buffer.released &&
      (forall i :: 0 <= i < |ghosts| ==> ghosts[i].buffer.acquired && !ghosts[i].buffer.released) &&
      player.Valid() && AllInBounds(player.trail, grid.width, grid.height) &&
      (forall i :: 0 <= i < |ghosts| ==>
        ghosts[i].Valid() && AllInBounds(ghosts[i].trail, grid.width, grid.height))
    }

    /**
     * Builds the grid, the player at the centre cell and one ghost at the
     * quarter cell of a square grid of `gridSize` cells; the game starts running.
     */
    constructor Init(gridSize: int, cellSize: real)
      requires gridSize > 0
      ensures Valid() && fresh(Repr)
      ensures state == Running
      ensures grid.width == gridSize && grid.height == gridSize && grid.cellSize == cellSize
      ensures grid.buffer.data == LineVertices(gridSize, gridSize)
      ensures player.trail == [Cell(gridSize / 2, gridSize / 2)] && player.direction == None
      ensures grid.buffer.vertexCount == 4 * gridSize + 4
      ensures player.moveTimer == 0.0 && player.buffer.data == [] && player.buffer.vertexCount == 0
      ensures |ghosts| == 1 && ghosts[0].trail == [Cell(gridSize / 4, gridSize / 4)]
      ensures ghosts[0].moveTimer == 0.0 && ghosts[0].buffer.data == [] && ghosts[0].buffer.vertexCount == 0
    {
      var g := new Grid(gridSize, gridSize, cellSize);
      var echo := new Echo(gridSize / 2, gridSize / 2);
      var first := new Ghost(gridSize / 4, gridSize / 4);
      grid := g;
      player := echo;
      ghosts := [first];
      state := Running;
      Repr := {this, g, g.buffer, echo, echo.buffer, first, first.buffer};
    }

    /** Sets the state to exactly `s`; nothing else changes. */
    method SetState(s: GameState)
      requires Valid()
      modifies this
      ensures Valid()
      ensures state == s
      ensures ghosts == old(ghosts) && Repr == old(Repr)
    {
      state := s;
    }

    /** The input callback: a direction reaches the player only while the game runs. */
    method OnDirectionInput(d: Direction)
      requires Valid()
      modifies player
      ensures Valid()
      ensures player.direction == if state == Running then d else old(player.direction)
      ensures player.trail == old(player.trail) && player.position == old(player.position)
      ensures player.moveTimer == old(player.moveTimer)
    {
      if state == Running {
        player.HandleInput(d);
      }
    }

    /** The ghosts and their buffers: all that stepping the ghosts may change. */
    ghost function GhostFootprint(): set<object>
      reads this
    {
      (set j | 0 <= j < |ghosts| :: ghosts[j] as object) + (set j | 0 <= j < |ghosts| :: ghosts[j].buffer as object)
    }

    /**
     * One frame: frozen unless running; otherwise the player steps (possibly
     * ending the game) and then each ghost in order, each seeing the state
     * and the player's trail as the player's step left them. `rolls[i]` is
     * ghost i's random draw.
     */
    method Update(dt: real, rolls: seq<int>)
      requires Valid()
      requires |rolls| == |ghosts|
      requires forall i :: 0 <= i < |rolls| ==> 1 <= rolls[i] <= 4
      modifies Repr
      ensures Valid()
      ensures Repr == old(Repr) && ghosts == old(ghosts)
      ensures old(state) != Running ==> unchanged(Repr)
      ensures unchanged(grid.buffer)
      ensures player.direction == old(player.direction)
      ensures old(state) == Running ==>
        player.trail == PlayerTrailAfter(old(player.trail), old(player.direction), grid.width, grid.height) &&
        state == PlayerStateAfter(old(player.trail), old(player.direction), grid.width, grid.height, Running) &&
        player.moveTimer == AccumulateTimer(old(player.moveTimer), dt)
      ensures player.trail == old(player.trail) ==> unchanged(player.buffer)
      ensures player.trail != old(player.trail) ==>
        player.buffer.data == TrailGeometry(player.trail, grid.width, grid.height) &&
        player.buffer.vertexCount == |player.trail|
      ensures old(state) == Running ==> forall i :: 0 <= i < |ghosts| ==>
        Advanced(ghosts[i], dt, rolls[i], state == Running, grid.width, grid.height, player.trail)
    {
      if state != Running {
        return;
      }
      var next := player.Update(dt, grid.width, grid.height, state);
      state := next;
      UpdateGhosts(dt, rolls);
    }

    /** Steps every ghost in collection order against the current state and player trail. */
    method UpdateGhosts(dt: real, rolls: seq<int>)
      requires Valid()
      requires |rolls| == |ghosts|
      requires forall i :: 0 <= i < |rolls| ==> 1 <= rolls[i] <= 4
      modifies GhostFootprint()
      ensures Valid()
      ensures forall i :: 0 <= i < |ghosts| ==>
        Advanced(ghosts[i], dt, rolls[i], state == Running, grid.width, grid.height, player.trail)
    {
      var i := 0;
      while i < |ghosts|
        invariant 0 <= i <= |ghosts|
        invariant Valid()
        invariant forall j :: 0 <= j < i ==>
          Advanced(ghosts[j], dt, rolls[j], state == Running, grid.width, grid.height, player.trail)
        invariant forall j :: i <= j < |ghosts| ==> unchanged(ghosts[j], ghosts[j].buffer)
      {
        StepGhost(i, dt, rolls[i]);
        i := i + 1;
      }
    }

    /** Steps ghost `i` alone; every other object keeps its state. */
    method StepGhost(i: int, dt: real, roll: int)
      requires Valid()
      requires 0 <= i < |ghosts| && 1 <= roll <= 4
      modifies ghosts[i], ghosts[i].buffer
      ensures Valid()
      ensures Advanced(ghosts[i], dt, roll, state == Running, grid.width, grid.height, player.trail)
      ensures forall j :: 0 <= j < |ghosts| && j != i ==> unchanged(ghosts[j], ghosts[j].buffer)
    {
      var g := ghosts[i];
      g.Update(dt, state, grid.width, grid.height, player.trail, roll);
      forall j | 0 <= j < |ghosts| && j != i
        ensures unchanged(ghosts[j], ghosts[j].buffer)
      {
        assert ghosts[j] != g && ghosts[j].buffer != g.buffer;
      }
    }
  }
}
