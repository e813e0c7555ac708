/**
 * The movement rules both actors apply each update: the candidate cell one
 * cardinal step from the head, the bounds and trail checks, and the
 * screen-space point list built from a trail.
 */
module Motion {
  import opened Types
  import opened Entity
  import opened Rendering
  import opened Game

  /** `b` is one unit from `a` on exactly one axis. */
  predicate IsUnitStep(a: Cell, b: Cell)
  {
    (a.x == b.x && (b.y == a.y + 1 || b.y == a.y - 1)) ||
    (a.y == b.y && (b.x == a.x + 1 || b.x == a.x - 1))
  }

  /**
   * The candidate cell: UP raises y, DOWN lowers y, LEFT lowers x, RIGHT
   * raises x; NONE falls through the switch and leaves the cell as it is.
   */
  function Neighbor(c: Cell, d: Direction): (n: Cell)
    ensures d == None ==> n == c
    ensures d != None ==> IsUnitStep(c, n) && n != c
    ensures (d == Up || d == Down) ==> n.x == c.x
    ensures (d == Left || d == Right) ==> n.y == c.y
    ensures (d == Up ==> n.y > c.y) && (d == Down ==> n.y < c.y)
    ensures (d == Right ==> n.x > c.x) && (d == Left ==> n.x < c.x)
  {
    match d
    case Up => Cell(c.x, c.y + 1)
    case Down => Cell(c.x, c.y - 1)
    case Left => Cell(c.x - 1, c.y)
    case Right => Cell(c.x + 1, c.y)
    case None => c
  }

  /** Different moving directions lead to different cells. */
  lemma NeighborInjective(c: Cell, d1: Direction, d2: Direction)
    requires d1 != None && d2 != None
    requires Neighbor(c, d1) == Neighbor(c, d2)
    ensures d1 == d2
  {
  }

  function Last(t: seq<Cell>): Cell
    requires |t| > 0
  {
    t[|t| - 1]
  }

  /** Every consecutive pair of the trail is a unit step. */
  ghost predicate IsPath(t: seq<Cell>)
  {
    forall k :: 0 < k < |t| ==> IsUnitStep(t[k - 1], t[k])
  }

  /** Trail cells are pairwise distinct. */
  ghost predicate Distinct(t: seq<Cell>)
  {
    forall i, j :: 0 <= i < j < |t| ==> t[i] != t[j]
  }

  ghost predicate AllInBounds(t: seq<Cell>, width: int, height: int)
  {
    forall k :: 0 <= k < |t| ==> InBounds(t[k], width, height)
  }

  /** Appending a unit step from the last cell keeps a trail a path. */
  lemma AppendKeepsPath(t: seq<Cell>, c: Cell)
    requires |t| > 0 && IsPath(t) && IsUnitStep(Last(t), c)
    ensures IsPath(t + [c])
  {
    var t' := t + [c];
    forall k | 0 < k < |t'|
      ensures IsUnitStep(t'[k - 1], t'[k])
    {
      if k < |t| {
        assert t'[k - 1] == t[k - 1] && t'[k] == t[k];
      }
    }
  }

  /** Appending a cell that is not yet in the trail keeps its cells distinct. */
  lemma AppendKeepsDistinct(t: seq<Cell>, c: Cell)
    requires Distinct(t) && c !in t
    ensures Distinct(t + [c])
  {
  }

  /** Appending an in-bounds cell keeps every cell in bounds. */
  lemma AppendKeepsInBounds(t: seq<Cell>, c: Cell, width: int, height: int)
    requires AllInBounds(t, width, height) && InBounds(c, width, height)
    ensures AllInBounds(t + [c], width, height)
  {
  }

  /** The row-major index of a cell on a grid `width` cells wide. */
  function CellIndex(c: Cell, width: int): int
  {
    c.y * width + c.x
  }

  /** Helper: multiplying by a non-negative factor keeps an inequality. */
  lemma MulMonotone(a: int, b: int, k: int)
    requires a <= b && 0 <= k
    ensures a * k <= b * k
  {
    assert b * k - a * k == (b - a) * k;
  }

  /** An in-bounds cell has an index in [0, width * height). */
  lemma CellIndexInRange(c: Cell, width: int, height: int)
    requires InBounds(c, width, height)
    ensures 0 <= CellIndex(c, width) < width * height
  {
    MulMonotone(0, c.y, width);
    MulMonotone(c.y + 1, height, width);
    assert c.y * width + width == (c.y + 1) * width;
  }

  /** Helper: a smaller factor is smaller by at least a whole `k`. */
  lemma MulStep(a: int, b: int, k: int)
    requires 0 <= k
    ensures a < b ==> a * k + k <= b * k
  {
    if a < b {
      MulMonotone(a + 1, b, k);
      assert (a + 1) * k == a * k + k;
    }
  }

  /** Distinct in-bounds cells have distinct indices. */
  lemma CellIndexInjective(a: Cell, b: Cell, width: int, height: int)
    requires InBounds(a, width, height) && InBounds(b, width, height)
    requires CellIndex(a, width) == CellIndex(b, width)
    ensures a == b
  {
    MulStep(a.y, b.y, width);
    MulStep(b.y, a.y, width);
  }

  /** The indices of the cells of a trail. */
  ghost function Indices(t: seq<Cell>, width: int): set<int>
  {
    set k | 0 <= k < |t| :: CellIndex(t[k], width)
  }

  /** A self-avoiding in-bounds trail has as many cell indices as cells. */
  lemma {:induction false} IndicesCount(t: seq<Cell>, width: int, height: int)
    requires Distinct(t) && AllInBounds(t, width, height)
    ensures |Indices(t, width)| == |t|
  {
    if |t| > 0 {
      var p := t[..|t| - 1];
      assert Distinct(p) && AllInBounds(p, width, height) by {
        forall k | 0 <= k < |p| ensures p[k] == t[k] { }
      }
      IndicesCount(p, width, height);
      assert Indices(t, width) == Indices(p, width) + {CellIndex(Last(t), width)} by {
        forall k | 0 <= k < |p| ensures p[k] == t[k] { }
      }
      if CellIndex(Last(t), width) in Indices(p, width) {
        var k :| 0 <= k < |p| && CellIndex(p[k], width) == CellIndex(Last(t), width);
        assert p[k] == t[k];
        CellIndexInjective(t[k], Last(t), width, height);
        assert false;
      }
    }
  }

  /** The integers 0 .. n-1. */
  ghost function Range(n: nat): set<int>
  {
    if n == 0 then {} else Range(n - 1) + {n - 1}
  }

  lemma {:induction false} RangeCount(n: nat)
    ensures |Range(n)| == n
  {
    if n > 0 {
      RangeCount(n - 1);
      RangeMembers(n - 1, n - 1);
    }
  }

  lemma {:induction false} RangeMembers(n: nat, i: int)
    ensures i in Range(n) <==> 0 <= i < n
  {
    if n > 0 {
      RangeMembers(n - 1, i);
    }
  }

  /** Helper: a subset is no larger than its superset. */
  lemma SubsetCount(a: set<int>, b: set<int>)
    requires a <= b
    ensures |a| <= |b|
  {
    assert b == a + (b - a);
  }

  /**
   * Pigeonhole: a trail whose cells are pairwise distinct and all on the grid
   * has at most width * height cells.
   */
  lemma TrailFitsGrid(t: seq<Cell>, width: int, height: int)
    requires width > 0 && height > 0
    requires Distinct(t) && AllInBounds(t, width, height)
    ensures |t| <= width * height
  {
    IndicesCount(t, width, height);
    forall i | i in Indices(t, width) ensures i in Range(width * height) {
      var k :| 0 <= k < |t| && CellIndex(t[k], width) == i;
      CellIndexInRange(t[k], width, height);
      RangeMembers(width * height, i);
    }
    SubsetCount(Indices(t, width), Range(width * height));
    RangeCount(width * height);
  }

  /** What one attempted step from `head` in direction `d` comes to. */
  datatype StepOutcome =
    | Idle            // no direction: nothing is attempted
    | OutOfBounds     // the candidate is outside the grid
    | HitTrail        // the candidate is one of the obstacle cells
    | Moved(next: Cell)

  /**
   * The checks in the order the code makes them: no direction, then the
   * bounds, then each obstacle cell.
   */
  function Probe(head: Cell, d: Direction, width: int, height: int, obstacles: seq<Cell>): (o: StepOutcome)
    ensures o == Idle <==> d == None
    ensures o.Moved? ==> o.next == Neighbor(head, d)
    ensures o.Moved? ==> IsUnitStep(head, o.next) && InBounds(o.next, width, height) && o.next !in obstacles
    ensures o.HitTrail? ==> Neighbor(head, d) in obstacles
    ensures o.OutOfBounds? ==> !InBounds(Neighbor(head, d), width, height)
  {
    if d == None then Idle
    else
      var c := Neighbor(head, d);
      if !InBounds(c, width, height) then OutOfBounds
      else if c in obstacles then HitTrail
      else Moved(c)
  }

  /** A step with a direction whose candidate is in bounds and clear always moves. */
  lemma ProbeMovesWhenClear(head: Cell, d: Direction, width: int, height: int, obstacles: seq<Cell>)
    requires d != None
    requires InBounds(Neighbor(head, d), width, height)
    requires Neighbor(head, d) !in obstacles
    ensures Probe(head, d, width, height, obstacles) == Moved(Neighbor(head, d))
  {
  }

  /** Whether a step leaves the grid does not depend on the obstacles. */
  lemma ProbeBoundsIgnoreObstacles(head: Cell, d: Direction, width: int, height: int, o1: seq<Cell>, o2: seq<Cell>)
    ensures Probe(head, d, width, height, o1).OutOfBounds? <==> Probe(head, d, width, height, o2).OutOfBounds?
  {
  }

  /** The head itself never blocks a step: only the rest of the trail can. */
  lemma ProbeHeadNeverBlocks(t: seq<Cell>, d: Direction, width: int, height: int)
    requires |t| > 0
    ensures Probe(Last(t), d, width, height, t) == Probe(Last(t), d, width, height, t[..|t| - 1])
  {
    assert t == t[..|t| - 1] + [Last(t)];
  }

  /**
   * The comparison loop over a trail: it reports a hit exactly when the
   * cell equals some trail cell.
   */
  method FindInTrail(trail: seq<Cell>, c: Cell) returns (hit: bool)
    ensures hit <==> c in trail
  {
    var i := 0;
    while i < |trail|
      invariant 0 <= i <= |trail|
      invariant forall k :: 0 <= k < i ==> trail[k] != c
    {
      if c == trail[i] {
        return true;
      }
      i := i + 1;
    }
    return false;
  }

  /** The point list of a trail: the screen centre (x then y) of each cell, in trail order. */
  function TrailGeometry(trail: seq<Cell>, width: int, height: int): (v: seq<real>)
    requires width > 0 && height > 0
    ensures |v| == 2 * |trail|
    ensures forall k :: 0 <= k < |trail| ==>
      v[2 * k] == GridToScreen(trail[k], width, height).x &&
      v[2 * k + 1] == GridToScreen(trail[k], width, height).y
  {
    if |trail| == 0 then []
    else
      var p := GridToScreen(Last(trail), width, height);
      TrailGeometry(trail[..|trail| - 1], width, height) + [p.x, p.y]
  }

  /** Builds the point list of a trail cell by cell. */
  method BuildTrailVertices(trail: seq<Cell>, width: int, height: int) returns (vertices: seq<real>)
    requires width > 0 && height > 0
    ensures vertices == TrailGeometry(trail, width, height)
  {
    vertices := [];
    var i := 0;
    while i < |trail|
      invariant 0 <= i <= |trail|
      invariant vertices == TrailGeometry(trail[..i], width, height)
    {
      var p := GridToScreen(trail[i], width, height);
      assert trail[..i + 1][..i] == trail[..i];
      vertices := vertices + [p.x, p.y];
      i := i + 1;
    }
    assert trail[..i] == trail;
  }

  /**
   * Once a non-empty trail's point list is uploaded, vertex k of the buffer
   * (floats 2k and 2k+1) is the screen centre of trail cell k.
   */
  lemma TrailVertexIsCellCentre(s: BufferState, trail: seq<Cell>, width: int, height: int, k: int)
    requires width > 0 && height > 0
    requires 0 <= k < |trail|
    ensures var u := Upload(s, TrailGeometry(trail, width, height));
            Layout(u) && k < u.vertexCount &&
            VertexAt(u, k) == (GridToScreen(trail[k], width, height).x, GridToScreen(trail[k], width, height).y)
  {
    UploadReplaces(s, s, TrailGeometry(trail, width, height));
  }
}
