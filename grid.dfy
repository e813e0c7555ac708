/**
 * The playing field: its const dimensions, the mapping from cells to
 * normalised device coordinates, and the static grid-line geometry.
 */
module Game {
  import opened Entity
  import opened Rendering

  /** A point in normalised device coordinates. */
  datatype ScreenPos = ScreenPos(x: real, y: real)

  /** A cell lies on a grid of `width` by `height` cells. */
  predicate InBounds(c: Cell, width: int, height: int)
    ensures InBounds(c, width, height) ==> width > 0 && height > 0
  {
    0 <= c.x < width && 0 <= c.y < height
  }

  /** Helper: a positive real over a positive real is positive. */
  lemma DivPositive(a: real, n: real)
    requires n > 0.0 && 0.0 < a
    ensures 0.0 < a / n
  {
    assert (a / n) * n == a;
  }

  /** Helper: a fraction strictly between 0 and its denominator lies in (0, 1). */
  lemma DivBounds(a: real, n: real)
    requires n > 0.0 && 0.0 < a < n
    ensures 0.0 < a / n < 1.0
  {
    DivPositive(a, n);
    DivPositive(n - a, n);
    assert n / n == 1.0;
    assert (n - a) / n == n / n - a / n;
  }

  /** The centre of cell `index` on an axis of `extent` cells, mapped onto -1..1. */
  function ScreenAxis(index: int, extent: int): (r: real)
    requires extent > 0
    ensures 0 <= index < extent ==> -1.0 < r < 1.0
  {
    var n := extent as real;
    var a := index as real + 0.5;
    assert 0 <= index < extent ==> 0.0 < a / n < 1.0 by {
      if 0 <= index < extent {
        DivBounds(a, n);
      }
    }
    (a / n) * 2.0 - 1.0
  }

  /** Cell 0 and cell extent-1 sit half a cell inside the edges. */
  lemma ScreenAxisEnds(extent: int)
    requires extent > 0
    ensures ScreenAxis(0, extent) == -1.0 + 1.0 / extent as real
    ensures ScreenAxis(extent - 1, extent) == 1.0 - 1.0 / extent as real
  {
    var n := extent as real;
    assert (0.5 / n) * 2.0 == 1.0 / n;
    assert ((n - 1.0 + 0.5) / n) == 1.0 - 0.5 / n;
  }

  /** The axis mapping is strictly increasing. */
  lemma ScreenAxisStrictlyIncreasing(i: int, j: int, extent: int)
    requires extent > 0 && i < j
    ensures ScreenAxis(i, extent) < ScreenAxis(j, extent)
  {
    var n := extent as real;
    var a := i as real + 0.5;
    var b := j as real + 0.5;
    assert b - a > 0.0;
    assert b / n - a / n == (b - a) / n;
    assert (b - a) / n > 0.0;
  }

  /** Maps a cell to the centre of that cell; each axis is scaled by its own extent. */
  function GridToScreen(c: Cell, width: int, height: int): (p: ScreenPos)
    requires width > 0 && height > 0
    ensures InBounds(c, width, height) ==> -1.0 < p.x < 1.0 && -1.0 < p.y < 1.0
  {
    ScreenPos(ScreenAxis(c.x, width), ScreenAxis(c.y, height))
  }

  /** Each screen axis depends only on its own cell coordinate and extent. */
  lemma GridToScreenSeparable(a: Cell, b: Cell, width: int, height: int)
    requires width > 0 && height > 0
    ensures a.x == b.x ==> GridToScreen(a, width, height).x == GridToScreen(b, width, height).x
    ensures a.y == b.y ==> GridToScreen(a, width, height).y == GridToScreen(b, width, height).y
  {
  }

  /** The mapping is strictly increasing on each axis. */
  lemma GridToScreenMonotone(a: Cell, b: Cell, width: int, height: int)
    requires width > 0 && height > 0
    ensures a.x < b.x ==> GridToScreen(a, width, height).x < GridToScreen(b, width, height).x
    ensures a.y < b.y ==> GridToScreen(a, width, height).y < GridToScreen(b, width, height).y
  {
    if a.x < b.x {
      ScreenAxisStrictlyIncreasing(a.x, b.x, width);
    }
    if a.y < b.y {
      ScreenAxisStrictlyIncreasing(a.y, b.y, height);
    }
  }

  /** Distinct cells map to distinct screen points. */
  lemma GridToScreenInjective(a: Cell, b: Cell, width: int, height: int)
    requires width > 0 && height > 0
    requires a != b
    ensures GridToScreen(a, width, height) != GridToScreen(b, width, height)
  {
    if a.x != b.x {
      if a.x < b.x { GridToScreenMonotone(a, b, width, height); }
      else { GridToScreenMonotone(b, a, width, height); }
    } else {
      if a.y < b.y { GridToScreenMonotone(a, b, width, height); }
      else { GridToScreenMonotone(b, a, width, height); }
    }
  }

  /** On a 10 by 10 grid the corner cells map to (-0.9, -0.9) and (0.9, 0.9). */
  lemma CornerCellsOnTenByTen()
    ensures GridToScreen(Cell(0, 0), 10, 10) == ScreenPos(-0.9, -0.9)
    ensures GridToScreen(Cell(9, 9), 10, 10) == ScreenPos(0.9, 0.9)
  {
  }

  /** A conversion from float to int as C++ does it: truncation toward zero. */
  function TruncateToInt(r: real): (n: int)
    ensures -1.0 < r < 1.0 ==> n == 0
    ensures 0.0 <= r ==> n as real <= r < n as real + 1.0
    ensures r < 0.0 ==> n as real - 1.0 < r <= n as real
  {
    if r >= 0.0 then r.Floor else -((-r).Floor)
  }

  /**
   * The mapping as the code is written: the screen coordinates are stored
   * into an integer pair, so each is truncated toward zero.
   */
  function GridToScreenAsWritten(c: Cell, width: int, height: int): (r: Cell)
    requires width > 0 && height > 0
    ensures InBounds(c, width, height) ==> r == Origin
  {
    var p := GridToScreen(c, width, height);
    Cell(TruncateToInt(p.x), TruncateToInt(p.y))
  }

  /** As written, every cell inside the grid collapses onto the origin. */
  lemma AsWrittenCollapsesToOrigin(c: Cell, width: int, height: int)
    requires width > 0 && height > 0
    requires InBounds(c, width, height)
    ensures GridToScreenAsWritten(c, width, height) == Origin
  {
  }

  /** Two opposite corners that the intended mapping separates land on the same point as written. */
  lemma AsWrittenCornersCoincide()
    ensures GridToScreenAsWritten(Cell(0, 0), 10, 10) == GridToScreenAsWritten(Cell(9, 9), 10, 10)
    ensures GridToScreen(Cell(0, 0), 10, 10) != GridToScreen(Cell(9, 9), 10, 10)
  {
    AsWrittenCollapsesToOrigin(Cell(0, 0), 10, 10);
    AsWrittenCollapsesToOrigin(Cell(9, 9), 10, 10);
    CornerCellsOnTenByTen();
  }

  /** The position of grid line `index` on an axis of `extent` cells, mapped onto -1..1. */
  function LineAxis(index: int, extent: int): (r: real)
    requires extent > 0
    ensures 0 < index < extent ==> -1.0 < r < 1.0
  {
    var n := extent as real;
    var a := index as real;
    assert 0 < index < extent ==> 0.0 < a / n < 1.0 by {
      if 0 < index < extent {
        DivBounds(a, n);
      }
    }
    (a / n) * 2.0 - 1.0
  }

  /** The first grid line is at -1 and the last (line `extent`) at +1. */
  lemma LineAxisEnds(extent: int)
    requires extent > 0
    ensures LineAxis(0, extent) == -1.0
    ensures LineAxis(extent, extent) == 1.0
  {
  }

  /** Vertical lines 0..count-1, each as two vertices from y = -1 to y = 1. */
  function VerticalLines(width: int, count: nat): (v: seq<real>)
    requires width > 0
    ensures |v| == 4 * count
  {
    if count == 0 then []
    else
      var x := LineAxis(count - 1, width);
      VerticalLines(width, count - 1) + [x, -1.0, x, 1.0]
  }

  /** Horizontal lines 0..count-1, each as two vertices from x = -1 to x = 1. */
  function HorizontalLines(height: int, count: nat): (v: seq<real>)
    requires height > 0
    ensures |v| == 4 * count
  {
    if count == 0 then []
    else
      var y := LineAxis(count - 1, height);
      HorizontalLines(height, count - 1) + [-1.0, y, 1.0, y]
  }

  /** The whole line list: width+1 vertical lines, then height+1 horizontal lines. */
  function LineVertices(width: int, height: int): (v: seq<real>)
    requires width > 0 && height > 0
    ensures |v| == 4 * (width + 1) + 4 * (height + 1)
  {
    VerticalLines(width, width + 1) + HorizontalLines(height, height + 1)
  }

  /** Vertical line i occupies floats 4i..4i+3 and spans the full height at LineAxis(i). */
  lemma {:induction false} VerticalLineAt(width: int, count: nat, i: int)
    requires width > 0 && 0 <= i < count
    ensures VerticalLines(width, count)[4 * i .. 4 * i + 4]
         == [LineAxis(i, width), -1.0, LineAxis(i, width), 1.0]
  {
    if i < count - 1 {
      VerticalLineAt(width, count - 1, i);
      var prev := VerticalLines(width, count - 1);
      assert VerticalLines(width, count)[..4 * (count - 1)] == prev;
    }
  }

  /** Horizontal line i occupies floats 4i..4i+3 and spans the full width at LineAxis(i). */
  lemma {:induction false} HorizontalLineAt(height: int, count: nat, i: int)
    requires height > 0 && 0 <= i < count
    ensures HorizontalLines(height, count)[4 * i .. 4 * i + 4]
         == [-1.0, LineAxis(i, height), 1.0, LineAxis(i, height)]
  {
    if i < count - 1 {
      HorizontalLineAt(height, count - 1, i);
      var prev := HorizontalLines(height, count - 1);
      assert HorizontalLines(height, count)[..4 * (count - 1)] == prev;
    }
  }

  /**
   * The line list has 4(w+1) + 4(h+1) floats, i.e. 2(w+1) + 2(h+1) vertices; it
   * starts with the left border at -1 and ends with the top border at +1.
   */
  lemma LineVerticesShape(width: int, height: int)
    requires width > 0 && height > 0
    ensures |LineVertices(width, height)| == 4 * (width + 1) + 4 * (height + 1)
    ensures |LineVertices(width, height)| / 2 == 2 * (width + 1) + 2 * (height + 1)
    ensures LineVertices(width, height)[0] == -1.0
    ensures LineVertices(width, height)[|LineVertices(width, height)| - 1] == 1.0
  {
    var v := VerticalLines(width, width + 1);
    var h := HorizontalLines(height, height + 1);
    VerticalLineAt(width, width + 1, 0);
    assert v[0] == v[0..4][0];
    LineAxisEnds(width);
    HorizontalLineAt(height, height + 1, height);
    assert h[|h| - 1] == h[4 * height .. 4 * height + 4][3];
    LineAxisEnds(height);
  }

  class Grid {
    const width: int
    const height: int
    /** Stored as given; neither the mapping nor the line geometry reads it. */
    const cellSize: real
    const buffer: Buffer

    predicate Valid()
    {
      width > 0 && height > 0
    }

    /** Stores the dimensions unvalidated and uploads the grid lines once. */
    constructor (width: int, height: int, cellSize: real)
      requires width > 0 && height > 0
      ensures Valid()
      ensures this.width == width && this.height == height && this.cellSize == cellSize
      ensures fresh(buffer) && buffer.Valid() && buffer.acquired && !buffer.released
      ensures buffer.data == LineVertices(width, height)
      ensures buffer.vertexCount == 2 * (width + 1) + 2 * (height + 1)
    {
      this.width := width;
      this.height := height;
      this.cellSize := cellSize;
      buffer := new Buffer();
      new;
      SetupBuffers();
      LineVerticesShape(width, height);
    }

    /** Builds the vertical then the horizontal line list and uploads it. */
    method SetupBuffers()
      requires Valid() && buffer.Valid()
      modifies buffer
      ensures buffer.Valid()
      ensures buffer.State() == Upload(old(buffer.State()), LineVertices(width, height))
      ensures buffer.acquired == old(buffer.acquired) && buffer.released == old(buffer.released)
    {
      var vertices: seq<real> := [];
      var i := 0;
      while i <= width
        invariant 0 <= i <= width + 1
        invariant vertices == VerticalLines(width, i)
      {
        var x := LineAxis(i, width);
        vertices := vertices + [x, -1.0, x, 1.0];
        i := i + 1;
      }
      i := 0;
      while i <= height
        invariant 0 <= i <= height + 1
        invariant vertices == VerticalLines(width, width + 1) + HorizontalLines(height, i)
      {
        var y := LineAxis(i, height);
        vertices := vertices + [-1.0, y, 1.0, y];
        i := i + 1;
      }
      buffer.SetData(vertices);
    }
  }
}
