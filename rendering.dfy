/** The geometry buffer: a vertex store of 2-float points and its cached vertex count. */
module Rendering {

  /** What a buffer holds: the uploaded floats and the vertex count it records. */
  datatype BufferState = BufferState(data: seq<real>, vertexCount: int)

  /** The stored layout: two floats per vertex (x then y), an odd trailing float dropped. */
  predicate Layout(s: BufferState)
  {
    s.vertexCount == |s.data| / 2
  }

  /** The state an upload of `vertices` leaves behind. */
  function Upload(s: BufferState, vertices: seq<real>): (r: BufferState)
    ensures Layout(s) || |vertices| > 0 ==> Layout(r)
  {
    if |vertices| == 0 then s else BufferState(vertices, |vertices| / 2)
  }

  /** An empty upload changes nothing. */
  lemma UploadEmptyIsNoOp(s: BufferState)
    ensures Upload(s, []) == s
  {
  }

  /** A non-empty upload replaces the contents: what was stored before does not contribute. */
  lemma UploadReplaces(s: BufferState, t: BufferState, vertices: seq<real>)
    requires |vertices| > 0
    ensures Upload(s, vertices) == Upload(t, vertices)
    ensures Upload(s, vertices).data == vertices
    ensures Upload(s, vertices).vertexCount == |vertices| / 2
  {
  }

  /** Uploading the same list twice is the same as uploading it once. */
  lemma UploadIdempotent(s: BufferState, vertices: seq<real>)
    ensures Upload(Upload(s, vertices), vertices) == Upload(s, vertices)
  {
  }

  /** Uploads keep the two-floats-per-vertex layout. */
  lemma UploadKeepsLayout(s: BufferState, vertices: seq<real>)
    requires Layout(s)
    ensures Layout(Upload(s, vertices))
  {
  }

  /** The x and y of vertex `k` of a stored state. */
  function VertexAt(s: BufferState, k: int): (p: (real, real))
    requires Layout(s) && 0 <= k < s.vertexCount
    ensures p.0 in s.data && p.1 in s.data
  {
    (s.data[2 * k], s.data[2 * k + 1])
  }

  class Buffer {
    var data: seq<real>
    var vertexCount: int
    /** The abstract GPU handles: acquired by construction, released by destruction. */
    var acquired: bool
    var released: bool

    ghost predicate Valid()
      reads this
    {
      Layout(State())
    }

    function State(): BufferState
      reads this
    {
      BufferState(data, vertexCount)
    }

    /** Construction acquires the handles; the store starts empty with count 0. */
    constructor ()
      ensures Valid()
      ensures data == [] && vertexCount == 0
      ensures acquired && !released
    {
      data := [];
      vertexCount := 0;
      acquired := true;
      released := false;
    }

    /** Destruction releases the handles exactly once. */
    method Release()
      requires acquired && !released
      modifies this
      ensures acquired && released
      ensures State() == old(State())
    {
      released := true;
    }

    /** Activates the layout for drawing; const, so nothing stored changes. */
    method Bind()
      ensures unchanged(this)
    {
    }

    /** Deactivates the layout; const, so nothing stored changes. */
    method Unbind()
      ensures unchanged(this)
    {
    }

    /** Uploads `vertices`: a no-op when empty, otherwise a full replace. */
    method SetData(vertices: seq<real>)
      requires Valid()
      modifies this
      ensures Valid()
      ensures State() == Upload(old(State()), vertices)
      ensures acquired == old(acquired) && released == old(released)
    {
      if |vertices| == 0 {
        return;
      }
      vertexCount := |vertices| / 2;
      data := vertices;
    }

    /** The stored count, which is the number of complete (x, y) pairs stored. */
    function GetVertexCount(): (n: int)
      requires Valid()
      reads this
      ensures n == |data| / 2
      ensures 0 <= n && 2 * n <= |data|
    {
      vertexCount
    }
  }
}
