/** A mesh's vertex and index data and the queries that read them on the
  * CPU: the vertex count used to compute the bounding box, and the
  * texture coordinates at a face's centre used to light grass. Vertex
  * data is a flat array of floats; the stride and the attribute offsets
  * are in bytes, as the graphics API expects. GPU upload and drawing are
  * not modelled. */
module Mesh {
  import opened Wrappers
  import opened Arith

  const FloatSize: nat := 4

  type Uint16 = x: nat | x < 0x1_0000

  datatype DrawMode = Lines | Triangles | TriangleStrip

  /** The stride of one vertex and the byte offsets of the attributes this
    * model reads; -1 marks an absent attribute. */
  datatype VertexAttributes = VertexAttributes(stride: nat, offCoords: int, offTexCoords1: int)

  datatype Mesh = Mesh(
    vertices: seq<real>,
    indices: seq<Uint16>,
    attributes: VertexAttributes,
    mode: DrawMode,
    vertexCount: nat)

  // ---------------------------------------------------------------------
  // Vertex count

  /** The vertex count as the engine computes it: the number of floats is
    * divided by the stride in bytes and then by the size of a float. */
  function VertexCountAsWritten(floats: nat, stride: nat): nat
    requires stride > 0
  {
    floats / stride / FloatSize
  }

  /** The number of whole vertices in `floats` floats: the byte size of the
    * data divided by the stride in bytes. */
  function VertexCount(floats: nat, stride: nat): (n: nat)
    requires stride > 0
    ensures n * stride <= floats * FloatSize < (n + 1) * stride
  {
    floats * FloatSize / stride
  }

  /** Data made of `n` whole vertices of `k` floats each holds `n`
    * vertices. */
  lemma VertexCountOfWholeVertices(n: nat, k: nat)
    requires k > 0
    ensures VertexCount(n * k, k * FloatSize) == n
  {
    assert n * k * FloatSize == n * (k * FloatSize);
  }

  /** Three vertices of three floats each: the engine counts none of them,
    * so the bounding box is computed from no vertex at all. */
  lemma VertexCountUndercounts()
    ensures VertexCountAsWritten(9, 12) == 0
    ensures VertexCount(9, 12) == 3
  {
  }

  /** The engine's count never exceeds the number of whole vertices. */
  lemma VertexCountAsWrittenBelow(floats: nat, stride: nat)
    requires stride > 0
    ensures VertexCountAsWritten(floats, stride) <= VertexCount(floats, stride)
  {
    var q := floats / stride;
    assert q * stride <= floats;
    assert q * stride <= floats * FloatSize;
    DivLowerBound(q, floats * FloatSize, stride);
  }

  /** A multiple of `d` no larger than `y` is at most `y / d` times `d`. */
  lemma DivLowerBound(x: nat, y: nat, d: nat)
    requires d > 0 && x * d <= y
    ensures x <= y / d
  {
    var q := y / d;
    assert y == q * d + y % d;
    if x > q {
      MulMono(q + 1, x, d);
    }
  }

  lemma MulMono(a: nat, b: nat, c: nat)
    requires a <= b
    ensures a * c <= b * c
  {
  }

  // ---------------------------------------------------------------------
  // Construction

  /** A mesh of the given data; a zero stride is an invalid argument. */
  function NewMesh(vertices: seq<real>, indices: seq<Uint16>, attributes: VertexAttributes, mode: DrawMode): (r: Result<Mesh>)
    ensures r.Err? <==> attributes.stride == 0
    ensures r.Err? ==> r.error == InvalidArgument
    ensures r.Ok? ==> r.value.vertices == vertices && r.value.indices == indices
                      && r.value.attributes == attributes && r.value.mode == mode
    ensures r.Ok? ==> r.value.vertexCount * attributes.stride <= |vertices| * FloatSize
  {
    if attributes.stride == 0 then Err(InvalidArgument)
    else Ok(Mesh(vertices, indices, attributes, mode, VertexCount(|vertices|, attributes.stride)))
  }

  /** The index, in floats, of the first coordinate of each vertex that the
    * bounding box is computed from. */
  function BoundingBoxVertices(m: Mesh): (r: seq<int>)
    requires m.attributes.stride > 0
    ensures |r| == m.vertexCount
  {
    seq(m.vertexCount, i requires 0 <= i < m.vertexCount =>
      (i * m.attributes.stride + m.attributes.offCoords) / FloatSize)
  }

  /** With the corrected count, every coordinate the bounding box reads
    * lies in the vertex data, provided the position is a whole attribute
    * inside the vertex. */
  lemma BoundingBoxReadsInside(vertices: seq<real>, indices: seq<Uint16>, attributes: VertexAttributes, mode: DrawMode, i: nat)
    requires attributes.stride > 0
    requires 0 <= attributes.offCoords && attributes.offCoords + 3 * FloatSize <= attributes.stride
    requires attributes.offCoords % FloatSize == 0
    requires i < VertexCount(|vertices|, attributes.stride)
    ensures var m := NewMesh(vertices, indices, attributes, mode).value;
            0 <= BoundingBoxVertices(m)[i] && BoundingBoxVertices(m)[i] + 3 <= |vertices|
  {
    var m := NewMesh(vertices, indices, attributes, mode).value;
    var s := attributes.stride;
    var off := attributes.offCoords;
    var byteOffset := i * s + off;
    assert (i + 1) * s <= |vertices| * FloatSize by {
      MulMono(i + 1, m.vertexCount, s);
    }
    assert byteOffset + 3 * FloatSize <= |vertices| * FloatSize;
    var p := byteOffset / FloatSize;
    assert BoundingBoxVertices(m)[i] == p;
    assert p * FloatSize <= byteOffset;
  }

  // ---------------------------------------------------------------------
  // Face centre UV

  datatype UV = UV(u: real, v: real)

  function Clamp01(x: real): (r: real)
    ensures 0.0 <= r <= 1.0
    ensures 0.0 <= x <= 1.0 ==> r == x
  {
    ClampReal(x, 0.0, 1.0)
  }

  /** The index, in floats, of the texture coordinates of the `i`-th corner
    * of face `face`. */
  function CornerUV(m: Mesh, face: nat, i: nat): int
    requires 3 * face + i < |m.indices|
  {
    (m.indices[3 * face + i] * m.attributes.stride + m.attributes.offTexCoords1) / FloatSize
  }

  /** Every texture coordinate the face reads is in the vertex data; the
    * engine does not check this. */
  predicate CornersReadable(m: Mesh, face: nat)
    requires 3 * face + 2 < |m.indices|
  {
    forall i :: 0 <= i < 3 ==> 0 <= CornerUV(m, face, i) && CornerUV(m, face, i) + 1 < |m.vertices|
  }

  /** The checks the engine makes before reading a face: a face of a
    * triangle list, in range, of a mesh with texture coordinates. */
  predicate FaceReadable(m: Mesh, face: int) {
    m.mode == Triangles && 0 <= face < |m.indices| / 3 && m.attributes.offTexCoords1 != -1
  }

  /** The mean of the three corner coordinates of a face. */
  function FaceMeanUV(m: Mesh, face: nat): UV
    requires 3 * face + 2 < |m.indices| && CornersReadable(m, face)
  {
    var a := CornerUV(m, face, 0);
    var b := CornerUV(m, face, 1);
    var c := CornerUV(m, face, 2);
    UV((m.vertices[a] + m.vertices[b] + m.vertices[c]) / 3.0,
       (m.vertices[a + 1] + m.vertices[b + 1] + m.vertices[c + 1]) / 3.0)
  }

  /** The texture coordinates at the centre of face `face`: a logic error
    * unless the mesh is a triangle list, out of range for a face index
    * outside [0, #indices / 3), zero without texture coordinates, and
    * otherwise the mean of the three corners clamped to [0, 1]. */
  function GetFaceCenterUV(m: Mesh, face: int): (r: Result<UV>)
    requires FaceReadable(m, face) ==> CornersReadable(m, face)
    ensures m.mode != Triangles <==> r == Err(LogicError)
    ensures m.mode == Triangles && (face < 0 || face >= |m.indices| / 3) <==> r == Err(OutOfRange)
    ensures r.Ok? ==> 0.0 <= r.value.u <= 1.0 && 0.0 <= r.value.v <= 1.0
    ensures r.Ok? && m.attributes.offTexCoords1 == -1 ==> r.value == UV(0.0, 0.0)
    ensures FaceReadable(m, face) ==> r.Ok?
    ensures FaceReadable(m, face) && 0.0 <= FaceMeanUV(m, face).u <= 1.0 ==> r.value.u == FaceMeanUV(m, face).u
    ensures FaceReadable(m, face) && 0.0 <= FaceMeanUV(m, face).v <= 1.0 ==> r.value.v == FaceMeanUV(m, face).v
  {
    if m.mode != Triangles then Err(LogicError)
    else if face < 0 || face >= |m.indices| / 3 then Err(OutOfRange)
    else if m.attributes.offTexCoords1 == -1 then Ok(UV(0.0, 0.0))
    else
      var mean := FaceMeanUV(m, face);
      Ok(UV(Clamp01(mean.u), Clamp01(mean.v)))
  }

  /** A face whose three corners share the same coordinates in [0, 1] has
    * exactly those coordinates at its centre. */
  lemma UniformFaceCenter(m: Mesh, face: nat)
    requires FaceReadable(m, face) && CornersReadable(m, face)
    requires var a := CornerUV(m, face, 0);
             var b := CornerUV(m, face, 1);
             var c := CornerUV(m, face, 2);
             m.vertices[a] == m.vertices[b] == m.vertices[c]
             && m.vertices[a + 1] == m.vertices[b + 1] == m.vertices[c + 1]
             && 0.0 <= m.vertices[a] <= 1.0 && 0.0 <= m.vertices[a + 1] <= 1.0
    ensures GetFaceCenterUV(m, face) == Ok(UV(m.vertices[CornerUV(m, face, 0)], m.vertices[CornerUV(m, face, 0) + 1]))
  {
  }
}
