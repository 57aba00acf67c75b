/** What the generator's output is, proved about the functions that
    `Ogl.BuildCube` is specified by: which face each vertex belongs to, the
    normals, the pinned coordinates, the front face, and where the reads of
    `square` land. */
module CubeProperties {
  import opened Geometry
  import opened Ogl

  /** The faces in the order the loops fill them. */
  const FillOrder: seq<Face> := [Front, Back, Left, Right, Top, Bottom]

  /** Vertex i belongs to the (i / 6)-th face of the fill order, so every
      block of six vertices is one face and no two blocks share one. */
  lemma FaceBlocks(i: nat)
    requires i < VertexCount
    ensures FaceOf(i) == FillOrder[i / 6]
    ensures forall j :: 0 <= j < VertexCount && FaceOf(j) == FaceOf(i) ==> j / 6 == i / 6
  {
  }

  /** Read against the log of written slots `Ogl.BuildCube` returns: every
      slot below 108 is in the log, at exactly one position (entry k), and
      no slot at or above 108 is. */
  lemma WrittenOnce(slots: seq<nat>, k: nat)
    requires Counts(slots, 0, BufferLength) && k < BufferLength
    ensures k in slots
    ensures forall j :: 0 <= j < |slots| && slots[j] == k ==> j == k
    ensures forall s :: s in slots ==> s < BufferLength
  {
    assert slots[k] == k;
  }

  /** Whatever lies past the table, every written vertex keeps its face's
      pinned coordinate: z = 0.5 front, z = -0.5 back, x = -0.5 left,
      x = 0.5 right, y = 0.5 top, y = -0.5 bottom. */
  lemma PinnedCoordinate(i: nat, mem: seq<real>)
    requires i < VertexCount && |mem| == ReadExtent
    ensures Dot(WrittenVertex(i, mem), Normal(FaceOf(i))) == 0.5
    ensures match FaceOf(i)
      case Front => WrittenVertex(i, mem).z == 0.5
      case Back => WrittenVertex(i, mem).z == -0.5
      case Left => WrittenVertex(i, mem).x == -0.5
      case Right => WrittenVertex(i, mem).x == 0.5
      case Top => WrittenVertex(i, mem).y == 0.5
      case Bottom => WrittenVertex(i, mem).y == -0.5
  {
    PlaceOnFace(FaceOf(i), mem[2 * i], mem[2 * i + 1]);
  }

  /** The normals buffer holds, for every vertex, the normal of its face:
      the same axis-aligned unit vector for all six vertices of a block. */
  lemma NormalsPerBlock(j: nat)
    requires j < VertexCount
    ensures VertexIn(CubeNormals(), j) == Normal(FillOrder[j / 6])
    ensures IsAxisUnit(VertexIn(CubeNormals(), j))
  {
    FaceBlocks(j);
    NormalIsAxisUnit(FaceOf(j));
  }

  /** The front face reads only the table: vertex i is
      (square[2i], square[2i + 1], 0.5), a corner of the cube. */
  lemma FrontFaceFromTable(i: nat, mem: seq<real>)
    requires i < 6 && StartsWithSquare(mem)
    ensures WrittenVertex(i, mem) == Vec3(Square[2 * i], Square[2 * i + 1], 0.5)
    ensures IsCorner(WrittenVertex(i, mem)) && InBox(WrittenVertex(i, mem))
    ensures WrittenVertex(0, mem) == Vec3(-0.5, -0.5, 0.5)
  {
    assert mem[2 * i] == mem[..|Square|][2 * i];
    assert mem[2 * i + 1] == mem[..|Square|][2 * i + 1];
    assert mem[0] == mem[..|Square|][0] && mem[1] == mem[..|Square|][1];
  }

  /** As written, both front-face triangles wind counter-clockwise seen
      from outside: the cross product of their edges is the front normal
      (0, 0, 1) the loop writes for them. */
  lemma FrontFaceWinding(mem: seq<real>, t: nat)
    requires StartsWithSquare(mem) && t < 2
    ensures Cross(Sub(WrittenVertex(3 * t + 1, mem), WrittenVertex(3 * t, mem)),
                  Sub(WrittenVertex(3 * t + 2, mem), WrittenVertex(3 * t, mem)))
        == Normal(Front)
  {
    FrontFaceFromTable(3 * t, mem);
    FrontFaceFromTable(3 * t + 1, mem);
    FrontFaceFromTable(3 * t + 2, mem);
    SquareCounterClockwise(t);
    PlaceWinding(Front, Square[6 * t], Square[6 * t + 1], Square[6 * t + 2], Square[6 * t + 3],
                 Square[6 * t + 4], Square[6 * t + 5]);
  }

  /** Only the front face reads inside the table: vertex i reads entries
      below 12 exactly when i < 6. */
  lemma InBoundsOnlyAtFront(i: nat)
    requires i < VertexCount
    ensures (forall k :: k in TableIndices(i) ==> k < |Square|) <==> i < 6
  {
    assert 2 * i + 1 in TableIndices(i);
  }

  /** The entries of `square` read by the five faces after the front. */
  function ReadAfterFront(): set<nat> {
    set i: nat, k: nat | 6 <= i < VertexCount && k in TableIndices(i) :: k
  }

  /** The five faces after the front read square[12] through square[71],
      every one of them, and nothing else. */
  lemma ReadsPastTheEnd()
    ensures forall k: nat :: k in ReadAfterFront() <==> |Square| <= k < ReadExtent
  {
    forall k: nat | |Square| <= k < ReadExtent
      ensures k in ReadAfterFront()
    {
      var i := k / 2;
      assert k in TableIndices(i);
    }
  }

  /** A vertex depends on the two entries it reads and on nothing else. */
  lemma ReadsDecideVertex(i: nat, m1: seq<real>, m2: seq<real>)
    requires i < VertexCount && |m1| == ReadExtent && |m2| == ReadExtent
    ensures (forall k :: k in TableIndices(i) ==> m1[k] == m2[k])
        <==> WrittenVertex(i, m1) == WrittenVertex(i, m2)
  {
    PlaceInjective(FaceOf(i), m1[2 * i], m1[2 * i + 1], m2[2 * i], m2[2 * i + 1]);
    assert 2 * i in TableIndices(i) && 2 * i + 1 in TableIndices(i);
  }

  /** The sum of the first n normals in the buffer `*normals` holds once
      the generator is done. */
  function SumNormals(n: nat): Vec3
    requires n <= VertexCount
  {
    if n == 0 then Zero else Add(SumNormals(n - 1), VertexIn(CubeNormals(), n - 1))
  }

  /** The running sum of the normals after n vertices: it climbs along the
      front normal and back to zero over the back face, and likewise for
      left and right, top and bottom. */
  function RunningSum(n: nat): Vec3
    requires n <= VertexCount
  {
    var r := n as real;
    if n <= 6 then Vec3(0.0, 0.0, r)
    else if n <= 12 then Vec3(0.0, 0.0, 12.0 - r)
    else if n <= 18 then Vec3(12.0 - r, 0.0, 0.0)
    else if n <= 24 then Vec3(r - 24.0, 0.0, 0.0)
    else if n <= 30 then Vec3(0.0, r - 24.0, 0.0)
    else Vec3(0.0, 36.0 - r, 0.0)
  }

  /** Each vertex moves the running sum by its own normal. */
  lemma RunningStep(n: nat)
    requires 0 < n <= VertexCount
    ensures RunningSum(n) == Add(RunningSum(n - 1), Normal(FaceOf(n - 1)))
  {
  }

  /** The running sum is the sum of the normals written so far. */
  lemma {:induction false} SumPrefix(n: nat)
    requires n <= VertexCount
    ensures SumNormals(n) == RunningSum(n)
  {
    if n > 0 {
      SumPrefix(n - 1);
      RunningStep(n);
    }
  }

  /** The 36 normals written cancel: opposite faces come in consecutive
      pairs. */
  lemma NormalsSumToZero()
    ensures SumNormals(VertexCount) == Zero
  {
    SumPrefix(VertexCount);
  }
}
