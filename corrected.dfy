/** The cube `build_cube` is meant to build: every face takes its six
    vertices from the table, read as `square[(i % 6) * 2]` and
    `square[(i % 6) * 2 + 1]`. As written, every face after the front reads
    with the shared counter itself and so runs past the end of the table;
    this module states the intended output, what it satisfies, and how far
    the written output is from it. */
module Corrected {
  import opened Geometry
  import opened Ogl
  import opened CubeProperties

  /** Vertex i as intended: the (i % 6)-th template point of the table,
      placed on vertex i's face. */
  function IntendedVertex(i: nat): Vec3
    requires i < VertexCount
  {
    Place(FaceOf(i), Square[2 * (i % 6)], Square[2 * (i % 6) + 1])
  }

  /** The 108 floats the intended generator leaves in `*points`. */
  function IntendedPoints(): (s: seq<real>)
    ensures |s| == BufferLength
    ensures forall j :: 0 <= j < VertexCount ==> VertexIn(s, j) == IntendedVertex(j)
  {
    Flatten(seq(VertexCount, j requires 0 <= j < VertexCount => IntendedVertex(j)))
  }

  /** Every intended vertex is a corner of the cube lying on its own face. */
  lemma IntendedOnSurface(i: nat)
    requires i < VertexCount
    ensures IsCorner(IntendedVertex(i)) && InBox(IntendedVertex(i))
    ensures Dot(IntendedVertex(i), Normal(FaceOf(i))) == 0.5
  {
    SquareEntries();
    PlaceOnFace(FaceOf(i), Square[2 * (i % 6)], Square[2 * (i % 6) + 1]);
  }

  /** Vertex k of the b-th face block, as intended. */
  function FaceVertex(b: nat, k: nat): Vec3
    requires b < 6 && k < 6
  {
    IntendedVertex(6 * b + k)
  }

  /** The k-th vertex of every intended face is the k-th template point of
      the table, placed on that face. */
  lemma FaceVertexFromTable(b: nat, k: nat)
    requires b < 6 && k < 6
    ensures FaceVertex(b, k) == Place(FillOrder[b], Square[2 * k], Square[2 * k + 1])
  {
    FaceBlocks(6 * b + k);
    assert (6 * b + k) / 6 == b && (6 * b + k) % 6 == k;
  }

  /** The first four vertices of an intended face are four different
      points. */
  lemma FaceCornersDistinct(b: nat, k: nat, l: nat)
    requires b < 6 && k < l < 4
    ensures FaceVertex(b, k) != FaceVertex(b, l)
  {
    FaceVertexFromTable(b, k);
    FaceVertexFromTable(b, l);
    PlaceInjective(FillOrder[b], Square[2 * k], Square[2 * k + 1], Square[2 * l], Square[2 * l + 1]);
  }

  /** The two intended triangles of a face share the diagonal (vertices
      1 = 5 and 2 = 4), and its first four vertices are four different
      points: together the six vertices tile the face. */
  lemma IntendedFaceTiles(b: nat)
    requires b < 6
    ensures FaceVertex(b, 1) == FaceVertex(b, 5) && FaceVertex(b, 2) == FaceVertex(b, 4)
    ensures forall k, l :: 0 <= k < l < 4 ==> FaceVertex(b, k) != FaceVertex(b, l)
  {
    forall k, l | 0 <= k < l < 4
      ensures FaceVertex(b, k) != FaceVertex(b, l)
    {
      FaceCornersDistinct(b, k, l);
    }
    FaceVertexFromTable(b, 1);
    FaceVertexFromTable(b, 5);
    FaceVertexFromTable(b, 2);
    FaceVertexFromTable(b, 4);
  }

  /** Every intended triangle winds counter-clockwise seen from outside:
      the cross product of its edges is the normal written for its face, so
      face winding and written normals agree. */
  lemma IntendedWinding(b: nat, t: nat)
    requires b < 6 && t < 2
    ensures Cross(Sub(FaceVertex(b, 3 * t + 1), FaceVertex(b, 3 * t)),
                  Sub(FaceVertex(b, 3 * t + 2), FaceVertex(b, 3 * t)))
        == Normal(FillOrder[b])
  {
    var f := FillOrder[b];
    var u0, v0, u1, v1, u2, v2 := Square[6 * t], Square[6 * t + 1], Square[6 * t + 2],
                                  Square[6 * t + 3], Square[6 * t + 4], Square[6 * t + 5];
    SquareCounterClockwise(t);
    PlaceWinding(f, u0, v0, u1, v1, u2, v2);
    assert Scale(Turn(u0, v0, u1, v1, u2, v2), Normal(f)) == Normal(f);
    FaceVertexFromTable(b, 3 * t);
    FaceVertexFromTable(b, 3 * t + 1);
    FaceVertexFromTable(b, 3 * t + 2);
  }

  /** Memory whose floats past the table are all zero. */
  function ZerosAfterSquare(): (mem: seq<real>)
    ensures |mem| == ReadExtent
  {
    Square + seq(ReadExtent - |Square|, _ => 0.0)
  }

  /** As written, the back face's first vertex reads square[12] and
      square[13], past the end of the table: with zeros there it is
      (0, 0, -0.5), the centre of the back face rather than a corner, and
      not the intended vertex (0.5, -0.5, -0.5); the whole first back
      triangle collapses to that point. */
  lemma BackFaceReadsPastTable()
    ensures StartsWithSquare(ZerosAfterSquare())
    ensures WrittenVertex(6, ZerosAfterSquare()) == Vec3(0.0, 0.0, -0.5)
    ensures !IsCorner(WrittenVertex(6, ZerosAfterSquare()))
    ensures IntendedVertex(6) == Vec3(0.5, -0.5, -0.5)
    ensures WrittenVertex(7, ZerosAfterSquare()) == WrittenVertex(6, ZerosAfterSquare())
    ensures WrittenVertex(8, ZerosAfterSquare()) == WrittenVertex(6, ZerosAfterSquare())
  {
    var mem := ZerosAfterSquare();
    assert mem[..|Square|] == Square;
    assert mem[12] == 0.0 && mem[13] == 0.0 && mem[14] == 0.0 && mem[15] == 0.0;
    assert mem[16] == 0.0 && mem[17] == 0.0;
  }

  /** Two buffers of 36 vertices with the same vertices are equal. */
  lemma EqualByVertices(a: seq<real>, b: seq<real>)
    requires |a| == BufferLength && |b| == BufferLength
    requires forall j :: 0 <= j < VertexCount ==> VertexIn(a, j) == VertexIn(b, j)
    ensures a == b
  {
    forall k | 0 <= k < BufferLength
      ensures a[k] == b[k]
    {
      var j := k / 3;
      assert VertexIn(a, j) == VertexIn(b, j);
    }
  }

  /** Offset 2 * (i % 6) in the table is offset 2i of the table repeated. */
  lemma RepeatedOffset(i: nat)
    ensures 2 * (i % 6) == (2 * i) % 12 && 2 * (i % 6) + 1 == (2 * i + 1) % 12
  {
  }

  /** A written vertex is the intended one exactly when the two floats it
      reads are the ones the intended read would find at the same offset
      of a repeated table. */
  lemma VertexMatchesIff(mem: seq<real>, i: nat)
    requires StartsWithSquare(mem) && i < VertexCount
    ensures WrittenVertex(i, mem) == IntendedVertex(i)
        <==> mem[2 * i] == Square[(2 * i) % 12] && mem[2 * i + 1] == Square[(2 * i + 1) % 12]
  {
    RepeatedOffset(i);
    PlaceInjective(FaceOf(i), mem[2 * i], mem[2 * i + 1], Square[2 * (i % 6)], Square[2 * (i % 6) + 1]);
  }

  /** If the written positions are the intended ones, the memory past the
      table repeats the table. */
  lemma MatchImpliesRepeated(mem: seq<real>, k: nat)
    requires StartsWithSquare(mem) && CubePoints(mem) == IntendedPoints()
    requires |Square| <= k < ReadExtent
    ensures mem[k] == Square[k % 12]
  {
    var i := k / 2;
    assert VertexIn(CubePoints(mem), i) == VertexIn(IntendedPoints(), i);
    VertexMatchesIff(mem, i);
    assert k == 2 * i || k == 2 * i + 1;
  }

  /** If the memory past the table repeats the table, each written vertex
      is the intended one. */
  lemma VertexFromRepeated(mem: seq<real>, j: nat)
    requires StartsWithSquare(mem) && j < VertexCount
    requires forall k :: |Square| <= k < ReadExtent ==> mem[k] == Square[k % 12]
    ensures WrittenVertex(j, mem) == IntendedVertex(j)
  {
    if j < 6 {
      assert mem[2 * j] == mem[..|Square|][2 * j];
      assert mem[2 * j + 1] == mem[..|Square|][2 * j + 1];
    } else {
      assert mem[2 * j] == Square[(2 * j) % 12];
      assert mem[2 * j + 1] == Square[(2 * j + 1) % 12];
    }
    VertexMatchesIff(mem, j);
  }

  /** If the memory past the table repeats the table, the written positions
      are the intended ones. */
  lemma RepeatedImpliesMatch(mem: seq<real>)
    requires StartsWithSquare(mem)
    requires forall k :: |Square| <= k < ReadExtent ==> mem[k] == Square[k % 12]
    ensures CubePoints(mem) == IntendedPoints()
  {
    forall j | 0 <= j < VertexCount
      ensures VertexIn(CubePoints(mem), j) == VertexIn(IntendedPoints(), j)
    {
      VertexFromRepeated(mem, j);
    }
    EqualByVertices(CubePoints(mem), IntendedPoints());
  }

  /** The generator as written leaves the intended positions exactly when
      the memory past the table repeats the table, that is when reading
      square[2i] agrees with reading square[(i % 6) * 2] for every i. */
  lemma MatchesIntendedIff(mem: seq<real>)
    requires StartsWithSquare(mem)
    ensures CubePoints(mem) == IntendedPoints()
        <==> forall k :: |Square| <= k < ReadExtent ==> mem[k] == Square[k % 12]
  {
    if CubePoints(mem) == IntendedPoints() {
      forall k | |Square| <= k < ReadExtent
        ensures mem[k] == Square[k % 12]
      {
        MatchImpliesRepeated(mem, k);
      }
    }
    if forall k :: |Square| <= k < ReadExtent ==> mem[k] == Square[k % 12] {
      RepeatedImpliesMatch(mem);
    }
  }
}
