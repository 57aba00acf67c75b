/** The cube generator `build_cube` and the quad table `square` it reads
    (ogl.c). The generator writes 36 vertices, six per face, into two
    caller-owned buffers of 108 floats: three per vertex for the position,
    three for the normal. */
module Ogl {
  import opened Geometry

  /** The table `square`: six 2D vertices, a lower and an upper triangle
      covering [-0.5, 0.5] x [-0.5, 0.5]. */
  const Square: seq<real> := [
    -0.5, -0.5,
     0.5, -0.5,
    -0.5,  0.5,
     0.5,  0.5,
    -0.5,  0.5,
     0.5, -0.5
  ]

  const VertexCount: nat := 36
  const BufferLength: nat := 108

  /** How many floats the generator reads starting at `square`: the counter
      is never reset, so the last vertex reads square[71], sixty floats past
      the end of the table. */
  const ReadExtent: nat := 72

  /** The table holds twelve entries, each one half. */
  lemma SquareEntries()
    ensures |Square| == 12
    ensures forall k :: 0 <= k < |Square| ==> IsHalf(Square[k])
  {
  }

  /** Both triangles of the table run counter-clockwise, with twice the
      signed area 1: each is half of the unit square. */
  lemma SquareCounterClockwise(t: nat)
    requires t < 2
    ensures Turn(Square[6 * t], Square[6 * t + 1], Square[6 * t + 2], Square[6 * t + 3],
                 Square[6 * t + 4], Square[6 * t + 5]) == 1.0
  {
  }

  /** Memory read through `square`: the table's twelve entries, then
      whatever floats follow it. The language leaves reads past the table
      undefined; the model only asks that they yield some value. */
  ghost predicate StartsWithSquare(mem: seq<real>) {
    |mem| == ReadExtent && mem[..|Square|] == Square
  }

  /** The face vertex i belongs to: the six loops cover consecutive
      blocks of six. */
  function FaceOf(i: nat): Face
    requires i < VertexCount
  {
    if i < 6 then Front
    else if i < 12 then Back
    else if i < 18 then Left
    else if i < 24 then Right
    else if i < 30 then Top
    else Bottom
  }

  /** The entries of `square` that vertex i reads: every face reads both
      `square[i * 2]` and `square[i * 2 + 1]`. */
  function TableIndices(i: nat): set<nat> {
    {2 * i, 2 * i + 1}
  }

  /** Vertex i as the generator writes it, reading square[2i] and
      square[2i + 1] with the shared counter i. */
  function WrittenVertex(i: nat, mem: seq<real>): Vec3
    requires i < VertexCount && |mem| == ReadExtent
  {
    Place(FaceOf(i), mem[2 * i], mem[2 * i + 1])
  }

  /** Vertex j of a buffer laid out as consecutive (x, y, z) triples. */
  function VertexIn(buf: seq<real>, j: nat): Vec3
    requires 3 * j + 2 < |buf|
  {
    Vec3(buf[3 * j], buf[3 * j + 1], buf[3 * j + 2])
  }

  /** A buffer of consecutive (x, y, z) triples, one per vertex. */
  function Flatten(vs: seq<Vec3>): (buf: seq<real>)
    ensures |buf| == 3 * |vs|
    ensures forall j :: 0 <= j < |vs| ==> VertexIn(buf, j) == vs[j]
  {
    if |vs| == 0 then []
    else
      var front, last := Flatten(vs[..|vs| - 1]), vs[|vs| - 1];
      assert forall j :: 0 <= j < |vs| - 1 ==> VertexIn(front, j) == vs[..|vs| - 1][j];
      front + [last.x, last.y, last.z]
  }

  /** The 36 vertices in the order the generator writes them. */
  function WrittenVertices(mem: seq<real>): (vs: seq<Vec3>)
    requires |mem| == ReadExtent
    ensures |vs| == VertexCount
  {
    seq(VertexCount, j requires 0 <= j < VertexCount => WrittenVertex(j, mem))
  }

  /** The 108 floats the generator leaves in `*points`. */
  function CubePoints(mem: seq<real>): (s: seq<real>)
    requires |mem| == ReadExtent
    ensures |s| == BufferLength
    ensures forall j :: 0 <= j < VertexCount ==> VertexIn(s, j) == WrittenVertex(j, mem)
  {
    Flatten(WrittenVertices(mem))
  }

  /** The normal of each of the 36 vertices. */
  function VertexNormals(): (ns: seq<Vec3>)
    ensures |ns| == VertexCount
  {
    seq(VertexCount, j requires 0 <= j < VertexCount => Normal(FaceOf(j)))
  }

  /** The 108 floats the generator leaves in `*normals`. */
  function CubeNormals(): (s: seq<real>)
    ensures |s| == BufferLength
    ensures forall j :: 0 <= j < VertexCount ==> VertexIn(s, j) == Normal(FaceOf(j))
  {
    Flatten(VertexNormals())
  }

  /** `visited` lists lo, lo + 1, ..., hi - 1 in increasing order. */
  ghost predicate Counts(visited: seq<nat>, lo: nat, hi: nat) {
    lo <= hi && |visited| == hi - lo && forall k :: 0 <= k < |visited| ==> visited[k] == lo + k
  }

  /** Counting from lo to mid and then on to hi counts from lo to hi. */
  lemma CountsAppend(a: seq<nat>, b: seq<nat>, lo: nat, mid: nat, hi: nat)
    requires Counts(a, lo, mid) && Counts(b, mid, hi)
    ensures Counts(a + b, lo, hi)
  {
  }

  /** A list that counts from lo to hi - 1 holds exactly the numbers in
      that range. */
  lemma CountsMembers(visited: seq<nat>, lo: nat, hi: nat)
    requires Counts(visited, lo, hi)
    ensures forall k :: k in visited <==> lo <= k < hi
  {
    forall k | lo <= k < hi
      ensures k in visited
    {
      assert visited[k - lo] == k;
    }
  }

  /** The two output buffers and the memory read through `square`. Reads
      past the table are undefined in C; keeping `memory` apart from both
      buffers is a choice of this model, so that the writes never change
      what is read. It leaves out an output buffer lying right after
      `square`. */
  ghost predicate Buffers(points: array<real>, normals: array<real>, memory: array<real>)
    reads {}
  {
    && points.Length == BufferLength && normals.Length == BufferLength
    && memory.Length == ReadExtent
    && memory != points && memory != normals
  }

  /** `ps` lays out the vertices of the generator's positions. This and
      `IsCubeNormals` restate the ensures of `CubePoints` and `CubeNormals`
      so that the face methods can take the final buffers as plain ghost
      sequences, without unfolding those functions inside every loop. */
  ghost predicate IsCubePoints(ps: seq<real>, mem: seq<real>)
    requires |mem| == ReadExtent
  {
    |ps| == BufferLength && forall j :: 0 <= j < VertexCount ==> VertexIn(ps, j) == WrittenVertex(j, mem)
  }

  /** `ns` lays out the normals of the generator's vertices. */
  ghost predicate IsCubeNormals(ns: seq<real>) {
    |ns| == BufferLength && forall j :: 0 <= j < VertexCount ==> VertexIn(ns, j) == Normal(FaceOf(j))
  }

  /** The slots of the first n vertices hold their final values `ps` and
      `ns`. When the two buffers are one array, each normal overwrites its
      position. */
  ghost predicate Filled(points: array<real>, normals: array<real>, n: nat, ps: seq<real>, ns: seq<real>)
    reads points, normals
    requires points.Length == BufferLength && normals.Length == BufferLength
    requires n <= VertexCount && |ps| == BufferLength && |ns| == BufferLength
  {
    && (forall k :: 0 <= k < 3 * n ==> normals[k] == ns[k])
    && (points != normals ==> forall k :: 0 <= k < 3 * n ==> points[k] == ps[k])
  }

  /** Once all 36 vertices are filled the buffers hold `ps` and `ns`
      entirely. */
  lemma FilledComplete(points: array<real>, normals: array<real>, ps: seq<real>, ns: seq<real>)
    requires points.Length == BufferLength && normals.Length == BufferLength
    requires |ps| == BufferLength && |ns| == BufferLength
    requires Filled(points, normals, VertexCount, ps, ns)
    ensures normals[..] == ns
    ensures points != normals ==> points[..] == ps
  {
  }

  /** The front-face loop `for (; i < 6; ++i)`, entered with the shared
      counter at `start` and leaving it at 6. */
  method FrontFace(points: array<real>, normals: array<real>, memory: array<real>, start: nat, ghost ps: seq<real>, ghost ns: seq<real>)
      returns (i: nat, ghost visited: seq<nat>, ghost slots: seq<nat>)
    requires Buffers(points, normals, memory)
    requires IsCubePoints(ps, memory[..]) && IsCubeNormals(ns)
    requires start <= 6 && Filled(points, normals, start, ps, ns)
    modifies points, normals
    ensures i == 6 && Filled(points, normals, 6, ps, ns)
    ensures Counts(visited, start, 6) && Counts(slots, start * 3, 6 * 3)
    // every slot the loop does not write keeps its value
    ensures forall k :: 0 <= k < BufferLength && k !in slots ==> points[k] == old(points[k]) && normals[k] == old(normals[k])
  {
    i, visited, slots := start, [], [];
    while i < 6
      invariant start <= i <= 6
      invariant forall k :: 0 <= k < i * 3 ==> normals[k] == ns[k]
      invariant points != normals ==> forall k :: 0 <= k < i * 3 ==> points[k] == ps[k]
      invariant Counts(visited, start, i) && Counts(slots, start * 3, i * 3)
      invariant forall k :: 0 <= k < BufferLength && !(start * 3 <= k < i * 3) ==> points[k] == old(points[k]) && normals[k] == old(normals[k])
    {
      assert VertexIn(ps, i) == WrittenVertex(i, memory[..]) && VertexIn(ns, i) == Normal(FaceOf(i));
      points[i * 3] := memory[i * 2];
      points[i * 3 + 1] := memory[i * 2 + 1];
      points[i * 3 + 2] := 0.5;

      normals[i * 3] := 0.0;
      normals[i * 3 + 1] := 0.0;
      normals[i * 3 + 2] := 1.0;

      visited, slots := visited + [i], slots + [i * 3, i * 3 + 1, i * 3 + 2];
      i := i + 1;
    }
    CountsMembers(slots, start * 3, i * 3);
  }

  /** The back-face loop `for (; i < 12; ++i)`, entered with the shared
      counter at `start` and leaving it at 12. */
  method BackFace(points: array<real>, normals: array<real>, memory: array<real>, start: nat, ghost ps: seq<real>, ghost ns: seq<real>)
      returns (i: nat, ghost visited: seq<nat>, ghost slots: seq<nat>)
    requires Buffers(points, normals, memory)
    requires IsCubePoints(ps, memory[..]) && IsCubeNormals(ns)
    requires 6 <= start <= 12 && Filled(points, normals, start, ps, ns)
    modifies points, normals
    ensures i == 12 && Filled(points, normals, 12, ps, ns)
    ensures Counts(visited, start, 12) && Counts(slots, start * 3, 12 * 3)
    // every slot the loop does not write keeps its value
    ensures forall k :: 0 <= k < BufferLength && k !in slots ==> points[k] == old(points[k]) && normals[k] == old(normals[k])
  {
    i, visited, slots := start, [], [];
    while i < 12
      invariant start <= i <= 12
      invariant forall k :: 0 <= k < i * 3 ==> normals[k] == ns[k]
      invariant points != normals ==> forall k :: 0 <= k < i * 3 ==> points[k] == ps[k]
      invariant Counts(visited, start, i) && Counts(slots, start * 3, i * 3)
      invariant forall k :: 0 <= k < BufferLength && !(start * 3 <= k < i * 3) ==> points[k] == old(points[k]) && normals[k] == old(normals[k])
    {
      assert VertexIn(ps, i) == WrittenVertex(i, memory[..]) && VertexIn(ns, i) == Normal(FaceOf(i));
      points[i * 3] := -memory[i * 2];
      points[i * 3 + 1] := memory[i * 2 + 1];
      points[i * 3 + 2] := -0.5;

      normals[i * 3] := 0.0;
      normals[i * 3 + 1] := 0.0;
      normals[i * 3 + 2] := -1.0;

      visited, slots := visited + [i], slots + [i * 3, i * 3 + 1, i * 3 + 2];
      i := i + 1;
    }
    CountsMembers(slots, start * 3, i * 3);
  }

  /** The left-face loop `for (; i < 18; ++i)`, entered with the shared
      counter at `start` and leaving it at 18. */
  method LeftFace(points: array<real>, normals: array<real>, memory: array<real>, start: nat, ghost ps: seq<real>, ghost ns: seq<real>)
      returns (i: nat, ghost visited: seq<nat>, ghost slots: seq<nat>)
    requires Buffers(points, normals, memory)
    requires IsCubePoints(ps, memory[..]) && IsCubeNormals(ns)
    requires 12 <= start <= 18 && Filled(points, normals, start, ps, ns)
    modifies points, normals
    ensures i == 18 && Filled(points, normals, 18, ps, ns)
    ensures Counts(visited, start, 18) && Counts(slots, start * 3, 18 * 3)
    // every slot the loop does not write keeps its value
    ensures forall k :: 0 <= k < BufferLength && k !in slots ==> points[k] == old(points[k]) && normals[k] == old(normals[k])
  {
    i, visited, slots := start, [], [];
    while i < 18
      invariant start <= i <= 18
      invariant forall k :: 0 <= k < i * 3 ==> normals[k] == ns[k]
      invariant points != normals ==> forall k :: 0 <= k < i * 3 ==> points[k] == ps[k]
      invariant Counts(visited, start, i) && Counts(slots, start * 3, i * 3)
      invariant forall k :: 0 <= k < BufferLength && !(start * 3 <= k < i * 3) ==> points[k] == old(points[k]) && normals[k] == old(normals[k])
    {
      assert VertexIn(ps, i) == WrittenVertex(i, memory[..]) && VertexIn(ns, i) == Normal(FaceOf(i));
      points[i * 3] := -0.5;
      points[i * 3 + 1] := memory[i * 2 + 1];
      points[i * 3 + 2] := memory[i * 2];

      normals[i * 3] := -1.0;
      normals[i * 3 + 1] := 0.0;
      normals[i * 3 + 2] := 0.0;

      visited, slots := visited + [i], slots + [i * 3, i * 3 + 1, i * 3 + 2];
      i := i + 1;
    }
    CountsMembers(slots, start * 3, i * 3);
  }

  /** The right-face loop `for (; i < 24; ++i)`, entered with the shared
      counter at `start` and leaving it at 24. */
  method RightFace(points: array<real>, normals: array<real>, memory: array<real>, start: nat, ghost ps: seq<real>, ghost ns: seq<real>)
      returns (i: nat, ghost visited: seq<nat>, ghost slots: seq<nat>)
    requires Buffers(points, normals, memory)
    requires IsCubePoints(ps, memory[..]) && IsCubeNormals(ns)
    requires 18 <= start <= 24 && Filled(points, normals, start, ps, ns)
    modifies points, normals
    ensures i == 24 && Filled(points, normals, 24, ps, ns)
    ensures Counts(visited, start, 24) && Counts(slots, start * 3, 24 * 3)
    // every slot the loop does not write keeps its value
    ensures forall k :: 0 <= k < BufferLength && k !in slots ==> points[k] == old(points[k]) && normals[k] == old(normals[k])
  {
    i, visited, slots := start, [], [];
    while i < 24
      invariant start <= i <= 24
      invariant forall k :: 0 <= k < i * 3 ==> normals[k] == ns[k]
      invariant points != normals ==> forall k :: 0 <= k < i * 3 ==> points[k] == ps[k]
      invariant Counts(visited, start, i) && Counts(slots, start * 3, i * 3)
      invariant forall k :: 0 <= k < BufferLength && !(start * 3 <= k < i * 3) ==> points[k] == old(points[k]) && normals[k] == old(normals[k])
    {
      assert VertexIn(ps, i) == WrittenVertex(i, memory[..]) && VertexIn(ns, i) == Normal(FaceOf(i));
      points[i * 3] := 0.5;
      points[i * 3 + 1] := memory[i * 2 + 1];
      points[i * 3 + 2] := -memory[i * 2];

      normals[i * 3] := 1.0;
      normals[i * 3 + 1] := 0.0;
      normals[i * 3 + 2] := 0.0;

      visited, slots := visited + [i], slots + [i * 3, i * 3 + 1, i * 3 + 2];
      i := i + 1;
    }
    CountsMembers(slots, start * 3, i * 3);
  }

  /** The top-face loop `for (; i < 30; ++i)`, entered with the shared
      counter at `start` and leaving it at 30. */
  method TopFace(points: array<real>, normals: array<real>, memory: array<real>, start: nat, ghost ps: seq<real>, ghost ns: seq<real>)
      returns (i: nat, ghost visited: seq<nat>, ghost slots: seq<nat>)
    requires Buffers(points, normals, memory)
    requires IsCubePoints(ps, memory[..]) && IsCubeNormals(ns)
    requires 24 <= start <= 30 && Filled(points, normals, start, ps, ns)
    modifies points, normals
    ensures i == 30 && Filled(points, normals, 30, ps, ns)
    ensures Counts(visited, start, 30) && Counts(slots, start * 3, 30 * 3)
    // every slot the loop does not write keeps its value
    ensures forall k :: 0 <= k < BufferLength && k !in slots ==> points[k] == old(points[k]) && normals[k] == old(normals[k])
  {
    i, visited, slots := start, [], [];
    while i < 30
      invariant start <= i <= 30
      invariant forall k :: 0 <= k < i * 3 ==> normals[k] == ns[k]
      invariant points != normals ==> forall k :: 0 <= k < i * 3 ==> points[k] == ps[k]
      invariant Counts(visited, start, i) && Counts(slots, start * 3, i * 3)
      invariant forall k :: 0 <= k < BufferLength && !(start * 3 <= k < i * 3) ==> points[k] == old(points[k]) && normals[k] == old(normals[k])
    {
      assert VertexIn(ps, i) == WrittenVertex(i, memory[..]) && VertexIn(ns, i) == Normal(FaceOf(i));
      points[i * 3] := memory[i * 2];
      points[i * 3 + 1] := 0.5;
      points[i * 3 + 2] := -memory[i * 2 + 1];

      normals[i * 3] := 0.0;
      normals[i * 3 + 1] := 1.0;
      normals[i * 3 + 2] := 0.0;

      visited, slots := visited + [i], slots + [i * 3, i * 3 + 1, i * 3 + 2];
      i := i + 1;
    }
    CountsMembers(slots, start * 3, i * 3);
  }

  /** The bottom-face loop `for (; i < 36; ++i)`, entered with the shared
      counter at `start` and leaving it at 36. */
  method BottomFace(points: array<real>, normals: array<real>, memory: array<real>, start: nat, ghost ps: seq<real>, ghost ns: seq<real>)
      returns (i: nat, ghost visited: seq<nat>, ghost slots: seq<nat>)
    requires Buffers(points, normals, memory)
    requires IsCubePoints(ps, memory[..]) && IsCubeNormals(ns)
    requires 30 <= start <= 36 && Filled(points, normals, start, ps, ns)
    modifies points, normals
    ensures i == 36 && Filled(points, normals, 36, ps, ns)
    ensures Counts(visited, start, 36) && Counts(slots, start * 3, 36 * 3)
    // every slot the loop does not write keeps its value
    ensures forall k :: 0 <= k < BufferLength && k !in slots ==> points[k] == old(points[k]) && normals[k] == old(normals[k])
  {
    i, visited, slots := start, [], [];
    while i < 36
      invariant start <= i <= 36
      invariant forall k :: 0 <= k < i * 3 ==> normals[k] == ns[k]
      invariant points != normals ==> forall k :: 0 <= k < i * 3 ==> points[k] == ps[k]
      invariant Counts(visited, start, i) && Counts(slots, start * 3, i * 3)
      invariant forall k :: 0 <= k < BufferLength && !(start * 3 <= k < i * 3) ==> points[k] == old(points[k]) && normals[k] == old(normals[k])
    {
      assert VertexIn(ps, i) == WrittenVertex(i, memory[..]) && VertexIn(ns, i) == Normal(FaceOf(i));
      points[i * 3] := memory[i * 2];
      points[i * 3 + 1] := -0.5;
      points[i * 3 + 2] := memory[i * 2 + 1];

      normals[i * 3] := 0.0;
      normals[i * 3 + 1] := -1.0;
      normals[i * 3 + 2] := 0.0;

      visited, slots := visited + [i], slots + [i * 3, i * 3 + 1, i * 3 + 2];
      i := i + 1;
    }
    CountsMembers(slots, start * 3, i * 3);
  }

  /** `build_cube`: six loops over one counter that is never reset, filling
      the faces in the order front, back, left, right, top, bottom.
      `visited` lists the counter's values in the order the loop bodies see
      them, `loopStarts` its value on entry to each loop, and `slots` the
      buffer slots in the order they are written. */
  method BuildCube(points: array<real>, normals: array<real>, memory: array<real>)
      returns (ghost visited: seq<nat>, ghost loopStarts: seq<nat>, ghost slots: seq<nat>)
    requires Buffers(points, normals, memory) && StartsWithSquare(memory[..])
    modifies points, normals
    ensures normals[..] == CubeNormals()
    ensures points != normals ==> points[..] == CubePoints(memory[..])
    ensures unchanged(memory)
    // every vertex is visited exactly once, in increasing order
    ensures Counts(visited, 0, VertexCount)
    ensures loopStarts == [0, 6, 12, 18, 24, 30]
    // the slots written are 0, 1, ..., 107: each slot of each buffer exactly once
    ensures Counts(slots, 0, BufferLength)
  {
    ghost var ps, ns := CubePoints(memory[..]), CubeNormals();
    ghost var v, w: seq<nat>;
    var i := 0;
    loopStarts := [i];
    i, visited, slots := FrontFace(points, normals, memory, i, ps, ns);
    loopStarts := loopStarts + [i];
    i, v, w := BackFace(points, normals, memory, i, ps, ns);
    CountsAppend(visited, v, 0, 6, 12);
    CountsAppend(slots, w, 0, 18, 36);
    visited, slots := visited + v, slots + w;
    loopStarts := loopStarts + [i];
    i, v, w := LeftFace(points, normals, memory, i, ps, ns);
    CountsAppend(visited, v, 0, 12, 18);
    CountsAppend(slots, w, 0, 36, 54);
    visited, slots := visited + v, slots + w;
    loopStarts := loopStarts + [i];
    i, v, w := RightFace(points, normals, memory, i, ps, ns);
    CountsAppend(visited, v, 0, 18, 24);
    CountsAppend(slots, w, 0, 54, 72);
    visited, slots := visited + v, slots + w;
    loopStarts := loopStarts + [i];
    i, v, w := TopFace(points, normals, memory, i, ps, ns);
    CountsAppend(visited, v, 0, 24, 30);
    CountsAppend(slots, w, 0, 72, 90);
    visited, slots := visited + v, slots + w;
    loopStarts := loopStarts + [i];
    i, v, w := BottomFace(points, normals, memory, i, ps, ns);
    CountsAppend(visited, v, 0, 30, 36);
    CountsAppend(slots, w, 0, 90, 108);
    visited, slots := visited + v, slots + w;
    FilledComplete(points, normals, ps, ns);
  }
}
