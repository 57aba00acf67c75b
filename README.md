# Cube geometry generator

A model of `build_cube` and the quad table `square` from `ogl.c`. The
generator fills two caller-owned buffers of 108 floats. The first holds
36 vertex positions and the second holds their 36 normals, three floats
per vertex. The vertices form six faces of six vertices each: front, back,
left, right, top and bottom, in that order. Each face loop pins one
coordinate to ±0.5. It takes the other two, possibly negated, from the
table `square`, writes its face's normal, and hands the shared counter
`i` on to the next loop.

The model has four modules:

- `Geometry` (`geometry.dfy`): vectors, the six faces, each face's normal,
  and `Place`, which maps a template point (u, v) onto a face. It also
  proves the normals are axis-aligned unit vectors, distinct, and opposite
  for opposite faces. A placed point lies on its face's plane, a corner of
  the template lands on a corner of the cube, placing is injective, and
  every face keeps the template's winding.
- `Ogl` (`ogl.dfy`): the table, and `build_cube` as the imperative method
  `BuildCube` over three `array<real>`s. Each of the six `for` loops is a
  method of its own (`FrontFace` … `BottomFace`). It is entered with the
  shared counter and hands the counter on, so the counter is never reset.
  `BuildCube` is proved against the specification functions `CubePoints`
  and `CubeNormals`.
- `CubeProperties` (`properties.dfy`): what the written buffers are, and
  where the reads of `square` land.
- `Corrected` (`corrected.dfy`): the intended cube, and how far the
  written cube is from it (see Findings).

Floats are `real`. Every constant the generator writes and every entry
of the table is 0, ±0.5 or ±1. These are exact in single precision, and
the generator only copies or negates what it reads, so there is no
rounding to model. The floats read past the table are arbitrary reals
(see Left out).

The five faces after the front read `square[12]` through `square[71]`,
past the end of the table. The language leaves such reads undefined. The
model reads them from `memory`, an array of 72 floats whose first twelve
are the table (`StartsWithSquare`) and whose other sixty are arbitrary.
Everything proved about the written positions holds whatever those sixty
floats are, unless a lemma states otherwise. The caller may pass the same
array as `points` and `normals`, since C does not forbid it. `BuildCube`
then still guarantees the normals, because each normal overwrites the
position written just before it.

## Model

| member | source | states |
|---|---|---|
| Geometry.NormalIsAxisUnit | ogl.c:32-94 | Every face normal written (0,0,±1), (±1,0,0), (0,±1,0) has exactly one non-zero component, which is ±1, and the normal identifies its face |
| Geometry.NormalsDistinct | ogl.c:32-94 | Two faces have the same normal exactly when they are the same face; opposite faces have opposite normals |
| Geometry.PlaceOnFace | ogl.c:28-90 | A point placed by any face lies on that face's plane, at 0.5 along the face normal, whatever the template point; a template point in [-0.5, 0.5]² lands inside the cube and a ±0.5 template point on a corner |
| Geometry.PlaceInjective | ogl.c:28-90 | Two template points placed on the same face give the same point exactly when they are the same template point |
| Geometry.PlaceWinding | ogl.c:28-94 | For every face and every template triangle, the cross product of the placed triangle's edges is the face's normal scaled by the template triangle's signed doubled area: each loop's axis assignment and signs keep a counter-clockwise template triangle facing along the normal that loop writes |
| Ogl.SquareEntries | ogl.c:9-19 | The table has exactly 12 entries, each 0.5 or -0.5 |
| Ogl.SquareCounterClockwise | ogl.c:9-19 | The lower and the upper triangle of the table both run counter-clockwise, each with signed doubled area 1 |
| Ogl.Flatten | ogl.c:28-30 | Laying out n vertices as consecutive (x, y, z) triples gives 3n floats, with vertex j at slots 3j, 3j+1, 3j+2 |
| Ogl.CubePoints | ogl.c:21-96 | The position buffer the generator leaves has 108 floats, and vertex j in it is the j-th vertex the loops write from the two floats read at 2j and 2j+1 |
| Ogl.CubeNormals | ogl.c:21-96 | The normal buffer has 108 floats, and vertex j in it is the normal of vertex j's face |
| Ogl.FrontFace | ogl.c:26-35 | Entered with the counter anywhere in 0..6, the front loop visits each remaining counter value once, in order, and leaves it at 6; its log of written slots lists 3·entry..17 once each, in order; slots 0..17 of both buffers end holding their final values, and every slot not in the log keeps its value |
| Ogl.BackFace | ogl.c:38-47 | The back loop carries the counter from its entry value to 12, one value at a time, its log of written slots lists 3·entry..35 once each, in order; slots up to 35 end holding their final values, and every slot not in the log keeps its value |
| Ogl.LeftFace | ogl.c:50-59 | The left loop carries the counter to 18, its log of written slots lists 3·entry..53 once each, in order; slots up to 53 end holding their final values, and every slot not in the log keeps its value |
| Ogl.RightFace | ogl.c:62-71 | The right loop carries the counter to 24, its log of written slots lists 3·entry..71 once each, in order; slots up to 71 end holding their final values, and every slot not in the log keeps its value |
| Ogl.TopFace | ogl.c:74-83 | The top loop carries the counter to 30, its log of written slots lists 3·entry..89 once each, in order; slots up to 89 end holding their final values, and every slot not in the log keeps its value |
| Ogl.BottomFace | ogl.c:86-95 | The bottom loop carries the counter to 36, its log of written slots lists 3·entry..107 once each, in order; all 108 slots end holding their final values, and every slot not in the log keeps its value |
| Ogl.BuildCube | ogl.c:21-96 | Whatever lies past the table, the normal buffer ends up as all 108 floats of the face normals, and a distinct position buffer as all 108 floats of the written positions; the counter takes each value 0..35 once, in increasing order, entering the six loops at 0, 6, 12, 18, 24, 30; the log of written slots (the concatenated logs of the six loops) lists 0, 1, ..., 107 once each, in order; memory (holding `square`) is unchanged |
| CubeProperties.FaceBlocks | ogl.c:23-95 | Vertex i belongs to the (i / 6)-th face of the order front, back, left, right, top, bottom, and only vertices of the same block of six share a face |
| CubeProperties.WrittenOnce | ogl.c:26-95 | In the log of written slots `BuildCube` returns, every slot k < 108 appears at exactly one position, and no slot at or above 108 appears |
| CubeProperties.PinnedCoordinate | ogl.c:30-89 | Whatever the out-of-range reads return, every written vertex has its face's coordinate pinned: z = 0.5 front, z = -0.5 back, x = -0.5 left, x = 0.5 right, y = 0.5 top, y = -0.5 bottom |
| CubeProperties.NormalsPerBlock | ogl.c:32-94 | The normal written for vertex j is the normal of the (j / 6)-th face in the fill order and is an axis-aligned unit vector |
| CubeProperties.FrontFaceWinding | ogl.c:26-35 | As written, both front-face triangles wind counter-clockwise seen from outside: the cross product of their edges is (0, 0, 1), the normal the loop writes |
| CubeProperties.FrontFaceFromTable | ogl.c:26-35 | For i < 6, vertex i is (square[2i], square[2i + 1], 0.5), a corner of the cube inside [-0.5, 0.5]³; vertex 0 is (-0.5, -0.5, 0.5) |
| CubeProperties.InBoundsOnlyAtFront | ogl.c:28-90 | All reads of vertex i fall inside the 12-entry table exactly when i < 6 |
| CubeProperties.ReadsPastTheEnd | ogl.c:40-90 | The faces after the front read table offsets 12 through 71, every one of them and nothing else |
| CubeProperties.ReadsDecideVertex | ogl.c:28-90 | Two memories give vertex i the same position exactly when they agree on the two floats it reads |
| CubeProperties.SumPrefix | ogl.c:32-94 | The sum of the first n normals in the final normal buffer rises along a face's normal and falls back to zero over the opposite face, for each pair of opposite faces |
| CubeProperties.NormalsSumToZero | ogl.c:32-94 | The 36 normals in the final normal buffer sum to the zero vector |
| Corrected.IntendedPoints | ogl.c:21-96 | The intended position buffer has 108 floats, and vertex j in it is the (j % 6)-th template point placed on vertex j's face |
| Corrected.IntendedOnSurface | ogl.c:9-95 | Every intended vertex is a corner of the cube, inside it, on its own face's plane |
| Corrected.FaceVertexFromTable | ogl.c:9-95 | The k-th intended vertex of every face is the k-th template point of the table placed on that face |
| Corrected.IntendedFaceTiles | ogl.c:9-95 | On every intended face the two triangles share their diagonal (vertex 1 = vertex 5, vertex 2 = vertex 4), and vertices 0 to 3 are pairwise distinct |
| Corrected.IntendedWinding | ogl.c:9-95 | Every intended triangle, on every face, winds counter-clockwise seen from outside: the cross product of its edges is the normal written for its face |
| Corrected.BackFaceReadsPastTable | ogl.c:38-47 | With zeros after the table, the first back-face vertex as written is (0, 0, -0.5), not a corner, whereas the intended one is (0.5, -0.5, -0.5); the whole first back triangle collapses to that point |
| Corrected.EqualByVertices | ogl.c:28-30 | Two 108-float buffers with the same 36 vertices are equal |
| Corrected.VertexMatchesIff | ogl.c:28-90 | A written vertex equals the intended one exactly when the two floats it reads equal the table repeated at those offsets |
| Corrected.MatchImpliesRepeated | ogl.c:28-90 | If the written positions are the intended ones, every float past the table repeats the table |
| Corrected.VertexFromRepeated | ogl.c:28-90 | If every float past the table repeats the table, every written vertex is the intended one |
| Corrected.RepeatedImpliesMatch | ogl.c:28-90 | If every float past the table repeats the table, the written positions are the intended ones |
| Corrected.MatchesIntendedIff | ogl.c:21-96 | The generator as written produces the intended positions exactly when the sixty floats after the table repeat it |

## Left out

- `compile_shader`, `link_program` and `main` (ogl.c:99-228): file
  I/O, memory allocation, and GL, GLEW and GLFW calls, none of which is
  visible here.
- The draw count `sizeof(square) / 2` (ogl.c:218) is 24, while the vertex
  buffer uploaded there holds six two-float vertices. It lies inside the
  GL plumbing of `main` and is not modelled.
- Floating point. The constants and the table are exact halves and
  units, so `real` is faithful for them. The sixty floats read past the
  table are modelled as arbitrary reals, which cannot be NaN, an infinity
  or -0.0. With a NaN there, float comparison would break the
  if-and-only-if lemmas about written positions
  (`CubeProperties.ReadsDecideVertex`, `Corrected.VertexMatchesIff`,
  `Corrected.MatchesIntendedIff`), since NaN is not equal to itself.
- Reads past the end of `square`: C leaves them undefined, and a real
  program may fault or read anything. The model reads them from an
  arbitrary array of sixty floats laid out after the table. Requiring that
  array to be distinct from both output buffers is a modelling choice
  over a read the language leaves undefined. It means the writes never
  change what is later read: the model does not cover an output buffer
  lying right after `square`.
- Partial overlap of the output buffers: C allows `points` and `normals`
  to be two views into one larger float array that overlap in part. The
  model covers only the same array or two disjoint arrays.
- The write logs of the face methods record the slot indices each loop
  body writes; the contracts bound the writes through the frame (a slot
  not in the log keeps its value), not by counting stores, so a body that
  wrote one slot twice before its final value would meet the same
  contract.
- Ogl.BuildCube: when `points` and `normals` are the same array, it states
  only the final contents (the normals) and not the positions that were
  overwritten.
- Each `for` loop of `build_cube` is a method of its own, with the shared
  counter passed in and returned. The counter's value at each hand-over is
  stated (`loopStarts`), so "never reset" is captured. The single stack
  frame is not.
- The written cube does not give every vertex exactly one coordinate
  equal to ±0.5. Every intended vertex is a corner, with all three
  coordinates ±0.5 (`Corrected.IntendedOnSurface`). As written, some
  vertices have only one, e.g. the first back-face vertex with zeros after
  the table (`Corrected.BackFaceReadsPastTable`). The model proves instead
  that each face's own coordinate is pinned
  (`CubeProperties.PinnedCoordinate`).
- Winding of the faces after the front as written: with arbitrary floats
  past the table their triangles can be anything, even collapse to a
  point (`Corrected.BackFaceReadsPastTable`). Winding is proved for the
  front face as written and for every face of the intended cube.

## Findings

| source | as written | input that shows it | evidently intended | confidence | as-written member | corrected member |
|---|---|---|---|---|---|---|
| ogl.c:38-90 | the faces after the front read `square[i * 2]` and `square[i * 2 + 1]` with the shared counter `i` in 6..35, i.e. offsets 12..71 of a 12-entry table | any memory after the table that does not repeat it, e.g. sixty zeros: the first back-face vertex becomes (0, 0, -0.5) | read `square[(i % 6) * 2]` and `square[(i % 6) * 2 + 1]`, so that every face is the template placed on that face | not executed | Corrected.BackFaceReadsPastTable | Corrected.IntendedFaceTiles |
