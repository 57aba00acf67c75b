/** Vectors, the six faces of the cube and how each face places a point of
    the 2D quad template in space. Coordinates are exact halves and units,
    so `real` stands in for the source's `float` without rounding. */
module Geometry {

  datatype Vec3 = Vec3(x: real, y: real, z: real)

  /** The cube's faces, in the order the generator fills them. */
  datatype Face = Front | Back | Left | Right | Top | Bottom

  const Zero: Vec3 := Vec3(0.0, 0.0, 0.0)

  function Add(p: Vec3, q: Vec3): Vec3 {
    Vec3(p.x + q.x, p.y + q.y, p.z + q.z)
  }

  function Neg(p: Vec3): Vec3 {
    Vec3(-p.x, -p.y, -p.z)
  }

  function Sub(p: Vec3, q: Vec3): Vec3 {
    Vec3(p.x - q.x, p.y - q.y, p.z - q.z)
  }

  function Scale(k: real, p: Vec3): Vec3 {
    Vec3(k * p.x, k * p.y, k * p.z)
  }

  function Cross(p: Vec3, q: Vec3): Vec3 {
    Vec3(p.y * q.z - p.z * q.y, p.z * q.x - p.x * q.z, p.x * q.y - p.y * q.x)
  }

  /** Twice the signed area of the 2D triangle (u0, v0), (u1, v1), (u2, v2):
      positive when its vertices run counter-clockwise. */
  function Turn(u0: real, v0: real, u1: real, v1: real, u2: real, v2: real): real {
    (u1 - u0) * (v2 - v0) - (v1 - v0) * (u2 - u0)
  }

  function Dot(p: Vec3, q: Vec3): real {
    p.x * q.x + p.y * q.y + p.z * q.z
  }

  function Abs(r: real): real {
    if r < 0.0 then -r else r
  }

  predicate IsHalf(r: real) {
    r == 0.5 || r == -0.5
  }

  /** Exactly one non-zero component, and that one is 1 or -1. */
  predicate IsAxisUnit(n: Vec3) {
    || (Abs(n.x) == 1.0 && n.y == 0.0 && n.z == 0.0)
    || (n.x == 0.0 && Abs(n.y) == 1.0 && n.z == 0.0)
    || (n.x == 0.0 && n.y == 0.0 && Abs(n.z) == 1.0)
  }

  /** Inside the unit cube centred at the origin. */
  predicate InBox(p: Vec3) {
    Abs(p.x) <= 0.5 && Abs(p.y) <= 0.5 && Abs(p.z) <= 0.5
  }

  /** One of the cube's eight corners. */
  predicate IsCorner(p: Vec3) {
    IsHalf(p.x) && IsHalf(p.y) && IsHalf(p.z)
  }

  function Opposite(f: Face): Face {
    match f
    case Front => Back
    case Back => Front
    case Left => Right
    case Right => Left
    case Top => Bottom
    case Bottom => Top
  }

  /** The normal written for every vertex of a face. */
  function Normal(f: Face): Vec3 {
    match f
    case Front => Vec3(0.0, 0.0, 1.0)
    case Back => Vec3(0.0, 0.0, -1.0)
    case Left => Vec3(-1.0, 0.0, 0.0)
    case Right => Vec3(1.0, 0.0, 0.0)
    case Top => Vec3(0.0, 1.0, 0.0)
    case Bottom => Vec3(0.0, -1.0, 0.0)
  }

  /** The face a normal belongs to, read off its non-zero component. */
  function FaceOfNormal(n: Vec3): Face {
    if n.z == 1.0 then Front
    else if n.z == -1.0 then Back
    else if n.x == -1.0 then Left
    else if n.x == 1.0 then Right
    else if n.y == 1.0 then Top
    else Bottom
  }

  /** Where face f puts the template point (u, v): one coordinate is pinned
      to the face's plane, the other two are u and v, possibly negated. */
  function Place(f: Face, u: real, v: real): Vec3 {
    match f
    case Front => Vec3(u, v, 0.5)
    case Back => Vec3(-u, v, -0.5)
    case Left => Vec3(-0.5, v, u)
    case Right => Vec3(0.5, v, -u)
    case Top => Vec3(u, 0.5, -v)
    case Bottom => Vec3(u, -0.5, v)
  }

  /** Every normal is an axis-aligned unit vector, and it identifies its
      face. */
  lemma NormalIsAxisUnit(f: Face)
    ensures IsAxisUnit(Normal(f))
    ensures FaceOfNormal(Normal(f)) == f
  {
  }

  /** No two faces share a normal, and opposite faces have opposite
      normals. */
  lemma NormalsDistinct(f: Face, g: Face)
    ensures Normal(f) == Normal(g) <==> f == g
    ensures Normal(Opposite(f)) == Neg(Normal(f))
  {
    NormalIsAxisUnit(f);
    NormalIsAxisUnit(g);
  }

  /** A placed point lies on its face's plane, half a unit out along the
      face's normal, whatever the template point is; a template point in
      the unit square lands on the cube's surface, and a corner of the
      square on a corner of the cube. */
  lemma PlaceOnFace(f: Face, u: real, v: real)
    ensures Dot(Place(f, u, v), Normal(f)) == 0.5
    ensures Abs(u) <= 0.5 && Abs(v) <= 0.5 ==> InBox(Place(f, u, v))
    ensures IsHalf(u) && IsHalf(v) ==> IsCorner(Place(f, u, v))
  {
  }

  /** A face loses no information about the template point it places. */
  lemma PlaceInjective(f: Face, u: real, v: real, u': real, v': real)
    ensures Place(f, u, v) == Place(f, u', v') <==> u == u' && v == v'
  {
  }

  /** Every face keeps the orientation of the template: a template triangle
      placed on a face has the face normal as its winding normal (the cross
      product of its two edges from the first vertex), scaled by the
      triangle's signed area. A counter-clockwise template triangle
      therefore faces outward on every face. */
  lemma PlaceWinding(f: Face, u0: real, v0: real, u1: real, v1: real, u2: real, v2: real)
    ensures Cross(Sub(Place(f, u1, v1), Place(f, u0, v0)), Sub(Place(f, u2, v2), Place(f, u0, v0)))
        == Scale(Turn(u0, v0, u1, v1, u2, v2), Normal(f))
  {
  }
}
