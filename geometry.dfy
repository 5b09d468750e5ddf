/** Vectors and axis-aligned bounding boxes, over exact reals. The math
    library that defines them is not part of this model; a box grows to
    contain a point component by component, with `min` and `max`. */
module Geometry {

  datatype Vec2 = Vec2(x: real, y: real)
  datatype Vec3 = Vec3(x: real, y: real, z: real)
  datatype AABB = AABB(minimum: Vec3, maximum: Vec3)

  /** The single-precision literal `1e30f` of the stores, taken as the real 10^30. */
  const Huge: real := 1000000000000000000000000000000.0

  function MinReal(a: real, b: real): real {
    if a < b then a else b
  }

  function MaxReal(a: real, b: real): real {
    if a < b then b else a
  }

  /** Component `k` (0, 1 or 2) of a vector. */
  function Coord(p: Vec3, k: nat): real
    requires k < 3
  {
    if k == 0 then p.x else if k == 1 then p.y else p.z
  }

  predicate Contains(b: AABB, p: Vec3) {
    && b.minimum.x <= p.x <= b.maximum.x
    && b.minimum.y <= p.y <= b.maximum.y
    && b.minimum.z <= p.z <= b.maximum.z
  }

  /** The box the store gives its dummy slot: inverted, so it contains nothing. */
  function InvertedBox(): (b: AABB)
    ensures forall p :: !Contains(b, p)
  {
    AABB(Vec3(Huge, Huge, Huge), Vec3(-Huge, -Huge, -Huge))
  }

  /** The box a freshly created mesh gets: every point within 10^30 on each axis. */
  function EncompassingBox(): (b: AABB)
    ensures forall p :: Contains(b, p) <==>
      -Huge <= p.x <= Huge && -Huge <= p.y <= Huge && -Huge <= p.z <= Huge
  {
    AABB(Vec3(-Huge, -Huge, -Huge), Vec3(Huge, Huge, Huge))
  }

  /** The smallest box containing `b` and `p`. */
  function GrowToContain(b: AABB, p: Vec3): (r: AABB)
    ensures Contains(r, p)
    ensures forall q :: Contains(b, q) ==> Contains(r, q)
  {
    AABB(Vec3(MinReal(b.minimum.x, p.x), MinReal(b.minimum.y, p.y), MinReal(b.minimum.z, p.z)),
         Vec3(MaxReal(b.maximum.x, p.x), MaxReal(b.maximum.y, p.y), MaxReal(b.maximum.z, p.z)))
  }

  /** Specification of the bounds fold: the box around the first point, grown
      by every later point in turn. */
  function Hull(ps: seq<Vec3>): AABB
    requires |ps| >= 1
    decreases |ps|
  {
    if |ps| == 1 then AABB(ps[0], ps[0])
    else GrowToContain(Hull(ps[..|ps| - 1]), ps[|ps| - 1])
  }

  /** The hull contains every point it was built from. */
  lemma {:induction false} HullContains(ps: seq<Vec3>)
    requires |ps| >= 1
    ensures forall i :: 0 <= i < |ps| ==> Contains(Hull(ps), ps[i])
    decreases |ps|
  {
    if |ps| > 1 {
      var front := ps[..|ps| - 1];
      HullContains(front);
      forall i | 0 <= i < |ps| - 1 ensures Contains(Hull(ps), ps[i]) {
        assert ps[i] == front[i];
      }
    }
  }

  ghost predicate LowAttained(ps: seq<Vec3>, b: AABB, k: nat)
    requires k < 3
  {
    exists i :: 0 <= i < |ps| && Coord(ps[i], k) == Coord(b.minimum, k)
  }

  ghost predicate HighAttained(ps: seq<Vec3>, b: AABB, k: nat)
    requires k < 3
  {
    exists i :: 0 <= i < |ps| && Coord(ps[i], k) == Coord(b.maximum, k)
  }

  /** Each of the six bounds of the hull is a coordinate of one of the points,
      so no smaller box contains them all. */
  lemma {:induction false} HullAttained(ps: seq<Vec3>)
    requires |ps| >= 1
    ensures forall k :: 0 <= k < 3 ==> LowAttained(ps, Hull(ps), k) && HighAttained(ps, Hull(ps), k)
    decreases |ps|
  {
    if |ps| == 1 {
      forall k | 0 <= k < 3 ensures LowAttained(ps, Hull(ps), k) && HighAttained(ps, Hull(ps), k) {
        assert Coord(ps[0], k) == Coord(Hull(ps).minimum, k) == Coord(Hull(ps).maximum, k);
      }
    } else {
      var n := |ps| - 1;
      var front := ps[..n];
      HullAttained(front);
      var h := Hull(front);
      forall k | 0 <= k < 3 ensures LowAttained(ps, Hull(ps), k) && HighAttained(ps, Hull(ps), k) {
        GrowCoord(h, ps[n], k);
        assert LowAttained(front, h, k) && HighAttained(front, h, k);
        if Coord(ps[n], k) < Coord(h.minimum, k) {
          assert Coord(ps[n], k) == Coord(Hull(ps).minimum, k);
        } else {
          var i :| 0 <= i < n && Coord(front[i], k) == Coord(h.minimum, k);
          assert ps[i] == front[i];
        }
        if Coord(h.maximum, k) < Coord(ps[n], k) {
          assert Coord(ps[n], k) == Coord(Hull(ps).maximum, k);
        } else {
          var i :| 0 <= i < n && Coord(front[i], k) == Coord(h.maximum, k);
          assert ps[i] == front[i];
        }
      }
    }
  }

  lemma GrowCoord(b: AABB, p: Vec3, k: nat)
    requires k < 3
    ensures Coord(GrowToContain(b, p).minimum, k) == MinReal(Coord(b.minimum, k), Coord(p, k))
    ensures Coord(GrowToContain(b, p).maximum, k) == MaxReal(Coord(b.maximum, k), Coord(p, k))
  {
  }
}
