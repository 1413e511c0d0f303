/** The geometry kernels of the `Util` namespace: ray–sphere and ray–plane
    intersection in world space and point-to-segment distance in screen
    space. The source has two copies (a double-precision one and an older
    single-precision one without the plane test); over the reals they are the
    same algorithm and are modelled once. */
module Util {
  import opened Wrappers
  import opened Numeric
  import opened Vectors
  import opened RealAlgebra

  /** The `1e-3` / `0.001f` tolerance used by every kernel. */
  const Epsilon: real := 0.001

  datatype SphereResult = SphereResult(hit: bool, outDistance: Out<real>)

  /** The discriminant `b^2 - a c` of `a t^2 + 2 b t + c`. */
  function DiscriminantOf(a: real, b: real, c: real): real {
    b * b - a * c
  }

  /** The discriminant of the line–sphere quadratic for a ray whose direction
      has already been normalised to `l`. */
  function Discriminant(l: Vec3, diff: Vec3, radius: real): real {
    DiscriminantOf(Dot(l, l), Dot(l, diff), Dot(diff, diff) - radius * radius)
  }

  /** `raySphereIntersection`: the nearer root beyond `Epsilon` if there is
      one, else the farther one; a tangent ray (zero discriminant) misses.
      `outDistance` is written only on a hit, and only when it is not null. */
  function RaySphereIntersection(rayOrigin: Vec3, rayDirection: Vec3, sphereOrigin: Vec3,
                                 sphereRadius: real, outDistance: Out<real>,
                                 sqrt: real -> real): (r: SphereResult)
    requires IsSqrt(sqrt)
    ensures !r.hit ==> r.outDistance == outDistance
    ensures r.hit && outDistance.Null? ==> r.outDistance.Null?
  {
    var diff := Sub(rayOrigin, sphereOrigin);
    var l := Normal(rayDirection, sqrt);
    var b := Dot(l, diff);
    var discriminant := Discriminant(l, diff, sphereRadius);
    if discriminant > 0.0 then
      var root := sqrt(discriminant);
      var resPos := -b + root;
      var resNeg := -b - root;
      if resNeg > Epsilon then
        SphereResult(true, if outDistance.Ptr? then Ptr(resNeg) else outDistance)
      else if resPos > Epsilon then
        SphereResult(true, if outDistance.Ptr? then Ptr(resPos) else outDistance)
      else
        SphereResult(false, outDistance)
    else
      SphereResult(false, outDistance)
  }

  /** The distance a hit reports, read back through a non-null output argument. */
  function SphereDistance(rayOrigin: Vec3, rayDirection: Vec3, sphereOrigin: Vec3,
                          sphereRadius: real, sqrt: real -> real): Option<real>
    requires IsSqrt(sqrt)
  {
    var r := RaySphereIntersection(rayOrigin, rayDirection, sphereOrigin, sphereRadius, Ptr(0.0), sqrt);
    if r.hit then Some(r.outDistance.value) else None
  }

  datatype PlaneResult = PlaneResult(hit: bool, isectOut: Out<Vec3>)

  /** `rayPlaneIntersection`: rejects a ray (nearly) parallel to the plane
      and a plane behind the ray; otherwise writes `origin + dist * dir`. */
  function RayPlaneIntersection(rayOrigin: Vec3, rayDirection: Vec3, pointOnPlane: Vec3,
                                planeNormal: Vec3, isectOut: Out<Vec3>): (r: PlaneResult)
    ensures !r.hit ==> r.isectOut == isectOut
    ensures r.hit && isectOut.Null? ==> r.isectOut.Null?
  {
    var num := Dot(Sub(pointOnPlane, rayOrigin), planeNormal);
    var denom := Dot(rayDirection, planeNormal);
    if Abs(denom) < Epsilon then
      PlaneResult(false, isectOut)
    else
      var dist := num / denom;
      if dist < Epsilon then
        PlaneResult(false, isectOut)
      else
        PlaneResult(true, if isectOut.Ptr? then Ptr(Add(rayOrigin, Scale(rayDirection, dist))) else isectOut)
  }

  /** The intersection point, read back through a non-null output argument. */
  function PlaneHit(rayOrigin: Vec3, rayDirection: Vec3, pointOnPlane: Vec3,
                    planeNormal: Vec3): Option<Vec3>
  {
    var r := RayPlaneIntersection(rayOrigin, rayDirection, pointOnPlane, planeNormal, Ptr(Zero));
    if r.hit then Some(r.isectOut.value) else None
  }

  /** A screen-space result: the perpendicular distance and the segment
      parameter. A zero-length segment makes the parameter `0/0`, an IEEE
      NaN, modelled as `None`. */
  datatype LineDistance = LineDistance(dist: real, t: Option<real>)

  /** `t` lies in `[0, 1]`; a NaN never does. */
  predicate InUnitRange(t: Option<real>) {
    t.Some? && 0.0 <= t.value <= 1.0
  }

  /** `distanceToLine`: distance from `(x0, y0)` to the line through
      `(lx1, ly1)` and `(lx2, ly2)`, with `FloatMax` for a segment shorter
      than `Epsilon`, and the normalised projection parameter. */
  function DistanceToLine(lx1: real, ly1: real, lx2: real, ly2: real, x0: real, y0: real,
                          sqrt: real -> real): (r: LineDistance)
    requires IsSqrt(sqrt)
    ensures r.dist >= 0.0
  {
    var dx := lx2 - lx1;
    var dy := ly2 - ly1;
    var num := Abs(dy * x0 - dx * y0 + lx2 * ly1 - ly2 * lx1);
    SquaresNonNegative(dx, dy);
    var denom := sqrt(SegmentLengthSq(lx1, ly1, lx2, ly2));
    var result := if Abs(denom) < Epsilon then FloatMax else num / denom;
    LineDistance(result, LineParameter(x0 - lx1, y0 - ly1, dx, dy, denom))
  }

  /** The projection of the cursor offset `(ax, ay)` onto the unit segment
      direction, divided once more by the segment length `denom`. */
  function LineParameter(ax: real, ay: real, dx: real, dy: real, denom: real): Option<real> {
    if denom == 0.0 then None
    else
      var ux := dx / denom;
      var uy := dy / denom;
      Some((ax * ux + ay * uy) / denom)
  }

  /** The squared screen length of a segment, summed as the source sums it. */
  function SegmentLengthSq(lx1: real, ly1: real, lx2: real, ly2: real): real {
    (ly2 - ly1) * (ly2 - ly1) + (lx2 - lx1) * (lx2 - lx1)
  }

  lemma SquaresNonNegative(p: real, q: real)
    ensures q * q + p * p >= 0.0
  {
    SquareNonNegative(p);
    SquareNonNegative(q);
  }

  // ---------------------------------------------------------------------
  // distanceToLine

  /** The cursor relative to the first endpoint, crossed with the segment. */
  function Cross2(wx: real, wy: real, dx: real, dy: real): real {
    wx * dy - wy * dx
  }

  /** The cursor relative to the first endpoint, dotted with the segment. */
  function Dot2(wx: real, wy: real, dx: real, dy: real): real {
    wx * dx + wy * dy
  }

  /** The source's numerator, before `fabs`, is that cross product. */
  lemma NumeratorIsCross(lx1: real, ly1: real, lx2: real, ly2: real, x0: real, y0: real)
    ensures (ly2 - ly1) * x0 - (lx2 - lx1) * y0 + lx2 * ly1 - ly2 * lx1
         == Cross2(x0 - lx1, y0 - ly1, lx2 - lx1, ly2 - ly1)
  {
  }

  /** The denominator is the segment's length. */
  lemma DenominatorIsLength(lx1: real, ly1: real, lx2: real, ly2: real, sqrt: real -> real)
    requires IsSqrt(sqrt)
    ensures var s := sqrt(SegmentLengthSq(lx1, ly1, lx2, ly2));
            s >= 0.0 && s * s == SegmentLengthSq(lx1, ly1, lx2, ly2)
  {
    SquaresNonNegative(lx2 - lx1, ly2 - ly1);
  }

  /** A segment shorter than `Epsilon` on screen is reported at `FloatMax`,
      so it is never near the cursor. */
  lemma DegenerateSegmentIsFar(lx1: real, ly1: real, lx2: real, ly2: real, x0: real, y0: real,
                               sqrt: real -> real)
    requires IsSqrt(sqrt)
    requires SegmentLengthSq(lx1, ly1, lx2, ly2) < Epsilon * Epsilon
    ensures DistanceToLine(lx1, ly1, lx2, ly2, x0, y0, sqrt).dist == FloatMax
  {
    DenominatorIsLength(lx1, ly1, lx2, ly2, sqrt);
    var l2 := SegmentLengthSq(lx1, ly1, lx2, ly2);
    RootCompare(sqrt(l2), l2, Epsilon);
  }

  /** On a segment of positive length, `t` is the projection of the cursor
      onto the segment divided by the segment's squared length. */
  lemma ParameterIsProjection(lx1: real, ly1: real, lx2: real, ly2: real, x0: real, y0: real,
                              sqrt: real -> real)
    requires IsSqrt(sqrt)
    requires SegmentLengthSq(lx1, ly1, lx2, ly2) > 0.0
    ensures DistanceToLine(lx1, ly1, lx2, ly2, x0, y0, sqrt).t
         == Some(Dot2(x0 - lx1, y0 - ly1, lx2 - lx1, ly2 - ly1) / SegmentLengthSq(lx1, ly1, lx2, ly2))
  {
    var l2 := SegmentLengthSq(lx1, ly1, lx2, ly2);
    DenominatorIsLength(lx1, ly1, lx2, ly2, sqrt);
    var s := sqrt(l2);
    RootPositive(s, l2);
    LineParameterIsProjection(x0 - lx1, y0 - ly1, lx2 - lx1, ly2 - ly1, s, l2);
  }

  /** Dividing twice by the length is dividing once by its square. */
  lemma LineParameterIsProjection(ax: real, ay: real, dx: real, dy: real, s: real, l2: real)
    requires s > 0.0 && l2 > 0.0 && l2 == s * s
    ensures LineParameter(ax, ay, dx, dy, s) == Some(Dot2(ax, ay, dx, dy) / l2)
  {
    var ux, uy := dx / s, dy / s;
    var p := Dot2(ax, ay, dx, dy);
    MulDiv(ax, dx, s);
    MulDiv(ay, dy, s);
    assert ax * ux == (ax * dx) / s;
    assert ay * uy == (ay * dy) / s;
    DivAdd(ax * dx, ay * dy, s);
    assert ax * ux + ay * uy == p / s;
    DivTwice(p, s, l2);
    assert (ax * ux + ay * uy) / s == p / l2;
  }

  /** `t` is 0 with the cursor on the first endpoint and 1 on the second. */
  lemma ParameterAtEndpoints(lx1: real, ly1: real, lx2: real, ly2: real, sqrt: real -> real)
    requires IsSqrt(sqrt)
    requires SegmentLengthSq(lx1, ly1, lx2, ly2) > 0.0
    ensures DistanceToLine(lx1, ly1, lx2, ly2, lx1, ly1, sqrt).t == Some(0.0)
    ensures DistanceToLine(lx1, ly1, lx2, ly2, lx2, ly2, sqrt).t == Some(1.0)
  {
    ParameterIsProjection(lx1, ly1, lx2, ly2, lx1, ly1, sqrt);
    ParameterIsProjection(lx1, ly1, lx2, ly2, lx2, ly2, sqrt);
    var l2 := SegmentLengthSq(lx1, ly1, lx2, ly2);
    assert Dot2(lx2 - lx1, ly2 - ly1, lx2 - lx1, ly2 - ly1) == l2;
    DivUnique(1.0, l2, l2);
  }

  /** On a segment at least `Epsilon` long the distance is `|cross| / length`. */
  lemma DistanceIsCrossOverLength(lx1: real, ly1: real, lx2: real, ly2: real, x0: real, y0: real,
                                  sqrt: real -> real)
    requires IsSqrt(sqrt)
    requires SegmentLengthSq(lx1, ly1, lx2, ly2) >= Epsilon * Epsilon
    ensures var s := sqrt(SegmentLengthSq(lx1, ly1, lx2, ly2));
            && s >= Epsilon
            && DistanceToLine(lx1, ly1, lx2, ly2, x0, y0, sqrt).dist
               == Abs(Cross2(x0 - lx1, y0 - ly1, lx2 - lx1, ly2 - ly1)) / s
  {
    DenominatorIsLength(lx1, ly1, lx2, ly2, sqrt);
    var l2 := SegmentLengthSq(lx1, ly1, lx2, ly2);
    RootCompare(sqrt(l2), l2, Epsilon);
    NumeratorIsCross(lx1, ly1, lx2, ly2, x0, y0);
  }

  /** A cursor on the line through a segment at least `Epsilon` long is at
      distance 0. */
  lemma CollinearCursorDistanceZero(lx1: real, ly1: real, lx2: real, ly2: real, x0: real, y0: real,
                                    sqrt: real -> real)
    requires IsSqrt(sqrt)
    requires SegmentLengthSq(lx1, ly1, lx2, ly2) >= Epsilon * Epsilon
    requires Cross2(x0 - lx1, y0 - ly1, lx2 - lx1, ly2 - ly1) == 0.0
    ensures DistanceToLine(lx1, ly1, lx2, ly2, x0, y0, sqrt).dist == 0.0
  {
    DistanceIsCrossOverLength(lx1, ly1, lx2, ly2, x0, y0, sqrt);
  }

  /** On a segment at least `Epsilon` long, the offset from the foot point at
      parameter `t` to the cursor is perpendicular to the segment and its
      length is the reported distance: `dist` is the point-to-line distance
      and `t` locates the closest point of the line. */
  lemma DistanceIsToFootPoint(lx1: real, ly1: real, lx2: real, ly2: real, x0: real, y0: real,
                              sqrt: real -> real)
    requires IsSqrt(sqrt)
    requires SegmentLengthSq(lx1, ly1, lx2, ly2) >= Epsilon * Epsilon
    ensures var r := DistanceToLine(lx1, ly1, lx2, ly2, x0, y0, sqrt);
            && r.t.Some?
            && var fx := FootOffset(x0 - lx1, lx2 - lx1, r.t.value);
               var fy := FootOffset(y0 - ly1, ly2 - ly1, r.t.value);
               && Dot2(fx, fy, lx2 - lx1, ly2 - ly1) == 0.0
               && Square(fx) + Square(fy) == Square(r.dist)
  {
    assert Epsilon * Epsilon > 0.0;
    DistanceIsCrossOverLength(lx1, ly1, lx2, ly2, x0, y0, sqrt);
    ParameterIsProjection(lx1, ly1, lx2, ly2, x0, y0, sqrt);
    DenominatorIsLength(lx1, ly1, lx2, ly2, sqrt);
    FootPoint(x0 - lx1, y0 - ly1, lx2 - lx1, ly2 - ly1,
              SegmentLengthSq(lx1, ly1, lx2, ly2), sqrt(SegmentLengthSq(lx1, ly1, lx2, ly2)),
              Dot2(x0 - lx1, y0 - ly1, lx2 - lx1, ly2 - ly1) / SegmentLengthSq(lx1, ly1, lx2, ly2),
              DistanceToLine(lx1, ly1, lx2, ly2, x0, y0, sqrt).dist);
  }

  /** One coordinate of the cursor's offset from the point at parameter `t`
      of the segment, given the cursor's offset `a` from the first endpoint
      and the segment's extent `d`. */
  function FootOffset(a: real, d: real, t: real): real {
    a - t * d
  }

  /** The foot-point facts over the cursor offset `(ax, ay)` and the segment
      vector `(dx, dy)` of squared length `l2` and length `s`. */
  lemma FootPoint(ax: real, ay: real, dx: real, dy: real, l2: real, s: real, t: real, dist: real)
    requires l2 == dy * dy + dx * dx && l2 > 0.0
    requires s > 0.0 && s * s == l2
    requires t == Dot2(ax, ay, dx, dy) / l2
    requires dist == Abs(Cross2(ax, ay, dx, dy)) / s
    ensures Dot2(FootOffset(ax, dx, t), FootOffset(ay, dy, t), dx, dy) == 0.0
    ensures Square(FootOffset(ax, dx, t)) + Square(FootOffset(ay, dy, t)) == Square(dist)
  {
    FootPerpendicular(ax, ay, dx, dy, l2, t);
    FootDistance(ax, ay, dx, dy, l2, t);
    SquareOfQuotient(Abs(Cross2(ax, ay, dx, dy)), s, l2);
    AbsSquare(Cross2(ax, ay, dx, dy));
  }

  lemma AbsSquare(c: real)
    ensures Square(Abs(c)) == Square(c)
  {
  }

  lemma FootPerpendicular(ax: real, ay: real, dx: real, dy: real, l2: real, t: real)
    requires l2 == dy * dy + dx * dx && l2 > 0.0
    requires t == Dot2(ax, ay, dx, dy) / l2
    ensures Dot2(FootOffset(ax, dx, t), FootOffset(ay, dy, t), dx, dy) == 0.0
  {
    DivCancel(Dot2(ax, ay, dx, dy), l2);
    assert Dot2(FootOffset(ax, dx, t), FootOffset(ay, dy, t), dx, dy) == Dot2(ax, ay, dx, dy) - t * l2;
  }

  lemma FootDistance(ax: real, ay: real, dx: real, dy: real, l2: real, t: real)
    requires l2 == dy * dy + dx * dx && l2 > 0.0
    requires t == Dot2(ax, ay, dx, dy) / l2
    ensures Square(FootOffset(ax, dx, t)) + Square(FootOffset(ay, dy, t))
         == Square(Cross2(ax, ay, dx, dy)) / l2
  {
    ExpandFoot(ax, ay, dx, dy, l2, t);
    Lagrange2(ax, ay, dx, dy, l2);
    FootAlgebra(ax * ax + ay * ay, Dot2(ax, ay, dx, dy), Square(Dot2(ax, ay, dx, dy)),
                Square(Cross2(ax, ay, dx, dy)), l2, t);
  }

  /** `w2 - 2tp + t^2 l2 == c2 / l2` when `t == p / l2` and
      `w2 l2 == p^2 + c2`. */
  lemma FootAlgebra(w2: real, p: real, pp: real, c2: real, l2: real, t: real)
    requires l2 > 0.0 && t == p / l2 && pp == p * p
    requires w2 * l2 == pp + c2
    ensures w2 - 2.0 * (t * p) + t * (t * l2) == c2 / l2
  {
    assert t * l2 == p;
    assert t * (t * l2) == t * p;
    DivUnique(t * p, pp, l2) by {
      assert (t * p) * l2 == p * (t * l2);
    }
    DivSub(w2, pp, l2);
    DivUnique(w2, w2 * l2, l2);
  }

  lemma ExpandFoot(ax: real, ay: real, dx: real, dy: real, l2: real, t: real)
    requires l2 == dy * dy + dx * dx
    ensures Square(FootOffset(ax, dx, t)) + Square(FootOffset(ay, dy, t))
         == (ax * ax + ay * ay) - 2.0 * (t * Dot2(ax, ay, dx, dy)) + t * (t * l2)
  {
  }

  /** Lagrange's identity in the plane. */
  lemma Lagrange2(ax: real, ay: real, dx: real, dy: real, l2: real)
    requires l2 == dy * dy + dx * dx
    ensures (ax * ax + ay * ay) * l2 == Square(Dot2(ax, ay, dx, dy)) + Square(Cross2(ax, ay, dx, dy))
  {
  }

  // ---------------------------------------------------------------------
  // raySphereIntersection

  /** The point `t` units along the ray from `origin` in direction `l`. */
  function PointAt(origin: Vec3, l: Vec3, t: real): Vec3 {
    Add(origin, Scale(l, t))
  }

  /** `t` puts the point on the ray on the sphere. */
  ghost predicate OnSphere(origin: Vec3, l: Vec3, center: Vec3, radius: real, t: real) {
    var q := Sub(PointAt(origin, l, t), center);
    Dot(q, q) == radius * radius
  }

  lemma DotExpand(u: Vec3, l: Vec3, t: real)
    ensures Dot(Add(u, Scale(l, t)), Add(u, Scale(l, t)))
         == Dot(u, u) + 2.0 * (t * Dot(l, u)) + t * (t * Dot(l, l))
  {
  }

  /** For a unit direction, `t` is on the sphere exactly when `(t + b)^2`
      equals the discriminant: the sphere test solves that quadratic. */
  lemma OnSphereIffQuadratic(origin: Vec3, l: Vec3, center: Vec3, radius: real, t: real)
    requires Dot(l, l) == 1.0
    ensures OnSphere(origin, l, center, radius, t)
            <==> Square(t + Dot(l, Sub(origin, center))) == Discriminant(l, Sub(origin, center), radius)
  {
    DotExpand(Sub(origin, center), l, t);
    QuadraticOnUnit(Dot(Add(Sub(origin, center), Scale(l, t)), Add(Sub(origin, center), Scale(l, t))),
                    Dot(Sub(origin, center), Sub(origin, center)), Dot(l, Sub(origin, center)),
                    Dot(l, l), radius * radius, t);
    OnSphereIsOffsetLength(origin, l, center, radius, t);
  }

  lemma QuadraticOnUnit(qq: real, dd: real, b: real, ll: real, rr: real, t: real)
    requires ll == 1.0
    requires qq == dd + 2.0 * (t * b) + t * (t * ll)
    ensures qq == rr <==> Square(t + b) == DiscriminantOf(ll, b, dd - rr)
  {
    CompleteSquare(dd, b, rr, t);
  }

  lemma OnSphereIsOffsetLength(origin: Vec3, l: Vec3, center: Vec3, radius: real, t: real)
    ensures OnSphere(origin, l, center, radius, t)
            <==> Dot(Add(Sub(origin, center), Scale(l, t)), Add(Sub(origin, center), Scale(l, t))) == radius * radius
  {
    assert Sub(PointAt(origin, l, t), center) == Add(Sub(origin, center), Scale(l, t));
  }

  lemma CompleteSquare(dd: real, b: real, rr: real, t: real)
    ensures dd + 2.0 * (t * b) + t * t == rr <==> Square(t + b) == b * b - (dd - rr)
  {
    var tb, tt, bb := t * b, t * t, b * b;
    assert (t + b) * (t + b) == tt + 2.0 * tb + bb;
  }

  /** A reported hit lies on the sphere, beyond `Epsilon` along the
      normalised ray. */
  lemma SphereHitIsOnSphere(rayOrigin: Vec3, rayDirection: Vec3, sphereOrigin: Vec3,
                            sphereRadius: real, sqrt: real -> real)
    requires IsSqrt(sqrt)
    requires Dot(rayDirection, rayDirection) != 0.0
    ensures var d := SphereDistance(rayOrigin, rayDirection, sphereOrigin, sphereRadius, sqrt);
            d.Some? ==> d.value > Epsilon
                        && OnSphere(rayOrigin, Normal(rayDirection, sqrt), sphereOrigin, sphereRadius, d.value)
  {
    var l := Normal(rayDirection, sqrt);
    var d := SphereDistance(rayOrigin, rayDirection, sphereOrigin, sphereRadius, sqrt);
    if d.Some? {
      var b := Dot(l, Sub(rayOrigin, sphereOrigin));
      var disc := Discriminant(l, Sub(rayOrigin, sphereOrigin), sphereRadius);
      assert d.value + b == sqrt(disc) || d.value + b == -sqrt(disc);
      RootSquared(d.value + b, disc, sqrt);
      OnSphereIffQuadratic(rayOrigin, l, sphereOrigin, sphereRadius, d.value);
    }
  }

  /** Every point of the ray on the sphere is one of the two roots
      `-b - root` and `-b + root`. */
  lemma SphereRoots(origin: Vec3, l: Vec3, center: Vec3, radius: real, t: real, sqrt: real -> real)
    requires IsSqrt(sqrt)
    requires Dot(l, l) == 1.0
    requires OnSphere(origin, l, center, radius, t)
    ensures Discriminant(l, Sub(origin, center), radius) >= 0.0
    ensures t == -Dot(l, Sub(origin, center)) - sqrt(Discriminant(l, Sub(origin, center), radius))
         || t == -Dot(l, Sub(origin, center)) + sqrt(Discriminant(l, Sub(origin, center), radius))
  {
    OnSphereIffQuadratic(origin, l, center, radius, t);
    SquareIsRootOf(t + Dot(l, Sub(origin, center)), Discriminant(l, Sub(origin, center), radius), sqrt);
  }

  lemma SquareIsRootOf(x: real, v: real, sqrt: real -> real)
    requires IsSqrt(sqrt)
    requires Square(x) == v
    ensures v >= 0.0 && (x == sqrt(v) || x == -sqrt(v))
  {
    SquareNonNegative(x);
    SquareRoots(x, sqrt(v));
  }

  lemma RootSquared(x: real, v: real, sqrt: real -> real)
    requires IsSqrt(sqrt) && v >= 0.0
    requires x == sqrt(v) || x == -sqrt(v)
    ensures Square(x) == v
  {
  }

  /** The reported distance is the nearest point of the sphere beyond
      `Epsilon`. */
  lemma SphereHitIsNearest(rayOrigin: Vec3, rayDirection: Vec3, sphereOrigin: Vec3,
                           sphereRadius: real, t: real, sqrt: real -> real)
    requires IsSqrt(sqrt)
    requires Dot(rayDirection, rayDirection) != 0.0
    requires OnSphere(rayOrigin, Normal(rayDirection, sqrt), sphereOrigin, sphereRadius, t)
    requires t > Epsilon
    ensures var d := SphereDistance(rayOrigin, rayDirection, sphereOrigin, sphereRadius, sqrt);
            d.Some? ==> d.value <= t
  {
    var l := Normal(rayDirection, sqrt);
    SphereRoots(rayOrigin, l, sphereOrigin, sphereRadius, t, sqrt);
    var disc := Discriminant(l, Sub(rayOrigin, sphereOrigin), sphereRadius);
    assert sqrt(disc) >= 0.0;
  }

  /** A miss hides nothing but a tangent: if some point of the ray beyond
      `Epsilon` is on the sphere and none is reported, the ray only touches
      the sphere (zero discriminant). */
  lemma SphereMissIsTangent(rayOrigin: Vec3, rayDirection: Vec3, sphereOrigin: Vec3,
                            sphereRadius: real, t: real, sqrt: real -> real)
    requires IsSqrt(sqrt)
    requires Dot(rayDirection, rayDirection) != 0.0
    requires OnSphere(rayOrigin, Normal(rayDirection, sqrt), sphereOrigin, sphereRadius, t)
    requires t > Epsilon
    requires SphereDistance(rayOrigin, rayDirection, sphereOrigin, sphereRadius, sqrt).None?
    ensures Discriminant(Normal(rayDirection, sqrt), Sub(rayOrigin, sphereOrigin), sphereRadius) == 0.0
  {
    var l := Normal(rayDirection, sqrt);
    SphereRoots(rayOrigin, l, sphereOrigin, sphereRadius, t, sqrt);
  }

  /** A ray aimed along the x axis at the centre of a sphere of any positive
      radius, from one unit outside it, hits the sphere one unit ahead. */
  lemma HeadOnRayHits(center: Vec3, radius: real, sqrt: real -> real)
    requires IsSqrt(sqrt) && radius > 0.0
    ensures SphereDistance(Sub(center, Vec3(radius + 1.0, 0.0, 0.0)), Vec3(1.0, 0.0, 0.0), center, radius, sqrt)
            == Some(1.0)
  {
    var dir := Vec3(1.0, 0.0, 0.0);
    var start := Sub(center, Vec3(radius + 1.0, 0.0, 0.0));
    var diff := Sub(start, center);
    SquareIsRootOf(1.0, 1.0, sqrt);
    var l := Normal(dir, sqrt);
    assert l == dir;
    assert diff == Vec3(-(radius + 1.0), 0.0, 0.0);
    var b := Dot(l, diff);
    assert b == -(radius + 1.0);
    assert Dot(l, l) == 1.0;
    assert Dot(diff, diff) == (radius + 1.0) * (radius + 1.0);
    var disc := Discriminant(l, diff, radius);
    assert disc == radius * radius;
    SquareMonotone(0.0, radius);
    assert disc > 0.0;
    SquareIsRootOf(radius, disc, sqrt);
    assert sqrt(disc) == radius;
    var r := RaySphereIntersection(start, dir, center, radius, Ptr(0.0), sqrt);
    assert -b - sqrt(disc) == 1.0;
    assert r == SphereResult(true, Ptr(1.0));
  }

  // ---------------------------------------------------------------------
  // rayPlaneIntersection

  /** `k` puts the point on the ray on the plane. */
  ghost predicate OnPlane(origin: Vec3, dir: Vec3, pointOnPlane: Vec3, normal: Vec3, k: real) {
    Dot(Sub(PointAt(origin, dir, k), pointOnPlane), normal) == 0.0
  }

  lemma PlaneOffset(origin: Vec3, dir: Vec3, pointOnPlane: Vec3, normal: Vec3, k: real)
    ensures Dot(Sub(PointAt(origin, dir, k), pointOnPlane), normal)
         == k * Dot(dir, normal) - Dot(Sub(pointOnPlane, origin), normal)
  {
  }

  /** The ray meets the plane at `k` exactly when `k * denom == num`. */
  lemma OnPlaneIffParameter(origin: Vec3, dir: Vec3, pointOnPlane: Vec3, normal: Vec3, k: real)
    ensures OnPlane(origin, dir, pointOnPlane, normal, k)
            <==> k * Dot(dir, normal) == Dot(Sub(pointOnPlane, origin), normal)
  {
    PlaneOffset(origin, dir, pointOnPlane, normal, k);
  }

  /** A reported intersection is the point of the ray on the plane, at a
      parameter of at least `Epsilon`. */
  lemma PlaneHitIsOnPlane(rayOrigin: Vec3, rayDirection: Vec3, pointOnPlane: Vec3, planeNormal: Vec3)
    ensures var h := PlaneHit(rayOrigin, rayDirection, pointOnPlane, planeNormal);
            h.Some? ==>
              var k := Dot(Sub(pointOnPlane, rayOrigin), planeNormal) / Dot(rayDirection, planeNormal);
              && k >= Epsilon
              && h.value == PointAt(rayOrigin, rayDirection, k)
              && OnPlane(rayOrigin, rayDirection, pointOnPlane, planeNormal, k)
  {
    var num := Dot(Sub(pointOnPlane, rayOrigin), planeNormal);
    var denom := Dot(rayDirection, planeNormal);
    var h := PlaneHit(rayOrigin, rayDirection, pointOnPlane, planeNormal);
    if h.Some? {
      var k := num / denom;
      DivCancel(num, denom);
      OnPlaneIffParameter(rayOrigin, rayDirection, pointOnPlane, planeNormal, k);
    }
  }

  /** For any crossing `k` of the ray with the plane, the plane test hits
      exactly when the ray is not (nearly) parallel and `k` lies at least
      `Epsilon` ahead. */
  lemma PlaneHitIffCrossingAhead(rayOrigin: Vec3, rayDirection: Vec3, pointOnPlane: Vec3,
                                 planeNormal: Vec3, k: real)
    requires OnPlane(rayOrigin, rayDirection, pointOnPlane, planeNormal, k)
    ensures PlaneHit(rayOrigin, rayDirection, pointOnPlane, planeNormal).Some?
            <==> Abs(Dot(rayDirection, planeNormal)) >= Epsilon && k >= Epsilon
  {
    var num := Dot(Sub(pointOnPlane, rayOrigin), planeNormal);
    var denom := Dot(rayDirection, planeNormal);
    OnPlaneIffParameter(rayOrigin, rayDirection, pointOnPlane, planeNormal, k);
    if denom != 0.0 {
      DivUnique(k, num, denom);
    }
  }
}
