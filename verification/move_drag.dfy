/** The later revision of the move manipulator: pressing a handle fixes a
    drag plane that contains the handle's axis and faces the view, and
    dragging moves the node's translation along that axis by the cursor's
    displacement on the plane, projected onto the axis. */
module MoveDrag {
  import opened Wrappers
  import opened Numeric
  import opened Vectors
  import opened RealAlgebra
  import opened Util
  import opened MoveHandles

  datatype Status = Success | UnknownParameter

  /** What a press records for the drag: `_opValid`, `_opAxis`,
      `_opAxisIndex`, `_opOrigin`, `_opPlaneNormal`, `_opHitBegin`,
      `_opValueBegin`, and the three axes in parent space. */
  datatype Op = Op(valid: bool, axis: Vec3, axisIndex: int, origin: Vec3, planeNormal: Vec3,
                   hitBegin: Vec3, valueBegin: Vec3, xInParent: Vec3, yInParent: Vec3, zInParent: Vec3)

  /** The point value `translate`, `_manipScale`, the node's matrices, the
      frame computed from them, and the drag state. */
  datatype Manip = Manip(translate: Vec3, manipScale: real, xforms: Xforms, frame: Frame, op: Op)

  /** A valid drag has a real axis: one of the three, and not the zero
      vector, so the projection onto it is defined. */
  predicate Good(m: Manip) {
    m.op.valid ==> 0 <= m.op.axisIndex < 3 && Dot(m.op.axis, m.op.axis) != 0.0
  }

  /** The handle axes from the frame, carried into the parent's space by
      the inverse of the parent matrix. */
  function InParent(op: Op, i: int): Vec3 {
    if i == 0 then op.xInParent else if i == 1 then op.yInParent else op.zInParent
  }

  /** The drag plane's normal: perpendicular to the axis, and to the
      direction that is itself perpendicular to both the axis and the view
      ray, so that the plane holds the axis and faces the view. */
  function DragPlaneNormal(dirToOrigin: Vec3, axis: Vec3): (r: Vec3)
    ensures Dot(r, axis) == 0.0
  {
    CrossPerpendicularRight(Cross(dirToOrigin, axis), axis);
    Cross(Cross(dirToOrigin, axis), axis)
  }

  /** `doPress`. `activeName - firstName` is which handle the host reports
      pressed; `dirToOrigin` is the view ray through the projected origin.
      The begin value is recorded first; an unknown handle or a ray that
      misses the drag plane leaves the drag invalid. */
  function DoPress(m: Manip, activeName: int, firstName: int, dirToOrigin: Vec3, rayOrigin: Vec3,
                   rayDirection: Vec3, parentInverse: Mat3): (r: (Status, Manip))
    ensures r.0 == Success <==> r.1.op.valid
    ensures r.1.op.valueBegin == m.translate
    ensures r.1.(op := m.op) == m
    ensures !(0 <= activeName - firstName < 3) ==>
              r.0 == UnknownParameter && r.1.op.axis == Zero && r.1.op.axisIndex == m.op.axisIndex
    ensures 0 <= activeName - firstName < 3 ==>
              r.1.op.axisIndex == activeName - firstName
              && r.1.op.axis == Direction(m.frame, activeName - firstName)
              && r.1.op.origin == m.frame.origin
              && r.1.op.planeNormal == DragPlaneNormal(dirToOrigin, r.1.op.axis)
    ensures r.1.op.valid ==>
              PlaneHit(rayOrigin, rayDirection, r.1.op.origin, r.1.op.planeNormal) == Some(r.1.op.hitBegin)
              && r.1.op.xInParent == MulVector(m.frame.x, parentInverse)
              && r.1.op.yInParent == MulVector(m.frame.y, parentInverse)
              && r.1.op.zInParent == MulVector(m.frame.z, parentInverse)
    ensures Good(r.1)
  {
    var begun := m.op.(valueBegin := m.translate);
    var idx := activeName - firstName;
    if !(0 <= idx < 3) then
      (UnknownParameter, m.(op := begun.(axis := Zero, valid := false)))
    else
      var axis := Direction(m.frame, idx);
      var normal := DragPlaneNormal(dirToOrigin, axis);
      var op := begun.(axis := axis, axisIndex := idx, origin := m.frame.origin, planeNormal := normal);
      match PlaneHit(rayOrigin, rayDirection, m.frame.origin, normal)
      case None => (UnknownParameter, m.(op := op.(valid := false)))
      case Some(isect) =>
        ZeroAxisNeverHits(dirToOrigin, axis, rayOrigin, rayDirection, m.frame.origin);
        (Success, m.(op := op.(hitBegin := isect, valid := true,
                               xInParent := MulVector(m.frame.x, parentInverse),
                               yInParent := MulVector(m.frame.y, parentInverse),
                               zInParent := MulVector(m.frame.z, parentInverse))))
  }

  /** A zero axis gives a zero plane normal, and a ray never meets a plane
      with a zero normal. */
  lemma ZeroAxisNeverHits(dirToOrigin: Vec3, axis: Vec3, rayOrigin: Vec3, rayDirection: Vec3, origin: Vec3)
    ensures PlaneHit(rayOrigin, rayDirection, origin, DragPlaneNormal(dirToOrigin, axis)).Some? ==>
              Dot(axis, axis) != 0.0
  {
    if Dot(axis, axis) == 0.0 {
      SquaresVanish(axis);
      CrossWithZero(dirToOrigin);
      CrossWithZero(Cross(dirToOrigin, Zero));
      PlaneHitZeroNormal(rayOrigin, rayDirection, origin);
    }
  }

  lemma CrossWithZero(a: Vec3)
    ensures Cross(a, Zero) == Zero
  {
  }

  lemma PlaneHitZeroNormal(rayOrigin: Vec3, rayDirection: Vec3, origin: Vec3)
    ensures PlaneHit(rayOrigin, rayDirection, origin, Zero).None?
  {
    assert Dot(rayDirection, Zero) == 0.0;
  }

  lemma SquaresVanish(a: Vec3)
    requires Dot(a, a) == 0.0
    ensures a == Zero
  {
    assert Square(a.x) + Square(a.y) + Square(a.z) == 0.0;
    SquaresSumZero(a.x, a.y, a.z);
  }

  lemma SquaresSumZero(p: real, q: real, r: real)
    requires Square(p) + Square(q) + Square(r) == 0.0
    ensures p == 0.0 && q == 0.0 && r == 0.0
  {
    SquareNonNegative(p);
    SquareNonNegative(q);
    SquareNonNegative(r);
    assert Square(p) == 0.0 && Square(q) == 0.0 && Square(r) == 0.0;
    ZeroProduct(p, p);
    ZeroProduct(q, q);
    ZeroProduct(r, r);
  }

  /** A successful press starts the drag on the plane through the origin:
      the first hit lies on the drag plane, and so does the whole axis. */
  lemma PressHitIsOnDragPlane(m: Manip, activeName: int, firstName: int, dirToOrigin: Vec3, rayOrigin: Vec3,
                              rayDirection: Vec3, parentInverse: Mat3)
    ensures var op := DoPress(m, activeName, firstName, dirToOrigin, rayOrigin, rayDirection, parentInverse).1.op;
            op.valid ==>
              Dot(Sub(op.hitBegin, op.origin), op.planeNormal) == 0.0
              && Dot(op.axis, op.planeNormal) == 0.0
  {
    var op := DoPress(m, activeName, firstName, dirToOrigin, rayOrigin, rayDirection, parentInverse).1.op;
    if op.valid {
      PlaneHitIsOnPlane(rayOrigin, rayDirection, op.origin, op.planeNormal);
    }
  }

  /** How far along the axis, in multiples of the axis, the displacement
      `diff` reaches: its component along the unit axis divided by the
      axis length. */
  function DragOffset(diff: Vec3, axis: Vec3, sqrt: real -> real): real
    requires IsSqrt(sqrt) && Dot(axis, axis) != 0.0
  {
    AxisLengthPositive(axis, sqrt);
    Dot(diff, Normal(axis, sqrt)) / Length(axis, sqrt)
  }

  lemma AxisLengthPositive(axis: Vec3, sqrt: real -> real)
    requires IsSqrt(sqrt) && Dot(axis, axis) != 0.0
    ensures Length(axis, sqrt) > 0.0
  {
    DotSelfNonNegative(axis);
    RootPositive(Length(axis, sqrt), Dot(axis, axis));
  }

  /** The offset is the orthogonal projection coefficient: what is left of
      the displacement after taking `offset` axes away is perpendicular to
      the axis. */
  lemma DragOffsetIsProjection(diff: Vec3, axis: Vec3, sqrt: real -> real)
    requires IsSqrt(sqrt) && Dot(axis, axis) != 0.0
    ensures DragOffset(diff, axis, sqrt) * Dot(axis, axis) == Dot(diff, axis)
    ensures Dot(Sub(diff, Scale(axis, DragOffset(diff, axis, sqrt))), axis) == 0.0
  {
    AxisLengthPositive(axis, sqrt);
    NormalDot(diff, axis, Length(axis, sqrt), sqrt);
    DivTwice(Dot(diff, axis), Length(axis, sqrt), Dot(axis, axis));
    DivCancel(Dot(diff, axis), Dot(axis, axis));
    DotOfDifference(diff, axis, DragOffset(diff, axis, sqrt));
  }

  lemma NormalDot(diff: Vec3, axis: Vec3, len: real, sqrt: real -> real)
    requires IsSqrt(sqrt) && len == Length(axis, sqrt) && len > 0.0
    ensures Dot(diff, Normal(axis, sqrt)) == Dot(diff, axis) / len
  {
    assert Normal(axis, sqrt) == Scale(axis, 1.0 / len);
    DotScaled(diff, axis, 1.0 / len);
    MulDiv(1.0, Dot(diff, axis), len);
  }

  lemma DotScaled(u: Vec3, a: Vec3, k: real)
    ensures Dot(u, Scale(a, k)) == k * Dot(u, a)
  {
  }

  lemma DotOfDifference(u: Vec3, a: Vec3, k: real)
    ensures Dot(Sub(u, Scale(a, k)), a) == Dot(u, a) - k * Dot(a, a)
  {
  }

  /** The translation a drag to the plane point `isect` sets. */
  function DraggedTranslate(op: Op, isect: Vec3, sqrt: real -> real): Vec3
    requires IsSqrt(sqrt) && Dot(op.axis, op.axis) != 0.0
  {
    var ofs := DragOffset(Sub(isect, op.hitBegin), op.axis, sqrt);
    if 0 <= op.axisIndex < 3 then Add(op.valueBegin, Scale(InParent(op, op.axisIndex), ofs))
    else op.valueBegin
  }

  /** `doDrag`. Without a valid press it fails and changes nothing; a ray
      past the horizon of the drag plane leaves the node where it is;
      otherwise only the translation changes, to the begin value moved
      along the pressed axis in parent space. */
  function DoDrag(m: Manip, rayOrigin: Vec3, rayDirection: Vec3, sqrt: real -> real): (r: (Status, Manip))
    requires IsSqrt(sqrt) && Good(m)
    ensures !m.op.valid <==> r.0 == UnknownParameter
    ensures !m.op.valid ==> r.1 == m
    ensures r.1 == m.(translate := r.1.translate)
    ensures m.op.valid && PlaneHit(rayOrigin, rayDirection, m.op.origin, m.op.planeNormal).None? ==> r.1 == m
    ensures m.op.valid && PlaneHit(rayOrigin, rayDirection, m.op.origin, m.op.planeNormal).Some? ==>
              var isect := PlaneHit(rayOrigin, rayDirection, m.op.origin, m.op.planeNormal).value;
              Sub(r.1.translate, m.op.valueBegin)
              == Scale(InParent(m.op, m.op.axisIndex), DragOffset(Sub(isect, m.op.hitBegin), m.op.axis, sqrt))
    ensures Good(r.1)
  {
    if !m.op.valid then (UnknownParameter, m)
    else
      match PlaneHit(rayOrigin, rayDirection, m.op.origin, m.op.planeNormal)
      case None => (Success, m)
      case Some(isect) =>
        var moved := DraggedTranslate(m.op, isect, sqrt);
        AddThenSub(m.op.valueBegin, Scale(InParent(m.op, m.op.axisIndex),
                                          DragOffset(Sub(isect, m.op.hitBegin), m.op.axis, sqrt)));
        (Success, m.(translate := moved))
  }

  lemma AddThenSub(a: Vec3, b: Vec3)
    ensures Sub(Add(a, b), a) == b
  {
  }

  /** Dragging back to where the press hit the plane restores the begin
      value. */
  lemma DragToAnchorRestores(m: Manip, rayOrigin: Vec3, rayDirection: Vec3, sqrt: real -> real)
    requires IsSqrt(sqrt) && Good(m) && m.op.valid
    requires PlaneHit(rayOrigin, rayDirection, m.op.origin, m.op.planeNormal) == Some(m.op.hitBegin)
    ensures DoDrag(m, rayOrigin, rayDirection, sqrt).1.translate == m.op.valueBegin
  {
    var zero := Sub(m.op.hitBegin, m.op.hitBegin);
    assert zero == Zero;
    assert Dot(zero, Normal(m.op.axis, sqrt)) == 0.0;
    ScaleByUnit(InParent(m.op, m.op.axisIndex));
  }

  /** During a drag the node stays on the line through the begin value
      along the pressed axis in parent space. */
  ghost predicate OnAxisLine(m: Manip) {
    m.op.valid ==> exists k :: Sub(m.translate, m.op.valueBegin) == Scale(InParent(m.op, m.op.axisIndex), k)
  }

  /** A press starts the drag on that line, at its begin value. */
  lemma PressStartsOnAxisLine(m: Manip, activeName: int, firstName: int, dirToOrigin: Vec3, rayOrigin: Vec3,
                              rayDirection: Vec3, parentInverse: Mat3)
    ensures OnAxisLine(DoPress(m, activeName, firstName, dirToOrigin, rayOrigin, rayDirection, parentInverse).1)
  {
    var r := DoPress(m, activeName, firstName, dirToOrigin, rayOrigin, rayDirection, parentInverse).1;
    ScaleByUnit(InParent(r.op, r.op.axisIndex));
    assert Sub(m.translate, m.translate) == Zero;
    assert Sub(r.translate, r.op.valueBegin) == Scale(InParent(r.op, r.op.axisIndex), 0.0);
  }

  /** Every drag keeps the node on the line. */
  lemma DragKeepsOnAxisLine(m: Manip, rayOrigin: Vec3, rayDirection: Vec3, sqrt: real -> real)
    requires IsSqrt(sqrt) && Good(m) && OnAxisLine(m)
    ensures OnAxisLine(DoDrag(m, rayOrigin, rayDirection, sqrt).1)
  {
    if m.op.valid && PlaneHit(rayOrigin, rayDirection, m.op.origin, m.op.planeNormal).Some? {
      var isect := PlaneHit(rayOrigin, rayDirection, m.op.origin, m.op.planeNormal).value;
      var k := DragOffset(Sub(isect, m.op.hitBegin), m.op.axis, sqrt);
      assert Sub(DoDrag(m, rayOrigin, rayDirection, sqrt).1.translate, m.op.valueBegin)
          == Scale(InParent(m.op, m.op.axisIndex), k);
    }
  }

  /** A press and a drag in a row never leave the invariant. */
  lemma PressThenDragIsGood(m: Manip, activeName: int, firstName: int, dirToOrigin: Vec3, rayOrigin: Vec3,
                            rayDirection: Vec3, parentInverse: Mat3, dragOrigin: Vec3, dragDirection: Vec3,
                            sqrt: real -> real)
    requires IsSqrt(sqrt)
    ensures var pressed := DoPress(m, activeName, firstName, dirToOrigin, rayOrigin, rayDirection, parentInverse).1;
            Good(DoDrag(pressed, dragOrigin, dragDirection, sqrt).1)
  {
  }

  /** `intersectManip`: whether the cursor is near any handle, with a
      generous pick radius (0.3 of the cone height, at least 4 pixels). */
  function IntersectManip(m: Manip, v: View, sqrt: real -> real): (r: bool)
    requires IsSqrt(sqrt)
    ensures var p := Project(m.frame, m.manipScale * v.globalSize, v.toView);
            var ds := AxisDistances(p, v.mouse, sqrt);
            r <==> exists k :: 0 <= k < 3 && Near(ds[k], PickRadius(ViewLength(p, sqrt), v.handleSize, 0.3, 4.0))
  {
    var p := Project(m.frame, m.manipScale * v.globalSize, v.toView);
    var radius := PickRadius(ViewLength(p, sqrt), v.handleSize, 0.3, 4.0);
    var ds := AxisDistances(p, v.mouse, sqrt);
    Near(ds[0], radius) || Near(ds[1], radius) || Near(ds[2], radius)
  }

  /** A reported intersection is beside a handle of positive screen
      length, between its origin and its tip. */
  lemma IntersectIsBesideAHandle(m: Manip, v: View, sqrt: real -> real)
    requires IsSqrt(sqrt) && IntersectManip(m, v, sqrt)
    ensures var p := Project(m.frame, m.manipScale * v.globalSize, v.toView);
            exists k :: 0 <= k < 3 && SegmentLengthSq(p.origin.x as real, p.origin.y as real,
                                                      p.ends[k].x as real, p.ends[k].y as real) != 0.0
  {
    var p := Project(m.frame, m.manipScale * v.globalSize, v.toView);
    var ds := AxisDistances(p, v.mouse, sqrt);
    var radius := PickRadius(ViewLength(p, sqrt), v.handleSize, 0.3, 4.0);
    var k :| 0 <= k < 3 && Near(ds[k], radius);
    NearIsBesideSegment(p.origin.x as real, p.origin.y as real, p.ends[k].x as real, p.ends[k].y as real,
                        v.mouse.x as real, v.mouse.y as real, radius, sqrt);
  }

  /** `setManipScale`; `manipScale` reads it back. */
  function SetManipScale(m: Manip, scale: real): (r: Manip)
    ensures r.manipScale == scale
    ensures r.(manipScale := m.manipScale) == m
  {
    m.(manipScale := scale)
  }

  /** `recalcMetrics`: the node's own matrix rows, normalised, and the
      translate value placed by the parent matrix. Each unit axis times the
      matrix is its row (`UnitAxesPickRows`), so the rows are taken
      directly. */
  function RecalcMetrics(m: Manip, sqrt: real -> real): (r: Manip)
    requires IsSqrt(sqrt)
    ensures r.frame.origin == MulPoint(m.translate, m.xforms.parent)
    ensures r.(frame := m.frame) == m
    ensures var c := m.xforms.child.linear;
            (Dot(c.r0, c.r0) != 0.0 ==> Dot(r.frame.x, r.frame.x) == 1.0 && Scale(r.frame.x, Length(c.r0, sqrt)) == c.r0)
            && (Dot(c.r1, c.r1) != 0.0 ==> Dot(r.frame.y, r.frame.y) == 1.0 && Scale(r.frame.y, Length(c.r1, sqrt)) == c.r1)
            && (Dot(c.r2, c.r2) != 0.0 ==> Dot(r.frame.z, r.frame.z) == 1.0 && Scale(r.frame.z, Length(c.r2, sqrt)) == c.r2)
  {
    var c := m.xforms.child.linear;
    m.(frame := Frame(MulPoint(m.translate, m.xforms.parent), Normal(c.r0, sqrt), Normal(c.r1, sqrt), Normal(c.r2, sqrt)))
  }

  /** `connectToDependNode`: takes the node's matrices on success. */
  function Connect(m: Manip, node: DependNode): (r: (ConnectStatus, Manip))
    ensures r.0 == Connected <==> node.Connectable?
    ensures r.1 == m.(xforms := ConnectToDependNode(m.xforms, node).1)
  {
    var c := ConnectToDependNode(m.xforms, node);
    (c.0, m.(xforms := c.1))
  }
}
