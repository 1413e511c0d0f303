/** What both revisions of the three-axis move manipulator share: its frame
    (origin and axis directions), the screen-space geometry of its handles,
    the distance test against each handle, and its connection to the
    translated node. */
module MoveHandles {
  import opened Numeric
  import opened Vectors
  import opened Util
  import opened RealAlgebra

  /** `MVector::kXaxis` … `kWaxis`; `WAxis` means "no axis". */
  datatype Axis = XAxis | YAxis | ZAxis | WAxis

  /** The handle with index `i`, in the order the source tests them. */
  function AxisOf(i: nat): (r: Axis)
    requires i < 3
    ensures r != WAxis && IndexOf(r) == i
  {
    if i == 0 then XAxis else if i == 1 then YAxis else ZAxis
  }

  function IndexOf(a: Axis): nat {
    match a
    case XAxis => 0
    case YAxis => 1
    case ZAxis => 2
    case WAxis => 3
  }

  /** `_origin`, `_x`, `_y`, `_z`. */
  datatype Frame = Frame(origin: Vec3, x: Vec3, y: Vec3, z: Vec3)

  function Direction(f: Frame, i: nat): Vec3
    requires i < 3
  {
    if i == 0 then f.x else if i == 1 then f.y else f.z
  }

  /** The tip of handle `i` for a handle length of `size`. */
  function AxisEnd(f: Frame, i: nat, size: real): (r: Vec3)
    requires i < 3
    ensures Sub(r, f.origin) == Scale(Direction(f, i), size)
  {
    Add(f.origin, Scale(Direction(f, i), size))
  }

  /** The unit vectors the axes start from. */
  const UnitX: Vec3 := Vec3(1.0, 0.0, 0.0)
  const UnitY: Vec3 := Vec3(0.0, 1.0, 0.0)
  const UnitZ: Vec3 := Vec3(0.0, 0.0, 1.0)

  /** A unit axis times a matrix is the matching row. */
  lemma UnitAxesPickRows(c: Mat3)
    ensures MulVector(UnitX, c) == c.r0 && MulVector(UnitY, c) == c.r1 && MulVector(UnitZ, c) == c.r2
  {
    ScaleByUnit(c.r0);
    ScaleByUnit(c.r1);
    ScaleByUnit(c.r2);
  }

  lemma ScaleByUnit(a: Vec3)
    ensures Scale(a, 1.0) == a && Scale(a, 0.0) == Zero
    ensures Add(a, Zero) == a && Add(Zero, a) == a
  {
  }

  /** The parent (exclusive) and own (inclusive) matrices of the node. */
  datatype Xforms = Xforms(parent: Affine, child: Affine)

  /** What the host reports about the node handed to
      `connectToDependNode`: either a node whose `translate` plug could be
      connected, with its two matrices, or a failure at any of the three
      checks. */
  datatype DependNode = NotConnectable | Connectable(xforms: Xforms)

  datatype ConnectStatus = Connected | ConnectFailed

  /** `connectToDependNode`: a failure leaves the matrices as they were;
      success takes the node's. */
  function ConnectToDependNode(current: Xforms, node: DependNode): (r: (ConnectStatus, Xforms))
    ensures r.0 == Connected <==> node.Connectable?
    ensures node.NotConnectable? ==> r.1 == current
    ensures node.Connectable? ==> r.1 == node.xforms
  {
    match node
    case NotConnectable => (ConnectFailed, current)
    case Connectable(x) => (Connected, x)
  }

  /** A position in view coordinates, as `worldToView` reports it. */
  datatype ScreenPoint = ScreenPoint(x: int, y: int)

  /** What a pick reads from the view: the projection to the screen, the
      cursor position, and the global manipulator and handle sizes. */
  datatype View = View(toView: Vec3 -> ScreenPoint, mouse: ScreenPoint, globalSize: real, handleSize: real)

  /** The length of a handle on screen. */
  function ScreenLength(o: ScreenPoint, e: ScreenPoint, sqrt: real -> real): (r: real)
    requires IsSqrt(sqrt)
    ensures r >= 0.0
    ensures r * r == ((e.x - o.x) * (e.x - o.x) + (e.y - o.y) * (e.y - o.y)) as real
  {
    var dx := (e.x - o.x) as real;
    var dy := (e.y - o.y) as real;
    assert dx * dx >= 0.0 && dy * dy >= 0.0;
    sqrt(dx * dx + dy * dy)
  }

  /** The screen points of the origin and of the three tips. */
  datatype Projected = Projected(origin: ScreenPoint, ends: seq<ScreenPoint>)

  function Project(f: Frame, size: real, toView: Vec3 -> ScreenPoint): (r: Projected)
    ensures |r.ends| == 3
    ensures r.origin == toView(f.origin)
    ensures forall i :: 0 <= i < 3 ==> r.ends[i] == toView(AxisEnd(f, i, size))
  {
    Projected(toView(f.origin), [toView(AxisEnd(f, 0, size)), toView(AxisEnd(f, 1, size)), toView(AxisEnd(f, 2, size))])
  }

  /** The approximate handle length in view space: the longest of the three
      on-screen handles, and never below 0. */
  function ViewLength(p: Projected, sqrt: real -> real): (r: real)
    requires IsSqrt(sqrt) && |p.ends| == 3
    ensures r >= 0.0
    ensures forall i :: 0 <= i < 3 ==> ScreenLength(p.origin, p.ends[i], sqrt) <= r
    ensures exists i :: 0 <= i < 3 && r == ScreenLength(p.origin, p.ends[i], sqrt)
  {
    var l0 := ScreenLength(p.origin, p.ends[0], sqrt);
    var l1 := ScreenLength(p.origin, p.ends[1], sqrt);
    var l2 := ScreenLength(p.origin, p.ends[2], sqrt);
    Max(Max(Max(0.0, l0), l1), l2)
  }

  /** The height of a handle's cone for a handle of length `length`:
      `handleSize` is a percentage, and the cone takes half of it. */
  function HandleHeight(length: real, handleSize: real): real {
    length * (handleSize / 100.0) * 0.5
  }

  /** The pick radius around a handle on screen: a fraction of the cone
      height, but never less than `floor` pixels. */
  function PickRadius(viewLength: real, handleSize: real, fraction: real, floor: real): (r: real)
    ensures r >= floor && r >= HandleHeight(viewLength, handleSize) * fraction
    ensures r == floor || r == HandleHeight(viewLength, handleSize) * fraction
  {
    Max(HandleHeight(viewLength, handleSize) * fraction, floor)
  }

  /** The cursor's distance to each on-screen handle, in handle order. */
  function AxisDistances(p: Projected, mouse: ScreenPoint, sqrt: real -> real): (r: seq<LineDistance>)
    requires IsSqrt(sqrt) && |p.ends| == 3
    ensures |r| == 3
    ensures forall i :: 0 <= i < 3 ==>
              r[i] == DistanceToLine(p.origin.x as real, p.origin.y as real, p.ends[i].x as real,
                                     p.ends[i].y as real, mouse.x as real, mouse.y as real, sqrt)
  {
    seq(3, i requires 0 <= i < 3 =>
      DistanceToLine(p.origin.x as real, p.origin.y as real, p.ends[i].x as real,
                     p.ends[i].y as real, mouse.x as real, mouse.y as real, sqrt))
  }

  /** The cursor is within `radius` of the handle and beside the segment
      rather than beyond either end. */
  predicate Near(d: LineDistance, radius: real) {
    d.dist < radius && InUnitRange(d.t)
  }

  /** A handle the cursor is near lies within the screen segment: its foot
      point is between the origin and the tip. */
  lemma NearIsBesideSegment(lx1: real, ly1: real, lx2: real, ly2: real, x0: real, y0: real,
                            radius: real, sqrt: real -> real)
    requires IsSqrt(sqrt)
    requires Near(DistanceToLine(lx1, ly1, lx2, ly2, x0, y0, sqrt), radius)
    ensures SegmentLengthSq(lx1, ly1, lx2, ly2) != 0.0
    ensures var t := DistanceToLine(lx1, ly1, lx2, ly2, x0, y0, sqrt).t.value;
            0.0 <= t <= 1.0
            && t * SegmentLengthSq(lx1, ly1, lx2, ly2) == Dot2(x0 - lx1, y0 - ly1, lx2 - lx1, ly2 - ly1)
  {
    SquaresNonNegative(lx2 - lx1, ly2 - ly1);
    if SegmentLengthSq(lx1, ly1, lx2, ly2) == 0.0 {
      RootOfZero(sqrt);
      assert false;
    }
    ParameterIsProjection(lx1, ly1, lx2, ly2, x0, y0, sqrt);
    DivCancel(Dot2(x0 - lx1, y0 - ly1, lx2 - lx1, ly2 - ly1), SegmentLengthSq(lx1, ly1, lx2, ly2));
  }

  lemma RootOfZero(sqrt: real -> real)
    requires IsSqrt(sqrt)
    ensures sqrt(0.0) == 0.0
  {
    ZeroProduct(sqrt(0.0), sqrt(0.0));
  }

  /** The cone drawn at each tip: the handle `size`, the cone's height, the
      offset along the axis where it starts, and its base radius. */
  datatype Cone = Cone(size: real, height: real, offset: real, radius: real)

  function ConeMetrics(manipScale: real, globalSize: real, handleSize: real): (r: Cone)
    ensures r.size == manipScale * globalSize
    ensures r.offset + r.height == r.size
    ensures r.radius * 4.0 == r.height
    ensures r.height == HandleHeight(r.size, handleSize)
  {
    var size := manipScale * globalSize;
    var height := HandleHeight(size, handleSize);
    Cone(size, height, size - height, height * 0.25)
  }
}
