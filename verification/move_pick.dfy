/** The first revision of the move manipulator: it tracks which axis handle
    the cursor hovers over, so that the handle can be drawn highlighted.
    The nearest handle within the pick radius wins; the first one on ties. */
module MovePick {
  import opened Numeric
  import opened Vectors
  import opened Util
  import opened MoveHandles

  /** `_selectedAxis`, `_manipScale`, the point value `translate`, the two
      matrices and the frame recomputed from them. */
  datatype Manip = Manip(selectedAxis: Axis, manipScale: real, translate: Vec3, xforms: Xforms, frame: Frame)

  /** The constructor starts with no axis selected. */
  function Construct(manipScale: real, translate: Vec3, xforms: Xforms, frame: Frame): (m: Manip)
    ensures !Active(m)
  {
    Manip(WAxis, manipScale, translate, xforms, frame)
  }

  /** `active`. */
  predicate Active(m: Manip) {
    m.selectedAxis != WAxis
  }

  /** A handle that can win: near the cursor and strictly closer than the
      initial `FloatMax` bound. */
  predicate Candidate(d: LineDistance, radius: real) {
    Near(d, radius) && d.dist < FloatMax
  }

  /** Reference definition: no axis if no handle is a candidate; otherwise a
      candidate at least as close as every candidate and strictly closer
      than every earlier one. */
  ghost predicate IsNearest(ds: seq<LineDistance>, radius: real, a: Axis)
    requires |ds| == 3
  {
    if forall k :: 0 <= k < 3 ==> !Candidate(ds[k], radius) then a == WAxis
    else
      a != WAxis && Candidate(ds[IndexOf(a)], radius)
      && (forall k :: 0 <= k < 3 && Candidate(ds[k], radius) ==> ds[IndexOf(a)].dist <= ds[k].dist)
      && (forall k :: 0 <= k < IndexOf(a) && Candidate(ds[k], radius) ==> ds[IndexOf(a)].dist < ds[k].dist)
  }

  /** The axis chosen so far and `minDist`. */
  datatype Best = Best(axis: Axis, dist: real)

  /** The first `n` of the three tests, each replacing the best when its
      handle is near and strictly closer than `minDist`. */
  function PickScan(ds: seq<LineDistance>, radius: real, n: nat): (b: Best)
    requires n <= |ds| == 3
    ensures b.axis == WAxis <==> forall k :: 0 <= k < n ==> !Candidate(ds[k], radius)
    ensures b.axis == WAxis ==> b.dist == FloatMax
    ensures b.axis != WAxis ==>
              IndexOf(b.axis) < n && Candidate(ds[IndexOf(b.axis)], radius) && b.dist == ds[IndexOf(b.axis)].dist
    ensures forall k :: 0 <= k < n && Candidate(ds[k], radius) ==> b.dist <= ds[k].dist
    ensures b.axis != WAxis ==>
              forall k :: 0 <= k < IndexOf(b.axis) && Candidate(ds[k], radius) ==> b.dist < ds[k].dist
  {
    if n == 0 then Best(WAxis, FloatMax)
    else
      var prev := PickScan(ds, radius, n - 1);
      var d := ds[n - 1];
      if d.dist < prev.dist && Near(d, radius) then Best(AxisOf(n - 1), d.dist) else prev
  }

  /** The axis the three tests leave selected. */
  function PickAxis(ds: seq<LineDistance>, radius: real): (a: Axis)
    requires |ds| == 3
    ensures IsNearest(ds, radius, a)
  {
    PickScan(ds, radius, 3).axis
  }

  /** The reference definition admits a single axis. */
  lemma NearestIsUnique(ds: seq<LineDistance>, radius: real, a: Axis, b: Axis)
    requires |ds| == 3 && IsNearest(ds, radius, a) && IsNearest(ds, radius, b)
    ensures a == b
  {
  }

  /** The pick radius of this revision: 0.4 of the cone height, at least 2. */
  function HoverRadius(p: Projected, handleSize: real, sqrt: real -> real): (r: real)
    requires IsSqrt(sqrt) && |p.ends| == 3
    ensures r >= 2.0
  {
    PickRadius(ViewLength(p, sqrt), handleSize, 0.4, 2.0)
  }

  /** The screen geometry of the handles for the current scale and view. */
  function Screen(frame: Frame, manipScale: real, v: View): (p: Projected)
    ensures |p.ends| == 3
  {
    Project(frame, manipScale * v.globalSize, v.toView)
  }

  /** `doMove`: reselects the hovered axis and asks for a refresh exactly
      when it changed; nothing else changes. */
  function DoMove(m: Manip, v: View, sqrt: real -> real): (r: (Manip, bool))
    requires IsSqrt(sqrt)
    ensures r.0 == m.(selectedAxis := r.0.selectedAxis)
    ensures var p := Screen(m.frame, m.manipScale, v);
            IsNearest(AxisDistances(p, v.mouse, sqrt), HoverRadius(p, v.handleSize, sqrt), r.0.selectedAxis)
    ensures r.1 <==> r.0.selectedAxis != m.selectedAxis
  {
    var p := Screen(m.frame, m.manipScale, v);
    var axis := PickAxis(AxisDistances(p, v.mouse, sqrt), HoverRadius(p, v.handleSize, sqrt));
    (m.(selectedAxis := axis), axis != m.selectedAxis)
  }

  /** The cursor staying put selects the same axis again, without a
      refresh. */
  lemma DoMoveIsStable(m: Manip, v: View, sqrt: real -> real)
    requires IsSqrt(sqrt)
    ensures var once := DoMove(m, v, sqrt).0;
            DoMove(once, v, sqrt) == (once, false)
  {
    var once := DoMove(m, v, sqrt).0;
    assert once.frame == m.frame && once.manipScale == m.manipScale;
  }

  /** After a move the manipulator is active exactly when the cursor is
      near one of the three handles. */
  lemma ActiveIffNearAHandle(m: Manip, v: View, sqrt: real -> real)
    requires IsSqrt(sqrt)
    ensures var p := Screen(m.frame, m.manipScale, v);
            var ds := AxisDistances(p, v.mouse, sqrt);
            Active(DoMove(m, v, sqrt).0)
            <==> exists k :: 0 <= k < 3 && Candidate(ds[k], HoverRadius(p, v.handleSize, sqrt))
  {
  }

  /** `setManipScale`; `manipScale` reads it back. */
  function SetManipScale(m: Manip, scale: real): (r: Manip)
    ensures r.manipScale == scale
    ensures r.(manipScale := m.manipScale) == m
  {
    m.(manipScale := scale)
  }

  /** `recalcMetrics`: the axes are the unit axes carried through the
      node's own matrix, i.e. that matrix's rows, with no normalisation; the
      origin is the translate value placed by the parent matrix. */
  function RecalcMetrics(m: Manip): (r: Manip)
    ensures r.frame.x == m.xforms.child.linear.r0
    ensures r.frame.y == m.xforms.child.linear.r1
    ensures r.frame.z == m.xforms.child.linear.r2
    ensures r.frame.origin == Add(MulVector(m.translate, m.xforms.parent.linear), m.xforms.parent.offset)
    ensures r.(frame := m.frame) == m
  {
    var c := m.xforms.child.linear;
    UnitAxesPickRows(c);
    m.(frame := Frame(MulPoint(m.translate, m.xforms.parent), MulVector(UnitX, c), MulVector(UnitY, c),
                      MulVector(UnitZ, c)))
  }

  /** `connectToDependNode`: takes the node's matrices on success. */
  function Connect(m: Manip, node: DependNode): (r: (ConnectStatus, Manip))
    ensures r.0 == Connected <==> node.Connectable?
    ensures r.1 == m.(xforms := ConnectToDependNode(m.xforms, node).1)
  {
    var c := ConnectToDependNode(m.xforms, node);
    (c.0, m.(xforms := c.1))
  }

  /** What `drawUI` draws for each handle: whether it is in the selection
      colour, and its cone. */
  function HandleHighlighted(m: Manip, i: nat): (r: bool)
    requires i < 3
    ensures r <==> Active(m) && IndexOf(m.selectedAxis) == i
  {
    m.selectedAxis == AxisOf(i)
  }
}
