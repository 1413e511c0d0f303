/** The mannequin picking manipulator: as the cursor moves over the mesh it
    highlights the joint that dominates the face under the cursor and asks
    the host to select every face that joint dominates. The highlight only
    changes, and the view only refreshes, when the joint changes. */
module MannequinManipulator {
  import opened Vectors
  import opened DagPaths
  import opened Scene

  /** `_ctx != NULL` and `_highlight`. */
  datatype Manip = Manip(attached: bool, highlight: DagPath)

  /** The constructor: no context and an invalid highlight. */
  const Constructed: Manip := Manip(false, Invalid)

  /** A valid highlight is only ever set on a manipulator that has its
      context; the error path relies on it to read the committed selection. */
  predicate Consistent(m: Manip) {
    IsValid(m.highlight) ==> m.attached
  }

  /** `setup`: attaches the context and installs the inherited highlight. */
  function Setup(newHighlight: DagPath): (m: Manip)
    ensures m.attached && m.highlight == newHighlight
    ensures Consistent(m)
  {
    Manip(true, newHighlight)
  }

  /** `highlightedDagPath`: the highlight when it is a transform, else an
      invalid path. */
  function HighlightedDagPath(world: World, m: Manip): (r: DagPath)
    ensures r == Invalid || (r == m.highlight && IsTransform(world, r))
    ensures IsTransform(world, m.highlight) ==> r == m.highlight
  {
    if IsTransform(world, m.highlight) then m.highlight else Invalid
  }

  datatype Status = Success | UnknownParameter

  /** The result of a cursor move: the status returned, the manipulator
      afterwards, the in/out `refresh` flag, and the host selection. */
  datatype MoveOutcome = MoveOutcome(status: Status, manip: Manip, refresh: bool, host: HostSelection)

  /** `doMoveError`: a valid highlight is cleared, the host selection falls
      back to the committed joint selection (or is cleared), and the view is
      refreshed; an invalid highlight leaves everything as it was. The
      status is always a failure. */
  function DoMoveError(m: Manip, selection: DagPath, refresh: bool, host: HostSelection): (r: MoveOutcome)
    requires Consistent(m)
    ensures r.status == UnknownParameter
    ensures IsValid(m.highlight) ==>
              r.manip == Manip(m.attached, Invalid) && r.refresh
              && r.host == (if IsValid(selection) then Object(selection) else NothingSelected)
    ensures !IsValid(m.highlight) ==> r.manip == m && r.refresh == refresh && r.host == host
    ensures Consistent(r.manip)
  {
    if IsValid(m.highlight) then
      var host' := if IsValid(selection) then Object(selection) else NothingSelected;
      MoveOutcome(UnknownParameter, Manip(m.attached, Invalid), true, host')
    else
      MoveOutcome(UnknownParameter, m, refresh, host)
  }

  /** What `doMove` reads from its context: the mesh, the committed
      selection, the per-face influence table and the influence objects. */
  datatype ContextView = ContextView(meshPath: DagPath, selection: DagPath,
                                     maxInfluences: seq<nat>, influences: seq<DagPath>)

  /** The host's mesh intersection: nothing, or the index of the hit face. */
  datatype MeshHit = Miss | Hit(face: nat)

  /** `influenceObjects[k]`. The source does not check the index; past the
      end this model yields an invalid path. */
  function InfluenceAt(influences: seq<DagPath>, k: nat): (r: DagPath)
    ensures k < |influences| ==> r == influences[k]
    ensures |influences| <= k ==> r == Invalid
  {
    if k < |influences| then influences[k] else Invalid
  }

  /** Exactly the faces whose dominant influence is `joint`. */
  ghost predicate FacesOf(faces: set<nat>, table: seq<nat>, joint: nat) {
    forall i: nat :: i in faces <==> i < |table| && table[i] == joint
  }

  function SameInfluenceFaces(table: seq<nat>, face: nat): (r: set<nat>)
    requires face < |table|
    ensures FacesOf(r, table, table[face])
    ensures face in r
  {
    set i: nat | i < |table| && table[i] == table[face]
  }

  /** `doMove`. `rotateHit` is whether the cursor ray hits the context's
      rotate handle. A missing context, a mesh miss, a rotate-handle hit or a
      stale influence table take the error path; otherwise the joint of the
      hit face is highlighted and its faces selected, but only when it
      differs from the current highlight. */
  function DoMove(m: Manip, ctx: ContextView, numPolygons: nat, hit: MeshHit, rotateHit: bool,
                  refresh: bool, host: HostSelection): (r: MoveOutcome)
    requires Consistent(m)
    requires hit.Hit? ==> hit.face < numPolygons
    ensures Consistent(r.manip)
    ensures !m.attached || hit.Miss? || rotateHit || |ctx.maxInfluences| != numPolygons ==>
              r == DoMoveError(m, ctx.selection, refresh, host)
    ensures m.attached && hit.Hit? && !rotateHit && |ctx.maxInfluences| == numPolygons ==>
              r.status == Success && r.manip.attached
              && r.manip.highlight == InfluenceAt(ctx.influences, ctx.maxInfluences[hit.face])
    ensures r.status == Success ==>
              hit.Hit? && |ctx.maxInfluences| == numPolygons
              && r.manip.highlight == InfluenceAt(ctx.influences, ctx.maxInfluences[hit.face])
    ensures r.status == Success && r.manip.highlight != m.highlight ==>
              r.refresh && r.host.Faces? && r.host.mesh == ctx.meshPath
              && FacesOf(r.host.faces, ctx.maxInfluences, ctx.maxInfluences[hit.face])
              && hit.face in r.host.faces
    ensures r.status == Success && r.manip.highlight == m.highlight ==>
              r.manip == m && r.refresh == refresh && r.host == host
  {
    if !m.attached || hit.Miss? || rotateHit || |ctx.maxInfluences| != numPolygons then
      DoMoveError(m, ctx.selection, refresh, host)
    else
      var influence := ctx.maxInfluences[hit.face];
      var faces := SameInfluenceFaces(ctx.maxInfluences, hit.face);
      var joint := InfluenceAt(ctx.influences, influence);
      if m.highlight != joint then
        MoveOutcome(Success, Manip(m.attached, joint), true, Faces(ctx.meshPath, faces))
      else
        MoveOutcome(Success, m, refresh, host)
  }

  /** A highlight never changes to a new joint except by a successful move
      onto that joint's faces. */
  lemma HighlightChangesOnlyOnSuccess(m: Manip, ctx: ContextView, numPolygons: nat, hit: MeshHit,
                                      rotateHit: bool, refresh: bool, host: HostSelection)
    requires Consistent(m)
    requires hit.Hit? ==> hit.face < numPolygons
    ensures var r := DoMove(m, ctx, numPolygons, hit, rotateHit, refresh, host);
            r.manip.highlight != m.highlight && r.manip.highlight != Invalid ==> r.status == Success
  {
  }

  /** The joint children of a node, in order: each joint child as often as
      it occurs among the children, and nothing else. */
  function JointChildren(children: seq<Child>): (r: seq<Child>)
    ensures |r| <= |children|
    ensures forall c :: c in r ==> c in children && c.isJoint
    ensures forall c :: c in children && c.isJoint ==> c in r
    ensures forall c :: multiset(r)[c] == if c.isJoint then multiset(children)[c] else 0
  {
    if |children| == 0 then []
    else
      var rest := JointChildren(children[..|children| - 1]);
      var last := children[|children| - 1];
      assert forall c :: c in children ==> c in children[..|children| - 1] || c == last;
      assert children == children[..|children| - 1] + [last];
      if last.isJoint then rest + [last] else rest
  }

  /** `drawCenter`: halfway along the segment to the only child joint, or the
      highlight's own pivot when it has none or several. */
  function DrawCenter(world: World, highlight: DagPath): (r: Vec3)
    ensures |JointChildren(Children(world, highlight))| != 1 ==> r == WorldPivot(world, highlight)
    ensures |JointChildren(Children(world, highlight))| == 1 ==>
              Sub(r, WorldPivot(world, highlight))
              == Sub(JointChildren(Children(world, highlight))[0].worldPivot, r)
  {
    var pivot := WorldPivot(world, highlight);
    var joints := JointChildren(Children(world, highlight));
    if |joints| == 1 then
      var diff := Sub(joints[0].worldPivot, pivot);
      Add(pivot, Scale(diff, 0.5))
    else pivot
  }
}
