/** The earlier, per-vertex picking manipulator: it highlights the joint
    that most influences the triangle corner nearest to the cursor. Every
    failure clears the highlight and refreshes the view, and is still
    reported as success. */
module ChartreuseManipulator {
  import opened Vectors
  import opened DagPaths
  import opened Scene
  import Influence
  import MM = MannequinManipulator

  /** `_initialized`, the mesh it picks on, and `_highlight`. */
  datatype Manip = Manip(initialized: bool, meshPath: DagPath, highlight: DagPath)

  /** The constructor: not yet set up. */
  const Constructed: Manip := Manip(false, Invalid, Invalid)

  /** `setup`: records the mesh and marks the manipulator usable; the
      highlight is untouched. */
  function Setup(m: Manip, meshPath: DagPath): (r: Manip)
    ensures r.initialized && r.meshPath == meshPath && r.highlight == m.highlight
  {
    m.(initialized := true, meshPath := meshPath)
  }

  /** The manipulator afterwards and the in/out `refresh` flag. Both paths
      return success, so there is no status to model. */
  datatype MoveOutcome = MoveOutcome(manip: Manip, refresh: bool)

  /** `doMoveError`: clears the highlight and asks for a refresh. */
  function DoMoveError(m: Manip): (r: MoveOutcome)
    ensures r.manip.highlight == Invalid && r.refresh
    ensures r.manip.initialized == m.initialized && r.manip.meshPath == m.meshPath
  {
    MoveOutcome(m.(highlight := Invalid), true)
  }

  /** What the mesh intersection reports: the face, the triangle within it,
      and the first two barycentric coordinates of the hit. */
  datatype TriangleHit = NoHit | TriangleHit(face: nat, triangle: nat, bary0: real, bary1: real)

  /** The host queries `doMove` makes after a hit, as their results: the
      three vertex ids of the hit triangle and the influence weights of a
      vertex, each with an answer for a failed query. */
  datatype HostQueries = HostQueries(
    triangleVertices: (nat, nat) -> Option3,
    vertexWeights: nat -> OptionWeights,
    influences: seq<DagPath>)

  datatype Option3 = NoVertices | Vertices(v0: nat, v1: nat, v2: nat)
  datatype OptionWeights = NoWeights | Weights(w: seq<real>)

  /** The vertex at corner `corner` of the triangle. */
  function Corner(vs: Option3, corner: nat): nat
    requires vs.Vertices? && corner < 3
  {
    if corner == 0 then vs.v0 else if corner == 1 then vs.v1 else vs.v2
  }

  /** The joint `doMove` would highlight for a hit, if every query
      succeeds: the strongest influence of the corner with the largest
      barycentric coordinate. */
  function PickedJoint(hit: TriangleHit, q: HostQueries): (r: DagPath)
    requires hit.TriangleHit?
  {
    var vs := q.triangleVertices(hit.face, hit.triangle);
    if vs.NoVertices? then Invalid
    else
      var bary2 := Influence.ThirdBarycentric(hit.bary0, hit.bary1);
      var vtx := Corner(vs, Influence.ClosestCorner(hit.bary0, hit.bary1, bary2));
      var ws := q.vertexWeights(vtx);
      if ws.NoWeights? then Invalid
      else MM.InfluenceAt(q.influences, Influence.VertexInfluence(ws.w))
  }

  /** `doMove`. An uninitialised manipulator, a miss, a failed query or an
      influence that is not a transform takes the error path; otherwise the
      influence becomes the highlight. Either way the view is refreshed. */
  function DoMove(world: World, m: Manip, hit: TriangleHit, q: HostQueries): (r: MoveOutcome)
    ensures r.refresh
    ensures r.manip.initialized == m.initialized && r.manip.meshPath == m.meshPath
    ensures r.manip.highlight == Invalid || IsTransform(world, r.manip.highlight)
    ensures !m.initialized || hit.NoHit? ==> r == DoMoveError(m)
    ensures m.initialized && hit.TriangleHit? && IsTransform(world, PickedJoint(hit, q)) ==>
              r.manip.highlight == PickedJoint(hit, q)
    ensures r.manip.highlight != Invalid ==>
              m.initialized && hit.TriangleHit? && r.manip.highlight == PickedJoint(hit, q)
  {
    if !m.initialized || hit.NoHit? then DoMoveError(m)
    else
      var vs := q.triangleVertices(hit.face, hit.triangle);
      if vs.NoVertices? then DoMoveError(m)
      else
        var bary2 := Influence.ThirdBarycentric(hit.bary0, hit.bary1);
        var vtx := Corner(vs, Influence.ClosestCorner(hit.bary0, hit.bary1, bary2));
        var ws := q.vertexWeights(vtx);
        if ws.NoWeights? then DoMoveError(m)
        else
          var joint := MM.InfluenceAt(q.influences, Influence.VertexInfluence(ws.w));
          if !IsTransform(world, joint) then DoMoveError(m)
          else MoveOutcome(m.(highlight := joint), true)
  }

  /** Unlike the mannequin manipulator there is no debouncing: the outcome
      of a move never depends on the previous highlight. */
  lemma DoMoveForgetsHighlight(world: World, m: Manip, other: DagPath, hit: TriangleHit, q: HostQueries)
    ensures DoMove(world, m, hit, q) == DoMove(world, m.(highlight := other), hit, q)
  {
  }

  /** What `drawUI` draws: nothing for a highlight that is not a transform,
      a line to the only child joint, or a sphere of radius 2 at the pivot. */
  datatype Shape = NoShape | Line(from: Vec3, to: Vec3) | Sphere(center: Vec3, radius: real)

  function DrawShape(world: World, m: Manip): (r: Shape)
    ensures !IsTransform(world, m.highlight) <==> r.NoShape?
    ensures r.Line? ==> r.from == WorldPivot(world, m.highlight)
                        && |MM.JointChildren(Children(world, m.highlight))| == 1
                        && r.to == MM.JointChildren(Children(world, m.highlight))[0].worldPivot
    ensures r.Sphere? ==> r.center == WorldPivot(world, m.highlight) && r.radius == 2.0
                          && |MM.JointChildren(Children(world, m.highlight))| != 1
  {
    if !IsTransform(world, m.highlight) then NoShape
    else
      var joints := MM.JointChildren(Children(world, m.highlight));
      if |joints| == 1 then Line(WorldPivot(world, m.highlight), joints[0].worldPivot)
      else Sphere(WorldPivot(world, m.highlight), 2.0)
  }

  /** The line drawn for a single child runs through the mannequin
      manipulator's draw centre at its midpoint. */
  lemma LineMidpointIsDrawCenter(world: World, m: Manip)
    requires DrawShape(world, m).Line?
    ensures Sub(MM.DrawCenter(world, m.highlight), DrawShape(world, m).from)
         == Sub(DrawShape(world, m).to, MM.DrawCenter(world, m.highlight))
  {
  }
}
