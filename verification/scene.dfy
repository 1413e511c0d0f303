/** What the model reads from the host scene: whether a path names a
    transform, its children, and its rotate pivot; and the host's active
    selection, which the tools overwrite. */
module Scene {
  import opened DagPaths
  import opened Vectors

  /** A child node: its path, whether it is a joint, its object-space
      translation and its world-space rotate pivot. */
  datatype Child = Child(path: DagPath, isJoint: bool, translation: Vec3, worldPivot: Vec3)

  datatype Node = Node(isTransform: bool, children: seq<Child>, worldPivot: Vec3)

  /** The scene as seen through DAG paths; a path absent from the map is not
      a transform and has no children. */
  type World = map<DagPath, Node>

  /** `hasFn(MFn::kTransform)`; an invalid path has no function set. */
  predicate IsTransform(world: World, p: DagPath) {
    p.Path? && p in world && world[p].isTransform
  }

  function Children(world: World, p: DagPath): seq<Child> {
    if p.Path? && p in world then world[p].children else []
  }

  function WorldPivot(world: World, p: DagPath): Vec3 {
    if p in world then world[p].worldPivot else Zero
  }

  /** The host's active selection list, which `MGlobal::select` and
      `MGlobal::clearSelectionList` replace. */
  datatype HostSelection =
    | NothingSelected
    | Object(path: DagPath)
    | Faces(mesh: DagPath, faces: set<nat>)
}
