/** The earlier tool context: it keeps the committed joint selection, a
    picking manipulator, and a rotate manipulator on the selection whenever
    the selection is a transform. */
module ChartreuseContext {
  import opened Wrappers
  import opened DagPaths
  import opened Scene
  import CM = ChartreuseManipulator

  /** `_selection`, `!_rotateManip.isNull()`, `_chartreuseManip` and
      `_meshDagPath`. */
  datatype Ctx = Ctx(selection: DagPath, rotateManip: bool, picker: Option<CM.Manip>, meshPath: DagPath)

  /** The rotate manipulator exists exactly for a transform selection, and
      the picker only ever highlights a transform. */
  predicate Good(world: World, ctx: Ctx) {
    (ctx.rotateManip <==> IsTransform(world, ctx.selection))
    && (ctx.picker.Some? ==> ctx.picker.value.highlight == Invalid
                             || IsTransform(world, ctx.picker.value.highlight))
  }

  /** The highlight carried over to the new picker. */
  function OldHighlight(ctx: Ctx): (r: DagPath)
    ensures ctx.picker.None? ==> r == Invalid
  {
    if ctx.picker.Some? then ctx.picker.value.highlight else Invalid
  }

  /** `select`: always takes the new path, rebuilds the picker keeping its
      highlight, and creates a rotate manipulator for a transform. */
  function Select(world: World, ctx: Ctx, p: DagPath): (r: Ctx)
    ensures r.selection == p && r.meshPath == ctx.meshPath
    ensures r.rotateManip <==> IsTransform(world, p)
    ensures r.picker.Some? && r.picker.value.initialized && r.picker.value.highlight == OldHighlight(ctx)
    ensures Good(world, ctx) ==> Good(world, r)
  {
    var picker := CM.Setup(CM.Constructed.(highlight := OldHighlight(ctx)), ctx.meshPath);
    Ctx(p, IsTransform(world, p), Some(picker), ctx.meshPath)
  }

  /** Selecting twice is selecting once. */
  lemma SelectIdempotent(world: World, ctx: Ctx, p: DagPath)
    ensures Select(world, Select(world, ctx, p), p) == Select(world, ctx, p)
  {
  }

  /** `doPress`: commits the highlight, if there is a picker. */
  function DoPress(world: World, ctx: Ctx): (r: Ctx)
    ensures ctx.picker.None? ==> r == ctx
    ensures ctx.picker.Some? ==> r.selection == ctx.picker.value.highlight
    ensures Good(world, ctx) ==> Good(world, r)
  {
    if ctx.picker.None? then ctx else Select(world, ctx, ctx.picker.value.highlight)
  }

  /** `abortAction`: selects nothing, which drops the rotate manipulator. */
  function AbortAction(world: World, ctx: Ctx): (r: Ctx)
    ensures r.selection == Invalid && !r.rotateManip
  {
    Select(world, ctx, Invalid)
  }

  /** A cursor move followed by a press commits the joint just picked, or
      nothing, and a rotate manipulator appears exactly when a joint was
      picked. */
  lemma PressAfterMove(world: World, ctx: Ctx, hit: CM.TriangleHit, q: CM.HostQueries)
    requires ctx.picker.Some?
    ensures var moved := CM.DoMove(world, ctx.picker.value, hit, q);
            var r := DoPress(world, ctx.(picker := Some(moved.manip)));
            (r.selection == Invalid || (r.selection == CM.PickedJoint(hit, q) && ctx.picker.value.initialized))
            && (r.rotateManip <==> r.selection != Invalid)
  {
  }
}
