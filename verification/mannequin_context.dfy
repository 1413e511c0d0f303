/** The mannequin tool context: it owns the committed joint selection, the
    picking manipulator, and the handle shown on the selected joint (a
    rotate handle for joints presented with ROTATE, a move handle for those
    presented with TRANSLATE). */
module MannequinContext {
  import opened Wrappers
  import opened Vectors
  import opened DagPaths
  import opened Scene
  import opened Options
  import opened Skeleton
  import P = Presentation
  import U = Util
  import MM = MannequinManipulator
  import I = Influence
  import N = Numeric

  /** The handle attached for the committed selection, besides the picker. */
  datatype Handle = NoHandle | RotateHandle(scale: Option<real>) | MoveHandle(node: DagPath)

  /** The context's fields. `jointManip` stands for `!_jointManip.isNull()`;
      `picker` for `_mannequinManip`. */
  datatype Ctx = Ctx(
    selection: DagPath,
    jointManip: bool,
    handle: Handle,
    picker: Option<MM.Manip>,
    scaleCache: Option<real>,
    autoAdjustCache: Option<bool>,
    store: OptionStore,
    longestJoint: real,
    jointLengthRatio: Option<real>,
    lookup: Lookup,
    meshPath: DagPath,
    maxInfluences: seq<nat>,
    influences: seq<DagPath>)

  /** What the context reads from the host: the scene, the fixed
      `MANIP_ADJUSTMENT` factor, the manipulators' global size, and the
      square root. */
  datatype Env = Env(world: World, manipAdjustment: real, globalSize: real, sqrt: real -> real)

  ghost predicate EnvOk(env: Env) {
    IsSqrt(env.sqrt)
  }

  /** The invariant the context keeps: a joint manipulator exists exactly
      when a rotate handle is shown, an empty selection shows no handle, and
      the picker's highlight is only valid once it has its context. */
  predicate Good(ctx: Ctx) {
    (ctx.jointManip <==> ctx.handle.RotateHandle?)
    && (!IsValid(ctx.selection) ==> ctx.handle == NoHandle)
    && (ctx.picker.Some? ==> MM.Consistent(ctx.picker.value))
  }

  /** The highlight the picker hands over when manipulators are rebuilt. */
  function OldHighlight(ctx: Ctx, env: Env): (r: DagPath)
    ensures ctx.picker.None? ==> r == Invalid
    ensures ctx.picker.Some? ==> r == MM.HighlightedDagPath(env.world, ctx.picker.value)
  {
    if ctx.picker.Some? then MM.HighlightedDagPath(env.world, ctx.picker.value) else Invalid
  }

  /** `calculateJointLengthRatio` for `joint`, read against the cached
      auto-adjust flag. */
  function RatioFor(ctx: Ctx, env: Env, joint: DagPath): Option<real>
    requires EnvOk(env)
  {
    JointLengthRatio(ctx.autoAdjustCache, LongestChild(Children(env.world, joint), env.sqrt), ctx.longestJoint)
  }

  /** What no selection change touches: the stored options, the auto-adjust
      cache, and everything `toolOnSetup` computed from the skin. */
  predicate SameSkin(ctx: Ctx, r: Ctx) {
    r.store == ctx.store && r.autoAdjustCache == ctx.autoAdjustCache
    && r.longestJoint == ctx.longestJoint && r.lookup == ctx.lookup
    && r.meshPath == ctx.meshPath && r.maxInfluences == ctx.maxInfluences
    && r.influences == ctx.influences
  }

  /** `select` exactly as written: in the TRANSLATE branch, and for a
      transform with no style, `_jointManip` keeps whatever it held. */
  function SelectAsWritten(ctx: Ctx, env: Env, p: DagPath): (r: Ctx)
    requires EnvOk(env)
    ensures ctx.selection == p ==> r == ctx
    ensures ctx.selection != p ==> r.selection == p && r.picker == Some(MM.Setup(OldHighlight(ctx, env)))
    ensures ctx.selection != p && !IsTransform(env.world, p) ==> !r.jointManip && r.handle == NoHandle
    ensures ctx.selection != p && IsTransform(env.world, p) && StyleFor(ctx.lookup, p) & P.Rotate == 0 ==>
              r.jointManip == ctx.jointManip
    ensures SameSkin(ctx, r)
  {
    if ctx.selection == p then ctx
    else
      var base := ctx.(selection := p, picker := Some(MM.Setup(OldHighlight(ctx, env))));
      if IsTransform(env.world, p) then
        var style := StyleFor(ctx.lookup, p);
        var ratio := RatioFor(ctx, env, p);
        var withRatio := base.(jointLengthRatio := ratio);
        if style & P.Rotate != 0 then
          var read := ManipScale(ctx.scaleCache, ctx.store);
          var scale := AdjustedScale(read.value, env.manipAdjustment, ctx.longestJoint, ratio);
          withRatio.(jointManip := true, handle := RotateHandle(scale), scaleCache := read.cache)
        else if style & P.Translate != 0 then
          withRatio.(handle := MoveHandle(p))
        else
          withRatio.(handle := NoHandle)
      else
        base.(jointManip := false, handle := NoHandle)
  }

  /** The scene of the finding: a hip whose only child is the knee joint,
      one unit along x, and a toe joint without children. Both pivot at the
      origin. */
  function HipAndToeWorld(): World {
    map[Path("hip") := Node(true, [Child(Path("knee"), true, Vec3(1.0, 0.0, 0.0), Vec3(1.0, 0.0, 0.0))], Zero),
        Path("toe") := Node(true, [], Zero)]
  }

  /** One triangle of the mesh, skinned wholly to the hip. */
  function HipFace(): I.FaceWeights {
    I.FaceWeights(3, 2, [1.0, 0.0, 1.0, 0.0, 1.0, 0.0])
  }

  /** The context before the finding's two selections: a skin of the hip
      and the toe on a one-face mesh, with no option ever stored. */
  function HipAndToeSetup(env: Env): Ctx
    requires EnvOk(env)
  {
    Initial(Path("body"), [Path("hip"), Path("toe")], env.world, [HipFace()], OptionStore(None, None), env.sqrt)
  }

  /** Selecting the hip and then the toe, by the source's `select` or by the
      corrected one. */
  function HipThenToe(env: Env, corrected: bool): (r: Ctx)
    requires EnvOk(env)
    ensures r.selection == Path("toe")
    ensures r.picker.Some? && r.picker.value.attached && MM.Consistent(r.picker.value)
    ensures SameSkin(HipAndToeSetup(env), r)
  {
    var ctx0 := HipAndToeSetup(env);
    if corrected then Select(Select(ctx0, env, Path("hip")), env, Path("toe"))
    else SelectAsWritten(SelectAsWritten(ctx0, env, Path("hip")), env, Path("toe"))
  }

  /** The hip is presented with ROTATE and the toe with TRANSLATE. */
  lemma HipAndToeStyles(env: Env)
    requires EnvOk(env) && env.world == HipAndToeWorld()
    ensures StyleFor(HipAndToeSetup(env).lookup, Path("hip")) == P.Rotate
    ensures StyleFor(HipAndToeSetup(env).lookup, Path("toe")) == P.Translate
  {
    LookupIsLastEntry(env.world, [Path("hip"), Path("toe")], "hip");
    LookupIsLastEntry(env.world, [Path("hip"), Path("toe")], "toe");
    assert FullPathName(Path("hip")) == "hip" && FullPathName(Path("toe")) == "toe";
  }

  /** Selecting a ROTATE joint and then a TRANSLATE joint leaves the joint
      manipulator of the first selection in place, although only a move
      handle is shown: the rotate-handle hit test keeps running, around the
      new joint. */
  lemma StaleJointManipAfterTranslate(env: Env)
    requires EnvOk(env) && env.world == HipAndToeWorld()
    ensures var ctx2 := HipThenToe(env, false);
            ctx2.jointManip && ctx2.handle == MoveHandle(Path("toe")) && !Good(ctx2)
  {
    HipAndToeStyles(env);
  }

  /** In that stale state the hidden rotate handle keeps catching the
      cursor. Its sphere test runs around the toe, with a positive radius,
      and a ray through that sphere sends every cursor move down the error
      path. A ray aimed at the toe from one unit outside the sphere is such a
      ray: over the mesh face skinned to the hip, the source's context
      reports a failure, while the corrected one highlights the hip. */
  lemma StaleJointManipStillBlocksPicking(env: Env, numPolygons: nat, hit: MM.MeshHit, linePoint: Vec3,
                                          lineDirection: Vec3, refresh: bool, host: HostSelection)
    requires EnvOk(env) && env.world == HipAndToeWorld()
    requires env.manipAdjustment > 0.0 && env.globalSize > 0.0
    requires hit.Hit? ==> hit.face < numPolygons
    ensures var stale := HipThenToe(env, false);
            var radius := RotateHandleRadius(stale, env);
            radius.Some? && radius.value > 0.0
            && (IntersectRotateManip(stale, env, linePoint, lineDirection).0
                <==> U.SphereDistance(linePoint, lineDirection, WorldPivot(env.world, Path("toe")),
                                      radius.value, env.sqrt).Some?)
            && (hit.Hit? && IntersectRotateManip(stale, env, linePoint, lineDirection).0 ==>
                  CursorMove(stale, env, numPolygons, hit, linePoint, lineDirection, refresh, host).0.status
                  == MM.UnknownParameter)
    ensures !IntersectRotateManip(HipThenToe(env, true), env, linePoint, lineDirection).0
    ensures var stale := HipThenToe(env, false);
            var fixed := HipThenToe(env, true);
            var start := Vec3(-(RotateHandleRadius(stale, env).GetOr(0.0) + 1.0), 0.0, 0.0);
            var toward := Vec3(1.0, 0.0, 0.0);
            IntersectRotateManip(stale, env, start, toward).0
            && CursorMove(stale, env, 1, MM.Hit(0), start, toward, refresh, host).0.status == MM.UnknownParameter
            && CursorMove(fixed, env, 1, MM.Hit(0), start, toward, refresh, host).0.status == MM.Success
            && CursorMove(fixed, env, 1, MM.Hit(0), start, toward, refresh, host).0.manip.highlight == Path("hip")
  {
    StaleSphereBlocks(env, numPolygons, hit, linePoint, lineDirection, refresh, host);
    HeadOnRayAtStaleHandle(env, refresh, host);
  }

  /** The general half: the stale sphere test and its effect on a move. */
  lemma StaleSphereBlocks(env: Env, numPolygons: nat, hit: MM.MeshHit, linePoint: Vec3,
                          lineDirection: Vec3, refresh: bool, host: HostSelection)
    requires EnvOk(env) && env.world == HipAndToeWorld()
    requires env.manipAdjustment > 0.0 && env.globalSize > 0.0
    requires hit.Hit? ==> hit.face < numPolygons
    ensures var stale := HipThenToe(env, false);
            var radius := RotateHandleRadius(stale, env);
            radius.Some? && radius.value > 0.0
            && (IntersectRotateManip(stale, env, linePoint, lineDirection).0
                <==> U.SphereDistance(linePoint, lineDirection, WorldPivot(env.world, Path("toe")),
                                      radius.value, env.sqrt).Some?)
            && (hit.Hit? && IntersectRotateManip(stale, env, linePoint, lineDirection).0 ==>
                  CursorMove(stale, env, numPolygons, hit, linePoint, lineDirection, refresh, host).0.status
                  == MM.UnknownParameter)
    ensures !IntersectRotateManip(HipThenToe(env, true), env, linePoint, lineDirection).0
  {
    StaleJointManipAfterTranslate(env);
    HipAndToeStyles(env);
    StaleRadiusPositive(env);
  }

  /** The concrete half: a ray aimed at the toe from one unit outside the
      stale sphere, over the hip's face. */
  lemma HeadOnRayAtStaleHandle(env: Env, refresh: bool, host: HostSelection)
    requires EnvOk(env) && env.world == HipAndToeWorld()
    requires env.manipAdjustment > 0.0 && env.globalSize > 0.0
    ensures var stale := HipThenToe(env, false);
            var fixed := HipThenToe(env, true);
            var start := Vec3(-(RotateHandleRadius(stale, env).GetOr(0.0) + 1.0), 0.0, 0.0);
            var toward := Vec3(1.0, 0.0, 0.0);
            IntersectRotateManip(stale, env, start, toward).0
            && CursorMove(stale, env, 1, MM.Hit(0), start, toward, refresh, host).0.status == MM.UnknownParameter
            && CursorMove(fixed, env, 1, MM.Hit(0), start, toward, refresh, host).0.status == MM.Success
            && CursorMove(fixed, env, 1, MM.Hit(0), start, toward, refresh, host).0.manip.highlight == Path("hip")
  {
    var stale := HipThenToe(env, false);
    var start := Vec3(-(RotateHandleRadius(stale, env).GetOr(0.0) + 1.0), 0.0, 0.0);
    var toward := Vec3(1.0, 0.0, 0.0);
    StaleHandleCatchesHeadOnRay(env);
    StaleSphereBlocks(env, 1, MM.Hit(0), start, toward, refresh, host);
    CorrectedPicksHip(env, start, toward, refresh, host);
  }

  /** The stale sphere test fires for the ray aimed at the toe from one unit
      outside the sphere. */
  lemma StaleHandleCatchesHeadOnRay(env: Env)
    requires EnvOk(env) && env.world == HipAndToeWorld()
    requires env.manipAdjustment > 0.0 && env.globalSize > 0.0
    ensures var stale := HipThenToe(env, false);
            var start := Vec3(-(RotateHandleRadius(stale, env).GetOr(0.0) + 1.0), 0.0, 0.0);
            IntersectRotateManip(stale, env, start, Vec3(1.0, 0.0, 0.0)).0
  {
    StaleJointManipAfterTranslate(env);
    HipAndToeStyles(env);
    StaleRadiusPositive(env);
    var radius := RotateHandleRadius(HipThenToe(env, false), env).value;
    U.HeadOnRayHits(Zero, radius, env.sqrt);
    assert Sub(Zero, Vec3(radius + 1.0, 0.0, 0.0)) == Vec3(-(radius + 1.0), 0.0, 0.0);
  }

  /** After the corrected selections, any cursor move over the one face
      succeeds and highlights the hip, wherever the ray runs. */
  lemma CorrectedPicksHip(env: Env, linePoint: Vec3, lineDirection: Vec3, refresh: bool, host: HostSelection)
    requires EnvOk(env) && env.world == HipAndToeWorld()
    ensures var r := CursorMove(HipThenToe(env, true), env, 1, MM.Hit(0), linePoint, lineDirection, refresh, host);
            r.0.status == MM.Success && r.0.manip.highlight == Path("hip")
  {
    StaleJointManipAfterTranslate(env);
    HipAndToeStyles(env);
    HipFaceIsHips(env);
  }

  /** The stale handle's radius is positive: the knee makes the longest
      joint one unit, the toe's ratio is 1, and the scale is the default. */
  lemma StaleRadiusPositive(env: Env)
    requires EnvOk(env) && env.world == HipAndToeWorld()
    requires env.manipAdjustment > 0.0 && env.globalSize > 0.0
    ensures var radius := RotateHandleRadius(HipThenToe(env, false), env);
            radius.Some? && radius.value > 0.0
  {
    HipAndToeStyles(env);
    var ctx0 := HipAndToeSetup(env);
    var knee := Child(Path("knee"), true, Vec3(1.0, 0.0, 0.0), Vec3(1.0, 0.0, 0.0));
    assert IsJointOf(env.world, ctx0.influences, 0, 0);
    assert SegmentLength(knee, env.sqrt) <= ctx0.longestJoint;
    U.SquareIsRootOf(1.0, 1.0, env.sqrt);
    assert SegmentLength(knee, env.sqrt) == 1.0;
    var stale := HipThenToe(env, false);
    assert stale.jointLengthRatio == Some(1.0);
    assert ManipScale(stale.scaleCache, stale.store).value == 5.0;
    var scale := Product3(5.0, env.manipAdjustment, ctx0.longestJoint);
    assert scale > 0.0;
    assert scale * 1.0 * env.globalSize > 0.0;
    assert scale * 1.0 * env.globalSize * 1.25 > 0.0;
  }

  /** The mesh's one face is the hip's: its dominant influence is 0. */
  lemma HipFaceIsHips(env: Env)
    requires EnvOk(env)
    ensures HipAndToeSetup(env).maxInfluences == [0]
  {
    var sums := I.FaceSums(HipFace());
    assert sums == [3.0, 0.0];
    var k := HipAndToeSetup(env).maxInfluences[0];
    assert I.IsDominant(sums, N.DoubleMinPositive(), k);
  }

  /** The context `toolOnSetup` leaves: nothing selected, no handle, a
      picker with no highlight, and the tables computed from the skin and
      the mesh: the path lookups, the dominant influence of every face, and
      the longest joint segment. The options are whatever the host has
      stored; nothing is cached yet, so the getters read them on first use. */
  function Initial(meshPath: DagPath, influences: seq<DagPath>, world: World, faces: seq<I.FaceWeights>,
                   store: OptionStore, sqrt: real -> real): (r: Ctx)
    requires IsSqrt(sqrt)
    requires forall i :: 0 <= i < |faces| ==> I.WellFormed(faces[i])
    ensures Good(r) && r.selection == Invalid && !r.jointManip && r.handle == NoHandle
    ensures r.picker == Some(MM.Setup(Invalid))
    ensures r.meshPath == meshPath && r.influences == influences
    ensures r.store == store && r.scaleCache.None? && r.autoAdjustCache.None?
    ensures r.lookup == BuildLookup(world, influences)
    ensures |r.maxInfluences| == |faces|
    ensures forall i :: 0 <= i < |faces| ==>
              I.IsDominant(I.FaceSums(faces[i]), N.DoubleMinPositive(), r.maxInfluences[i])
    ensures r.longestJoint >= 0.0
    ensures BoundsSegments(world, influences, sqrt, r.longestJoint)
    ensures AttainsSegment(world, influences, sqrt, r.longestJoint)
  {
    Ctx(Invalid, false, NoHandle, Some(MM.Setup(Invalid)), None, None, store,
        LongestJoint(world, influences, sqrt), Some(1.0), BuildLookup(world, influences), meshPath,
        I.MaxInfluenceTable(faces), influences)
  }

  /** Right after setup, a cursor move that hits a face of the mesh
      highlights that face's dominant influence. */
  lemma InitialPicksDominantJoint(meshPath: DagPath, influences: seq<DagPath>, env: Env, faces: seq<I.FaceWeights>,
                                  store: OptionStore, face: nat, linePoint: Vec3, lineDirection: Vec3, refresh: bool, host: HostSelection)
    requires EnvOk(env)
    requires forall i :: 0 <= i < |faces| ==> I.WellFormed(faces[i])
    requires face < |faces|
    ensures var ctx := Initial(meshPath, influences, env.world, faces, store, env.sqrt);
            var r := CursorMove(ctx, env, |faces|, MM.Hit(face), linePoint, lineDirection, refresh, host);
            r.0.status == MM.Success
            && exists k: nat :: I.IsDominant(I.FaceSums(faces[face]), N.DoubleMinPositive(), k)
                                && r.0.manip.highlight == MM.InfluenceAt(influences, k)
  {
    var ctx := Initial(meshPath, influences, env.world, faces, store, env.sqrt);
    var r := CursorMove(ctx, env, |faces|, MM.Hit(face), linePoint, lineDirection, refresh, host);
    assert r.0.manip.highlight == MM.InfluenceAt(influences, ctx.maxInfluences[face]);
  }

  /** `select`, with `_jointManip` cleared whenever no rotate handle is
      created. Selecting the current path changes nothing; otherwise the
      picker is rebuilt keeping its highlight, and a transform gets a rotate
      handle if its style has ROTATE (even when it also has TRANSLATE), a
      move handle if it has only TRANSLATE, and no handle otherwise. */
  function Select(ctx: Ctx, env: Env, p: DagPath): (r: Ctx)
    requires EnvOk(env)
    ensures ctx.selection == p ==> r == ctx
    ensures ctx.selection != p ==> r.selection == p && r.picker == Some(MM.Setup(OldHighlight(ctx, env)))
    ensures ctx.selection != p && !IsTransform(env.world, p) ==> !r.jointManip && r.handle == NoHandle
    ensures ctx.selection != p && IsTransform(env.world, p) && StyleFor(ctx.lookup, p) & P.Rotate != 0 ==>
              r.jointManip && r.handle.RotateHandle?
    ensures ctx.selection != p && IsTransform(env.world, p) && StyleFor(ctx.lookup, p) & P.Rotate == 0 ==>
              !r.jointManip
              && r.handle == (if StyleFor(ctx.lookup, p) & P.Translate != 0 then MoveHandle(p) else NoHandle)
    ensures SameSkin(ctx, r)
    ensures ctx.selection != p && IsTransform(env.world, p) ==> r.jointLengthRatio == RatioFor(ctx, env, p)
    ensures ctx.selection != p && IsTransform(env.world, p) && StyleFor(ctx.lookup, p) & P.Rotate != 0 ==>
              r.scaleCache == ManipScale(ctx.scaleCache, ctx.store).cache
              && r.handle.scale == AdjustedScale(ManipScale(ctx.scaleCache, ctx.store).value, env.manipAdjustment,
                                                 ctx.longestJoint, RatioFor(ctx, env, p))
    ensures Good(ctx) ==> Good(r)
  {
    var r := SelectAsWritten(ctx, env, p);
    if ctx.selection != p && !r.handle.RotateHandle? then r.(jointManip := false) else r
  }

  /** The corrected selection agrees with the source everywhere except in
      the joint-manipulator flag. */
  lemma SelectDiffersOnlyInJointManip(ctx: Ctx, env: Env, p: DagPath)
    requires EnvOk(env)
    ensures Select(ctx, env, p).(jointManip := ctx.jointManip)
         == SelectAsWritten(ctx, env, p).(jointManip := ctx.jointManip)
  {
  }

  /** `reselect`: re-enters the current selection by way of the empty one;
      an empty selection is left alone. */
  function Reselect(ctx: Ctx, env: Env): (r: Ctx)
    requires EnvOk(env)
    ensures r.selection == ctx.selection
    ensures !IsValid(ctx.selection) ==> r == ctx
    ensures Good(ctx) ==> Good(r)
  {
    if IsValid(ctx.selection) then
      Select(Select(ctx, env, Invalid), env, ctx.selection)
    else ctx
  }

  /** Reselecting passes through the empty path, which clears the joint
      manipulator under either `select`, so the corrected reselect is the
      source's. */
  lemma ReselectMatchesSource(ctx: Ctx, env: Env)
    requires EnvOk(env)
    ensures Reselect(ctx, env)
         == if IsValid(ctx.selection)
            then SelectAsWritten(SelectAsWritten(ctx, env, Invalid), env, ctx.selection)
            else ctx
  {
  }

  /** `doPress`: selects whatever the picker highlights (possibly nothing);
      without a picker nothing happens. */
  function DoPress(ctx: Ctx, env: Env): (r: Ctx)
    requires EnvOk(env)
    ensures ctx.picker.None? ==> r == ctx
    ensures ctx.picker.Some? ==> r.selection == MM.HighlightedDagPath(env.world, ctx.picker.value)
    ensures Good(ctx) ==> Good(r)
  {
    if ctx.picker.None? then ctx
    else Select(ctx, env, MM.HighlightedDagPath(env.world, ctx.picker.value))
  }

  /** `doPress` on the source's `select`. */
  function DoPressAsWritten(ctx: Ctx, env: Env): (r: Ctx)
    requires EnvOk(env)
    ensures ctx.picker.None? ==> r == ctx
    ensures ctx.picker.Some? ==> r.selection == MM.HighlightedDagPath(env.world, ctx.picker.value)
  {
    if ctx.picker.None? then ctx
    else SelectAsWritten(ctx, env, MM.HighlightedDagPath(env.world, ctx.picker.value))
  }

  /** The press on the corrected selection agrees with the source's press in
      everything but the joint-manipulator flag. */
  lemma DoPressDiffersOnlyInJointManip(ctx: Ctx, env: Env)
    requires EnvOk(env)
    ensures DoPress(ctx, env).(jointManip := ctx.jointManip) == DoPressAsWritten(ctx, env).(jointManip := ctx.jointManip)
  {
    if ctx.picker.Some? {
      SelectDiffersOnlyInJointManip(ctx, env, MM.HighlightedDagPath(env.world, ctx.picker.value));
    }
  }

  /** `abortAction`: drops the selection and every handle. */
  function AbortAction(ctx: Ctx, env: Env): (r: Ctx)
    requires EnvOk(env)
    ensures r.selection == Invalid
    ensures Good(ctx) ==> Good(r) && !r.jointManip && r.handle == NoHandle
  {
    Select(ctx, env, Invalid)
  }

  /** The abort is the source's: the empty path is not a transform, and
      both versions of `select` clear the joint manipulator for it. */
  lemma AbortMatchesSource(ctx: Ctx, env: Env)
    requires EnvOk(env)
    ensures AbortAction(ctx, env) == SelectAsWritten(ctx, env, Invalid)
  {
  }

  /** `setManipScale`: stores and caches the scale, and rebuilds the handles
      only while a joint manipulator exists. */
  function SetManipScale(ctx: Ctx, env: Env, scale: real): (r: Ctx)
    requires EnvOk(env)
    ensures !ctx.jointManip ==> r == ctx.(store := StoreManipScale(ctx.store, scale), scaleCache := Some(scale))
    ensures ManipScale(r.scaleCache, r.store).value == scale
    ensures r.selection == ctx.selection
    ensures Good(ctx) ==> Good(r)
  {
    var stored := ctx.(store := StoreManipScale(ctx.store, scale), scaleCache := Some(scale));
    if ctx.jointManip then Reselect(stored, env) else stored
  }

  /** `setManipAutoAdjust`: likewise for the auto-adjust flag. */
  function SetManipAutoAdjust(ctx: Ctx, env: Env, autoAdjust: bool): (r: Ctx)
    requires EnvOk(env)
    ensures !ctx.jointManip ==>
              r == ctx.(store := StoreManipAutoAdjust(ctx.store, autoAdjust), autoAdjustCache := Some(autoAdjust))
    ensures r.autoAdjustCache == Some(autoAdjust)
    ensures r.selection == ctx.selection
    ensures Good(ctx) ==> Good(r)
  {
    var stored := ctx.(store := StoreManipAutoAdjust(ctx.store, autoAdjust), autoAdjustCache := Some(autoAdjust));
    if ctx.jointManip then Reselect(stored, env) else stored
  }

  /** The pick radius of the rotate handle: its adjusted scale times the
      global manipulator size, enlarged by a quarter for the free-rotation
      shell. `None` when the scale is not a finite number. */
  function RotateHandleRadius(ctx: Ctx, env: Env): (r: Option<real>)
    ensures r.Some? <==> ctx.jointLengthRatio.Some?
    ensures r.Some? ==>
              r.value == AdjustedScale(ManipScale(ctx.scaleCache, ctx.store).value, env.manipAdjustment,
                                       ctx.longestJoint, ctx.jointLengthRatio).value * env.globalSize * 1.25
  {
    var scale := AdjustedScale(ManipScale(ctx.scaleCache, ctx.store).value, env.manipAdjustment,
                               ctx.longestJoint, ctx.jointLengthRatio);
    if scale.Some? then Some(scale.value * env.globalSize * 1.25) else None
  }

  /** Right after a ROTATE joint is selected, the pick radius is the scale
      of the handle just shown times the global size, enlarged by a quarter,
      and exists exactly when that scale does. */
  lemma RadiusMatchesShownHandle(ctx: Ctx, env: Env, p: DagPath)
    requires EnvOk(env)
    requires ctx.selection != p && IsTransform(env.world, p) && StyleFor(ctx.lookup, p) & P.Rotate != 0
    ensures var r := Select(ctx, env, p);
            r.handle.RotateHandle?
            && (RotateHandleRadius(r, env).Some? <==> r.handle.scale.Some?)
            && (r.handle.scale.Some? ==>
                  RotateHandleRadius(r, env).value == r.handle.scale.value * env.globalSize * 1.25)
  {
    ReadsAreIdempotent(ctx.scaleCache, ctx.autoAdjustCache, ctx.store);
  }

  /** `intersectRotateManip`: without a joint manipulator the test always
      misses; otherwise it is the sphere test around the selection's world
      rotate pivot. Reading the scale caches it. */
  function IntersectRotateManip(ctx: Ctx, env: Env, linePoint: Vec3, lineDirection: Vec3): (r: (bool, Ctx))
    requires EnvOk(env)
    ensures !ctx.jointManip ==> r == (false, ctx)
    ensures r.0 <==> ctx.jointManip && RotateHandleRadius(ctx, env).Some?
                     && U.SphereDistance(linePoint, lineDirection, WorldPivot(env.world, ctx.selection),
                                         RotateHandleRadius(ctx, env).value, env.sqrt).Some?
    ensures ctx.jointManip ==> r.1 == ctx.(scaleCache := ManipScale(ctx.scaleCache, ctx.store).cache)
  {
    if !ctx.jointManip then (false, ctx)
    else
      var read := ManipScale(ctx.scaleCache, ctx.store);
      var radius := RotateHandleRadius(ctx, env);
      var hit := radius.Some?
                 && U.RaySphereIntersection(linePoint, lineDirection, WorldPivot(env.world, ctx.selection),
                                            radius.value, Null, env.sqrt).hit;
      (hit, ctx.(scaleCache := read.cache))
  }

  /** A rotate-handle hit is a point on the handle's sphere ahead of the
      cursor. */
  lemma RotateHitIsOnHandle(ctx: Ctx, env: Env, linePoint: Vec3, lineDirection: Vec3)
    requires EnvOk(env)
    requires Dot(lineDirection, lineDirection) != 0.0
    requires IntersectRotateManip(ctx, env, linePoint, lineDirection).0
    ensures exists d :: d > U.Epsilon
                        && U.OnSphere(linePoint, Normal(lineDirection, env.sqrt), WorldPivot(env.world, ctx.selection),
                                      RotateHandleRadius(ctx, env).value, d)
  {
    var center := WorldPivot(env.world, ctx.selection);
    var radius := RotateHandleRadius(ctx, env).value;
    U.SphereHitIsOnSphere(linePoint, lineDirection, center, radius, env.sqrt);
    var d := U.SphereDistance(linePoint, lineDirection, center, radius, env.sqrt).value;
    assert d > U.Epsilon && U.OnSphere(linePoint, Normal(lineDirection, env.sqrt), center, radius, d);
  }

  /** A cursor move over the mesh: the picker's `doMove`, with the
      rotate-handle test run once the mesh is hit. */
  function CursorMove(ctx: Ctx, env: Env, numPolygons: nat, hit: MM.MeshHit, linePoint: Vec3,
                       lineDirection: Vec3, refresh: bool, host: HostSelection): (r: (MM.MoveOutcome, Ctx))
    requires EnvOk(env) && ctx.picker.Some? && MM.Consistent(ctx.picker.value)
    requires hit.Hit? ==> hit.face < numPolygons
    ensures r.1.picker == Some(r.0.manip) && MM.Consistent(r.0.manip)
    ensures r.1.(picker := ctx.picker, scaleCache := ctx.scaleCache) == ctx
    ensures Good(ctx) ==> Good(r.1)
    ensures r.0.status == MM.Success ==> !IntersectRotateManip(ctx, env, linePoint, lineDirection).0
    ensures ctx.picker.value.attached && hit.Hit? && IntersectRotateManip(ctx, env, linePoint, lineDirection).0 ==>
              r.0 == MM.DoMoveError(ctx.picker.value, ctx.selection, refresh, host)
    ensures ctx.picker.value.attached && hit.Hit? && !IntersectRotateManip(ctx, env, linePoint, lineDirection).0
            && |ctx.maxInfluences| == numPolygons ==>
              r.0.status == MM.Success
              && r.0.manip.highlight == MM.InfluenceAt(ctx.influences, ctx.maxInfluences[hit.face])
  {
    var m := ctx.picker.value;
    var probe := if m.attached && hit.Hit? then IntersectRotateManip(ctx, env, linePoint, lineDirection)
                 else (false, ctx);
    var view := MM.ContextView(ctx.meshPath, ctx.selection, ctx.maxInfluences, ctx.influences);
    var outcome := MM.DoMove(m, view, numPolygons, hit, probe.0, refresh, host);
    (outcome, probe.1.(picker := Some(outcome.manip)))
  }
}
