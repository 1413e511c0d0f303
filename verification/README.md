# Mannequin: a Dafny model of the posing tool's core

Mannequin is a Maya plug-in for posing a skinned character by pointing at
the mesh instead of at its joints. As the cursor moves over the mesh, the
tool highlights the joint that dominates the face under it. A click selects
that joint and attaches a rotate or move handle to it. A Qt tool panel lists
every joint with its rotation or translation.

This project models the deterministic logic of that tool, with every host
query turned into an input:

- **Influence** reduces per-vertex skin weights to one dominant joint per
  face. It also covers the per-vertex variant of the earlier "chartreuse"
  tool.
- **Skeleton** computes the longest joint segment, the per-joint size ratio,
  the scale of the rotate handle, and the lookup tables from influence path
  to index and presentation style. **Options** covers the two cached user
  options.
- **MannequinManipulator** and **MannequinContext** form the highlight and
  selection state machine: picking, select, reselect, press and abort.
  **ChartreuseManipulator** and **ChartreuseContext** are the earlier
  variants.
- **MoveHandles**, **MovePick** and **MoveDrag** model the three-axis move
  manipulator, in its hover-picking and press-and-drag revisions.
- **Util** holds the geometry kernels: ray–sphere, ray–plane and
  point-to-segment distance. **Vectors** holds the small vector algebra they
  use.
- **Presentation** is the presentation-style bit set and its string codec.
  **DagPaths** is the path ordering used as the lookup tables' key order.
- **Strings**, **JointOrganizer** and **ToolPanel** model the tool panel
  script. This covers:
  - reading the influence listing;
  - grouping left and right joints into paired panels;
  - trimming titles by the common name prefix;
  - the search filter and the marking of the selected panel;
  - the queue of deferred panel refreshes.

Modelling conventions:

- All arithmetic is over `real`.
- A square root is a parameter `sqrt` with `IsSqrt(sqrt)`: for every
  `x >= 0`, `sqrt(x) >= 0` and `sqrt(x) * sqrt(x) == x`.
- An IEEE NaN, such as the segment parameter of a zero-length segment or the
  size ratio when the longest joint is 0, is `None`. Every comparison with a
  NaN is false.
- `numeric_limits<double>::min()` and `numeric_limits<float>::min()` are the
  smallest positive normal numbers, 2^-1022 and 2^-126.
- `numeric_limits<float>::max()` is written out exactly.
- A DAG path is its full path name. A default-constructed path is `Invalid`.
- What the tools read from the scene is a `World` map. For each path it
  gives:
  - whether the path is a transform;
  - its children, each with a joint flag, a local translation and a world
    pivot;
  - its world pivot.
- The host's active selection is a recorded value that the tools
  overwrite.
- `MANIP_DEFAULT_SCALE` is 5.0 (mannequin.h:43). `MANIP_ADJUSTMENT` is
  declared but its value is not part of this model, so it is an input.

Notes on what the code does, which the model follows:

- A joint with no children of any kind gets TRANSLATE, and any other joint
  ROTATE, because `childCount()` counts every child, not just child joints
  (mannequin.cpp:104-105).
- A face whose weight sums are all at or below the smallest positive double,
  including a face with no influences, gets index 0 (mannequin.cpp:138-147).
- The picking error path clears only the highlight. When a highlight was
  set, it then selects the committed joint in the host, or clears the host
  selection when there is none (mannequin_manipulator.cpp:101-119).
- `select` takes only the path; the presentation style comes from the
  lookup table (mannequin.cpp:29-82).

## Model

| member | source | states |
|---|---|---|
| Influence.WeightSums | mannequin.cpp:129-136 | The nested summation loop, reading `weights[count++]` vertex by vertex, leaves in each influence's slot the sum of that influence's column of the row-major weight table. |
| Influence.Scan | chartreuse.cpp:94-101 | After `i` steps of the strict-`>` arg-max, the best is the floor at index 0 if no sum so far beats the floor. Otherwise it is a sum above the floor that is at least every sum seen and strictly above every earlier one. |
| Influence.DominantIndex | mannequin.cpp:138-145 | The arg-max result meets the reference definition: index 0 when nothing exceeds the floor, else the first position of the greatest sum. |
| Influence.DominantIsUnique | mannequin.cpp:138-145 | The reference definition determines a single index, so ties always go to the lowest influence. |
| Influence.DominantInRange | mannequin.cpp:138-147 | The index is within the influences when some sum exceeds the floor, and is 0 when none does. |
| Influence.MaxInfluences | mannequin.cpp:109-149 | The table has one entry per polygon. Each entry is the dominant influence of that face's summed weights against the smallest positive double. |
| Influence.MaxInfluenceTable | mannequin.cpp:109-149 | The table as a value: one entry per face, each the dominant influence of that face against the smallest positive double. The loop of `MaxInfluences` computes exactly this table. |
| Influence.VertexInfluence | chartreuse_manipulator.cpp:91-98 | The per-vertex pick is the first strictly greatest weight above the smallest positive float, or 0 when none is above it. |
| Influence.ClosestCorner | chartreuse_manipulator.cpp:56-63 | The chosen corner is one of the triangle's three corners. |
| Influence.ClosestCornerIsFirstMaximum | chartreuse_manipulator.cpp:56-63 | The chosen corner has the largest barycentric coordinate, and every earlier corner has a strictly smaller one, so ties favour the lower corner. |
| Influence.ThirdBarycentric | chartreuse_manipulator.cpp:50 | The three barycentric coordinates sum to one. |
| Skeleton.LongestChild | mannequin.cpp:183-196 | The longest child-joint segment of one joint is non-negative. It bounds every child that is a joint, non-joint children are ignored, and it is either 0 or the length of one child joint. |
| Skeleton.LongestJoint | mannequin.cpp:151-179 | `_longestJoint` is non-negative and bounds the child-joint segments of every influence. It is 0 or the length of one such segment. |
| Skeleton.OwnWithinLongest | mannequin.cpp:157-196 | No influence's own longest child segment exceeds the skeleton's longest joint. |
| Skeleton.JointLengthRatio | mannequin.cpp:181-203 | The ratio is 1 unless the cached auto-adjust flag is set and true. Otherwise it is NaN when the longest joint is 0, lies in [0.25, 1] for an own length within the longest, is 1 for the longest joint itself, and is 0.25 for a joint without child segments. |
| Skeleton.InfluenceRatioInRange | mannequin.cpp:181-203 | For every influence of a skeleton with a positive longest joint, the size ratio is defined and lies in [0.25, 1]. |
| Skeleton.AdjustedScale | mannequin.cpp:306-308 | The adjusted scale is defined exactly when the ratio is. At ratio 1 it is scale × adjustment × longest joint. It is non-negative when all factors are. |
| Skeleton.LeafStyle | mannequin.cpp:104-105 | A path with no children is TRANSLATE and any other is ROTATE, never both. |
| Skeleton.BuildLookup | mannequin.cpp:96-107 | Both tables have the same keys, and every influence's path is a key. |
| Skeleton.LookupIsLastEntry | mannequin.cpp:101-106 | A key maps to the last influence with that full path name, and its style is that influence's leaf style. |
| Skeleton.LookupAnswers | mannequin.cpp:310-327 | A listed path gets an index within the influences that names it, and a style of ROTATE or TRANSLATE. An unlisted path gets index −1 and style NONE. |
| Skeleton.LookupStyleExclusive | mannequin.cpp:103-105 | No path is ever looked up as both ROTATE and TRANSLATE. |
| Options.ManipScale | mannequin.cpp:253-267 | A cached scale is returned as is. Otherwise the stored option is read, defaulting to 5.0. Either way the value is cached afterwards. |
| Options.ManipAutoAdjust | mannequin.cpp:279-293 | A cached flag is returned as is. Otherwise it is true exactly when the stored integer option exists and is positive. Either way it is cached afterwards. |
| Options.CachedReadsIgnoreStore | mannequin.cpp:254-264 | Once cached, neither getter looks at the stored options. |
| Options.ReadsAreIdempotent | mannequin.cpp:253-293 | Reading a getter a second time returns the same value and leaves the same cache. |
| Options.StoreManipScale | mannequin.cpp:270 | Storing the scale leaves the stored auto-adjust flag alone. |
| Options.StoreManipAutoAdjust | mannequin.cpp:296-297 | Storing the auto-adjust flag leaves the stored scale alone. |
| Options.SetThenRead | mannequin.cpp:269-299 | After a setter, the getter returns the value just set, whether or not the cache was kept. |
| MannequinManipulator.Setup | mannequin_manipulator.cpp:20-24 | Setup attaches the context and installs the inherited highlight. The manipulator stays consistent: a valid highlight only ever exists with a context. |
| MannequinManipulator.HighlightedDagPath | mannequin_manipulator.cpp:26-32 | The reported path is the highlight when that is a transform, and the empty path otherwise. |
| MannequinManipulator.DoMoveError | mannequin_manipulator.cpp:101-119 | The status is always failure. A valid highlight is cleared, `refresh` is set, and the host selection becomes the committed selection if that is valid, else nothing. An invalid highlight leaves the manipulator, `refresh` and the host selection untouched. |
| MannequinManipulator.SameInfluenceFaces | mannequin_manipulator.cpp:80-85 | The faces sent to the host are exactly those whose dominant influence equals the hit face's, so the hit face is among them. |
| MannequinManipulator.InfluenceAt | mannequin_manipulator.cpp:88-94 | An index within the skin's influences gives that influence. An index past the end, which the source does not guard, gives the invalid path. |
| MannequinManipulator.DoMove | mannequin_manipulator.cpp:38-99 | A missing context, a mesh miss, a rotate-handle hit or a table of the wrong size takes the error path. In every other case the move succeeds and the highlight becomes the hit face's dominant influence. When that changes the highlight, `refresh` is set and the host selects exactly that influence's faces, the hit face included. Otherwise nothing changes. |
| MannequinManipulator.HighlightChangesOnlyOnSuccess | mannequin_manipulator.cpp:88-96 | A move never installs a new valid highlight except on the success path. |
| MannequinManipulator.JointChildren | mannequin_manipulator.cpp:163-172 | The kept children are exactly the children that are joints, each kept as many times as it occurs, so their count is the number of joint children. |
| MannequinManipulator.DrawCenter | mannequin_manipulator.cpp:159-189 | With exactly one child joint, the label sits midway between the pivot and that child's pivot. Otherwise it sits at the pivot. |
| MannequinContext.OldHighlight | mannequin.cpp:36-40 | The highlight carried over is the old picker's reported highlight, or the empty path when there is no picker. |
| MannequinContext.SelectAsWritten | mannequin.cpp:29-82 | Selecting the current path changes nothing. Otherwise the new path is taken and the picker is rebuilt with the old highlight. A non-transform drops the joint manipulator and handle. A joint without ROTATE keeps whatever joint-manipulator flag it had before. The options and the setup tables are never touched. |
| MannequinContext.StaleJointManipAfterTranslate | mannequin.cpp:62-70 | Selecting a ROTATE joint and then a TRANSLATE leaf leaves a move handle together with a stale joint manipulator. That state breaks the context invariant. |
| MannequinContext.CorrectedPicksHip | mannequin_manipulator.cpp:62-97 | After the corrected hip-then-toe selections, the rotate-handle test no longer blocks: a move over the face skinned to the hip succeeds and highlights the hip, whatever the cursor ray. |
| MannequinContext.StaleJointManipStillBlocksPicking | mannequin.cpp:232-251 | In that stale state the rotate-handle test still runs, around the toe, with a positive radius, although no rotate handle is shown. A cursor ray through that sphere sends every mesh hit down the error path. A ray aimed at the toe from one unit outside the sphere is such a ray: over the one face, skinned to the hip, the source's context fails, while the corrected context succeeds and highlights the hip. After the corrected selections the test never fires. |
| MannequinContext.Initial | mannequin.cpp:397-414 | The set-up context has no selection, no handle and a picker without highlight, and satisfies the invariant. It records the mesh and the influences. It keeps the host's stored options and caches neither, so the getters read them on first use. Its path lookups are those of the influences. Its table has one dominant influence per face, and its longest joint bounds and attains the skeleton's child-joint segments. |
| MannequinContext.InitialPicksDominantJoint | mannequin_manipulator.cpp:63-98 | Right after setup, a cursor move that hits a face succeeds and highlights the influence that dominates that face's weights. |
| MannequinContext.Select | mannequin.cpp:29-74 | Selecting the current path changes nothing. Otherwise ROTATE takes precedence and gives a rotate handle, TRANSLATE alone gives a move handle, and a non-transform gives no handle. A joint manipulator exists exactly for a rotate handle, so the invariant is kept. A transform gets the size ratio of its own child joints. A rotate handle gets the adjusted scale of the option read, and that read is cached. The options and the setup tables are never touched. |
| MannequinContext.SelectDiffersOnlyInJointManip | mannequin.cpp:62-73 | The corrected and the as-written select agree on everything except the joint-manipulator flag. |
| MannequinContext.Reselect | mannequin.cpp:84-90 | Reselecting keeps the selection, does nothing on an invalid selection, and keeps the invariant. |
| MannequinContext.ReselectMatchesSource | mannequin.cpp:84-90 | Reselecting passes through the empty path, so the corrected reselect equals the source's `select(MDagPath())` followed by `select(oldSelection)`. |
| MannequinContext.DoPress | mannequin.cpp:456-462 | With no picker nothing changes. Otherwise the picker's reported highlight becomes the selection. This press uses the corrected `select`, so it keeps the invariant. |
| MannequinContext.DoPressAsWritten | mannequin.cpp:456-462 | The press on the source's `select`: with no picker nothing changes, otherwise the picker's reported highlight becomes the selection. |
| MannequinContext.DoPressDiffersOnlyInJointManip | mannequin.cpp:456-462 | The corrected press and the source's press agree on everything except the joint-manipulator flag. |
| MannequinContext.AbortAction | mannequin.cpp:464-466 | After an abort nothing is selected and no joint manipulator or handle remains. |
| MannequinContext.AbortMatchesSource | mannequin.cpp:464-466 | The corrected abort equals the source's `select(MDagPath())`. |
| MannequinContext.SetManipScale | mannequin.cpp:269-277 | The option is stored and cached, so the getter then returns it. The selection is kept. Without a joint manipulator nothing else changes. |
| MannequinContext.SetManipAutoAdjust | mannequin.cpp:295-304 | The flag is stored and cached. The selection is kept. Without a joint manipulator nothing else changes. |
| MannequinContext.RotateHandleRadius | mannequin.cpp:243-244 | The rotate handle's pick radius exists exactly when the joint size ratio is defined. Its value is the adjusted scale of the scale option times the global manipulator size times 1.25. |
| MannequinContext.RadiusMatchesShownHandle | mannequin.cpp:53-59 | Right after a ROTATE joint is selected, the pick radius exists exactly when the shown handle's scale does. It is that scale times the global size times 1.25. |
| MannequinContext.IntersectRotateManip | mannequin.cpp:232-251 | The test hits exactly when a joint manipulator exists, the radius is defined, and the cursor ray meets the sphere of that radius around the selection's pivot. Without a joint manipulator nothing changes. Otherwise the only state it touches is the scale cache. |
| MannequinContext.RotateHitIsOnHandle | mannequin.cpp:246-250 | A reported hit lies on the handle's sphere, beyond the 1e-3 tolerance along the ray. |
| MannequinContext.CursorMove | mannequin_manipulator.cpp:38-99 | The move runs on any context whose picker is consistent, including the stale state of the select finding. It keeps the selection, the handles and the tables, and it keeps the invariant when it held. A mesh hit that also hits the rotate handle takes the error path. A mesh hit that misses it, with a table of the right size, succeeds and highlights the hit face's dominant influence. |
| ChartreuseManipulator.Setup | chartreuse_manipulator.cpp:18-22 | Setup records the mesh and marks the manipulator usable, keeping its highlight. |
| ChartreuseManipulator.DoMoveError | chartreuse_manipulator.cpp:110-114 | The error path always clears the highlight and sets `refresh`. |
| ChartreuseManipulator.DoMove | chartreuse_manipulator.cpp:28-108 | Every move sets `refresh`. Before setup, or on a miss, it takes the error path. It only ever highlights a transform. A transform pick is exactly the strongest influence of the hit triangle's closest corner. |
| ChartreuseManipulator.DoMoveForgetsHighlight | chartreuse_manipulator.cpp:28-108 | The result does not depend on the previous highlight, because there is no debounce. |
| ChartreuseManipulator.DrawShape | chartreuse_manipulator.cpp:126-163 | Nothing is drawn for a non-transform. With exactly one child joint a line runs from the pivot to that child's pivot. Otherwise a sphere of radius 2 sits at the pivot. |
| ChartreuseManipulator.LineMidpointIsDrawCenter | chartreuse_manipulator.cpp:151-157 | The midpoint of the drawn line is the label centre the mannequin manipulator uses. |
| ChartreuseContext.Select | chartreuse.cpp:26-55 | Select always takes the new path, with no equality guard. A rotate manipulator exists exactly when the path is a transform. The picker is rebuilt with the old highlight. |
| ChartreuseContext.SelectIdempotent | chartreuse.cpp:26-55 | Selecting the same path twice is the same as once. |
| ChartreuseContext.DoPress | chartreuse.cpp:226-232 | With no picker nothing changes. Otherwise the picker's highlight becomes the selection. |
| ChartreuseContext.AbortAction | chartreuse.cpp:234-236 | After an abort nothing is selected and no rotate manipulator remains. |
| ChartreuseContext.PressAfterMove | chartreuse.cpp:226-232 | A press after a cursor move commits either nothing or the joint just picked. A rotate manipulator appears exactly when a joint is committed. |
| MoveHandles.AxisOf | move_manipulator.cpp:141-157 | Handles 0, 1 and 2 are the X, Y and Z axes, never "no axis". |
| MoveHandles.AxisEnd | move_manipulator.cpp:107-110 | A handle's tip is the origin displaced by its direction scaled to the handle size. |
| MoveHandles.ConnectToDependNode | move_manipulator.cpp:20-51 | Connecting succeeds exactly for a connectable node and then takes its parent and own matrices. A failure leaves both matrices as they were. |
| MoveHandles.ScreenLength | move_manipulator.cpp:123-128 | A handle's screen length is non-negative and its square is the squared pixel distance from origin to tip. |
| MoveHandles.Project | move_manipulator.cpp:116-119 | The projected origin and three tips are the view projections of the origin and of each handle's tip. |
| MoveHandles.ViewLength | move_manipulator.cpp:121-128 | The view length is the greatest of the three on-screen handle lengths, and never negative. |
| MoveHandles.PickRadius | src/move_manipulator.cpp:376-378 | The pick radius is the larger of the floor and the given fraction of the cone height. |
| MoveHandles.AxisDistances | move_manipulator.cpp:141-153 | The three distances are the cursor's distances to each handle, in X, Y, Z order. |
| MoveHandles.NearIsBesideSegment | move_manipulator.cpp:142 | A handle the cursor is near has a non-degenerate segment. Its foot point lies between origin and tip, at the projection of the cursor onto the segment. |
| MoveHandles.ConeMetrics | src/move_manipulator.cpp:158-162 | The handle size is scale × global size. The cone's offset plus height is the size, its height is the handle-size percentage halved, and its radius is a quarter of its height. |
| MovePick.Construct | move_manipulator.cpp:12-13 | A new move manipulator has no selected axis and is not active. |
| MovePick.PickScan | move_manipulator.cpp:138-157 | After `n` handles no axis is chosen exactly when none qualifies, and the distance stays at float max. Otherwise the chosen handle qualifies, is no farther than any qualifying handle, and is strictly nearer than every earlier qualifying one. |
| MovePick.PickAxis | move_manipulator.cpp:134-157 | The selected axis is the nearest qualifying handle, with ties going to X, then Y, then Z, or "no axis" when none qualifies. |
| MovePick.NearestIsUnique | move_manipulator.cpp:138-157 | The nearest-handle rule determines a single axis. |
| MovePick.HoverRadius | move_manipulator.cpp:130-132 | The hover radius is at least 2 pixels. |
| MovePick.DoMove | move_manipulator.cpp:106-161 | A cursor move changes only the selected axis, which is the nearest qualifying handle. `refresh` is set exactly when the axis changed. |
| MovePick.DoMoveIsStable | move_manipulator.cpp:135-159 | Repeating a move with the same cursor changes nothing and asks for no refresh. |
| MovePick.ActiveIffNearAHandle | move_manipulator.cpp:181-183 | After a move the manipulator is active exactly when some handle qualifies. |
| MovePick.SetManipScale | move_manipulator.cpp:163-169 | `manipScale()` returns the scale last set, and nothing else changes. |
| MovePick.RecalcMetrics | move_manipulator.cpp:171-179 | The axes are the rows of the node's own matrix and the origin is the translation carried into parent space. Nothing else changes. |
| MovePick.Connect | move_manipulator.cpp:20-51 | Connecting updates only the matrices, as the node connection reports them. |
| MovePick.HandleHighlighted | move_manipulator.cpp:85-98 | A handle is drawn in the selected colour exactly when the manipulator is active on that handle. |
| MoveDrag.DragPlaneNormal | src/move_manipulator.cpp:248-249 | The drag-plane normal is perpendicular to the picked axis, so the axis lies in the plane. |
| MoveDrag.DoPress | src/move_manipulator.cpp:216-281 | A press always records the current value and touches only the operation. An unknown handle name fails with a zero axis. Otherwise names +0, +1 and +2 pick axis 0, 1 and 2 and fix a drag plane through the origin. The operation is valid exactly on success, and then holds the ray's hit on that plane and the three axes in parent space. |
| MoveDrag.ZeroAxisNeverHits | src/move_manipulator.cpp:248-263 | A press can only hit its drag plane for a non-zero axis. |
| MoveDrag.PressHitIsOnDragPlane | src/move_manipulator.cpp:257-269 | A valid press's anchor lies on the drag plane, and the axis is perpendicular to the plane's normal. |
| MoveDrag.DragOffsetIsProjection | src/move_manipulator.cpp:305-309 | The drag offset is the cursor displacement's projection onto the axis, measured in axis lengths. What remains of the displacement is perpendicular to the axis. |
| MoveDrag.DoDrag | src/move_manipulator.cpp:283-325 | Dragging an invalid operation fails and changes nothing. A miss succeeds and changes nothing. A hit changes only the translation, to the value at press plus the offset along the picked axis in parent space. |
| MoveDrag.DragToAnchorRestores | src/move_manipulator.cpp:305-323 | Dragging back to the anchor hit restores the value the press recorded. |
| MoveDrag.PressStartsOnAxisLine | src/move_manipulator.cpp:216-281 | Right after a press, the value lies on the line through the press value along the picked parent-space axis. |
| MoveDrag.DragKeepsOnAxisLine | src/move_manipulator.cpp:283-325 | Every drag keeps the value on that line. |
| MoveDrag.PressThenDragIsGood | src/move_manipulator.cpp:216-325 | Any drag after any press leaves the operation record well formed. |
| MoveDrag.IntersectManip | src/move_manipulator.cpp:350-400 | The cursor is over the manipulator exactly when some handle is within max(0.3 × cone height, 4) pixels and beside its segment. |
| MoveDrag.IntersectIsBesideAHandle | src/move_manipulator.cpp:384-397 | A positive test implies some handle's screen segment has non-zero length. |
| MoveDrag.SetManipScale | src/move_manipulator.cpp:331-337 | `manipScale()` returns the scale last set, and nothing else changes. |
| MoveDrag.RecalcMetrics | src/move_manipulator.cpp:339-348 | Each non-zero axis becomes unit length, pointing along its row of the node's own matrix. The origin is the translation carried into parent space, and nothing else changes. |
| MoveDrag.Connect | src/move_manipulator.cpp:29-60 | Connecting updates only the matrices, as the node connection reports them. |
| Util.RaySphereIntersection | src/util.h:11-51 | A miss leaves the output untouched. A null output stays null even on a hit. |
| Util.SphereHitIsOnSphere | src/util.h:26-45 | A reported distance exceeds 1e-3 and lies on the sphere along the normalised ray. |
| Util.SphereRoots | src/util.h:26-32 | Any point of the ray on the sphere is one of the two roots `−b ± √disc`, and the discriminant is then non-negative. |
| Util.SphereHitIsNearest | src/util.h:34-45 | The reported distance is the nearest intersection beyond 1e-3. |
| Util.HeadOnRayHits | src/util.h:16-39 | A ray aimed at the centre of a sphere of any positive radius, from one unit outside it, reports a hit at distance 1. |
| Util.SphereMissIsTangent | src/util.h:28 | A ray that meets the sphere beyond 1e-3 but is reported as a miss is tangent: the discriminant is exactly zero, because the test is strict. |
| Util.RayPlaneIntersection | src/util.h:53-77 | A miss leaves the output untouched. A null output stays null even on a hit. |
| Util.PlaneHitIsOnPlane | src/util.h:58-76 | A reported point is `origin + dist·dir` for a solved distance of at least 1e-3, and lies on the plane. |
| Util.PlaneHitIffCrossingAhead | src/util.h:60-70 | For a ray that crosses the plane at parameter `k`, there is a hit exactly when the ray is not nearly parallel to the plane and `k` is at least 1e-3. |
| Util.OnPlaneIffParameter | src/util.h:58-66 | A ray point lies on the plane exactly when its parameter solves `k (dir·n) = (p − o)·n`. |
| Util.DistanceToLine | util.h:53-79 | The reported distance is never negative. |
| Util.DegenerateSegmentIsFar | util.h:63-65 | A segment shorter than 1e-3 reports float max. |
| Util.DistanceIsCrossOverLength | src/util.h:84-87 | For a proper segment, the distance is the absolute cross product divided by the segment length. |
| Util.CollinearCursorDistanceZero | util.h:58-61 | A cursor on the segment's line is at distance 0. |
| Util.DistanceIsToFootPoint | src/util.h:84-102 | The distance is the length of the perpendicular from the cursor to its foot point at parameter `t`. |
| Util.ParameterIsProjection | src/util.h:93-102 | For a non-zero segment, `t` is the projection of the cursor offset onto the segment, over its squared length. |
| Util.ParameterAtEndpoints | util.h:67-76 | `t` is 0 at the first endpoint and 1 at the second. |
| Vectors.Normal | src/move_manipulator.cpp:344-346 | Normalising a non-zero vector gives a unit vector that scales back to it by its length. The zero vector is returned unchanged. |
| Presentation.StyleBits | src/mannequin.h:23-26 | NONE is 0. ROTATE and TRANSLATE are distinct single bits. |
| Presentation.ToString | src/mannequin.h:28-33 | The text holds 'r' exactly when ROTATE is set and 't' exactly when TRANSLATE is set, and no other characters. It has one letter per set bit, 'r' first and 't' last. It is empty exactly when neither is set. |
| Presentation.FromString | src/mannequin.h:35-44 | ROTATE is set exactly when the text contains 'r', TRANSLATE exactly when it contains 't', and nothing else is set. |
| Presentation.FromStringOfToString | src/mannequin.h:28-44 | Decoding an encoded style gives the style back, less unknown bits. |
| Presentation.FromStringOnlyPresence | src/mannequin.h:35-44 | Decoding depends only on whether 'r' and 't' occur, not on order, repeats or other characters. |
| Presentation.ToStringOfFromStringCanonical | src/mannequin.h:28-44 | Re-encoding a decoded text is canonical and stable. For example "tr" becomes "rt" and "!t" becomes "t". |
| DagPaths.StringLessIsLexicographic | src/stdext.h:10-16 | The string comparison the comparator uses is lexicographic order. |
| DagPaths.StringLessIrreflexive | src/stdext.h:11-15 | No string is less than itself. |
| DagPaths.StringLessAsymmetric | src/stdext.h:11-15 | No two strings are each less than the other. |
| DagPaths.StringLessTransitive | src/stdext.h:11-15 | The string order is transitive. |
| DagPaths.StringLessTotal | src/stdext.h:11-15 | Any two different strings are ordered one way or the other. |
| DagPaths.PathLessIrreflexive | src/stdext.h:10-16 | No path is less than itself. |
| DagPaths.PathLessStrictOrder | src/stdext.h:10-16 | The path comparator is asymmetric and transitive, so it is a strict order. |
| DagPaths.PathEquivalentIffSameName | src/stdext.h:10-16 | Two paths are equivalent keys exactly when their full path names are equal. |
| DagPaths.PathLessIsLexicographic | src/stdext.h:10-16 | Paths are ordered lexicographically by full path name. |
| Strings.Lower | scripts/mannequin.py:452 | Lower-casing keeps the length, leaves no upper-case letter, and changes exactly the upper-case letters. |
| Strings.LowerIdempotent | scripts/mannequin.py:370 | Lower-casing twice is lower-casing once, and a lower-case text is left alone. |
| Strings.Slice | scripts/mannequin.py:134 | A slice is the text between its bounds clamped to the length, empty for a reversed or out-of-range start. |
| Strings.SliceIsPrefixTest | scripts/mannequin.py:258 | Comparing the first `len(p)` characters with `p` is a prefix test. |
| Strings.ContainsIff | scripts/mannequin.py:370 | `p in s` holds exactly when `p` occurs at some index of `s`. |
| Strings.ContainsTransitive | scripts/mannequin.py:370 | A text inside a text inside `s` is inside `s`. |
| Strings.LowerKeepsOccurrence | scripts/mannequin.py:370 | An occurrence stays an occurrence after lower-casing both texts. |
| Strings.CountPositiveIffContains | scripts/mannequin.py:462-463 | `count` is positive exactly when the text occurs. |
| Strings.CountSingle | scripts/mannequin.py:462 | Counting one character counts all of its occurrences. |
| Strings.ReplaceLength | scripts/mannequin.py:453-456 | `replace` changes the length by the length difference once per counted occurrence. |
| Strings.ReplaceChars | scripts/mannequin.py:453-456 | Every character of the result comes from the text or from the replacement. |
| Strings.ReplaceMissingChar | scripts/mannequin.py:453-456 | A text that lacks any one character of the pattern is left unchanged. |
| Strings.ReplaceCharMaps | scripts/mannequin.py:455-456 | Replacing one character by another maps each character on its own: the replaced one becomes the replacement, every other stays. |
| Strings.ReplaceFinalChar | scripts/mannequin.py:455-456 | A final character that occurs nowhere before it is the only one replaced. |
| Strings.ReplaceLeading | scripts/mannequin.py:453-454 | A text made of the pattern and a rest lacking one of the pattern's characters becomes the replacement followed by that rest. |
| Strings.ReplaceCharRemoves | scripts/mannequin.py:455-456 | Replacing one character by another removes it. |
| Strings.SplitPiecesHaveNoSeparator | scripts/mannequin.py:395 | No piece of a split contains the separator. |
| Strings.SplitCount | scripts/mannequin.py:253 | A split has one piece more than the text has separators. |
| Strings.JoinSplit | scripts/mannequin.py:395 | Joining the pieces of a split gives the text back. |
| Strings.SplitJoin | scripts/mannequin.py:395 | Splitting joined separator-free pieces gives the pieces back. |
| JointOrganizer.StripName | scripts/mannequin.py:451-457 | A stripped name is lower-case and contains no 'l' or 'r'. |
| JointOrganizer.StripNameIdempotent | scripts/mannequin.py:451-457 | Stripping a stripped name changes nothing. |
| JointOrganizer.StripFinalSideLetter | scripts/mannequin.py:451-457 | A name that lower-cases to a stem free of "e", "i", "l" and "r" followed by one "l" or "r" strips to the stem followed by "~". |
| JointOrganizer.StripLeadingSideWord | scripts/mannequin.py:451-457 | A name that lower-cases to "left" or "right" followed by a rest free of "l" and "r" strips to "~" followed by that rest. |
| JointOrganizer.MirroredNamesStripAlike | scripts/mannequin.py:451-457 | Mirrored names such as "Hand_L" and "hand_r", or "LeftHand" and "RightHand", strip to the same key. |
| JointOrganizer.LeftHeuristic | scripts/mannequin.py:459-464 | One point per "l" and ten more per "left" in the lower-cased name. The contract is carried by `HeuristicsCountLetters`: the single-letter part is the letter count, and the score is positive exactly when the name holds an 'l' in either case. |
| JointOrganizer.RightHeuristic | scripts/mannequin.py:466-471 | One point per "r" and ten more per "right" in the lower-cased name. `HeuristicsCountLetters` carries the contract as for the left score, with 'r'. |
| JointOrganizer.HeuristicsCountLetters | scripts/mannequin.py:459-471 | Each heuristic counts its letter plus ten per whole word, and is positive exactly when the lower-cased name contains the letter. |
| JointOrganizer.KeysOf | scripts/mannequin.py:474 | There is one key per joint, its stripped partial name. |
| JointOrganizer.FindKey | scripts/mannequin.py:480 | A key is found exactly when some group has it, and the found group carries that key. |
| JointOrganizer.Insert | scripts/mannequin.py:480-483 | One step of the grouping loop: a new key opens an entry at the end, a known key gets the joint appended to its entry. `InsertKeepsInvariant` carries the contract: the step keeps the keys distinct, every entry the filter of its key, and every key seen with an entry. |
| JointOrganizer.GroupJoints | scripts/mannequin.py:474-483 | The `OrderedDict` the loop builds. `GroupsAreFilters`, `GroupsInFirstOccurrenceOrder` and `GroupingKeepsEveryJoint` carry its contract. |
| JointOrganizer.GroupsAreFilters | scripts/mannequin.py:474-483 | The group keys are distinct, every joint's key has a group, and each group holds exactly the joints with its key, in input order. |
| JointOrganizer.GroupsInFirstOccurrenceOrder | scripts/mannequin.py:475-483 | Groups appear in the order their keys first occur among the joints. |
| JointOrganizer.GroupingKeepsEveryJoint | scripts/mannequin.py:476-483 | The groups together hold every input joint exactly once. |
| JointOrganizer.Singles | scripts/mannequin.py:494 | A group laid out singly gives one single-joint entry per joint, in order. |
| JointOrganizer.PairGroup | scripts/mannequin.py:487-536 | The layout of one group: singles unless it is a two-joint group with one presentation ordered by side labels or, failing those, by the name heuristics. `PairGroupIff`, `PairGroupShape` and `PairGroupKeepsJoints` carry its contract. |
| JointOrganizer.PairGroupIff | scripts/mannequin.py:493-532 | A group becomes a single pair exactly when it has two joints with equal presentations that are ordered by their side labels or by the name heuristics. |
| JointOrganizer.PairGroupShape | scripts/mannequin.py:493-536 | A group is laid out singly, or a two-joint group becomes one pair in either order. |
| JointOrganizer.PairGroupKeepsJoints | scripts/mannequin.py:493-536 | Pairing a group neither loses nor duplicates a joint. |
| JointOrganizer.OrganizeJoints | scripts/mannequin.py:442-538 | `organizeJoints`: group by stripped name, then lay out each group. `OrganizeKeepsEveryJoint` and `OrganizedEntriesAreSound` carry its contract. |
| JointOrganizer.OrganizeKeepsEveryJoint | scripts/mannequin.py:442-538 | Flattening the panel entries gives every input joint exactly once. |
| JointOrganizer.OrganizedEntriesAreSound | scripts/mannequin.py:487-538 | Every entry is one joint or a pair. A pair is a whole two-joint group with one presentation, never ordered right-then-left by labels, and ordered left-then-right by labels or else by the name heuristics. |
| JointOrganizer.SharedPrefix | scripts/mannequin.py:546 | The shared prefix of two names is a prefix of both and extends every common prefix. |
| JointOrganizer.SharedByTwo | scripts/mannequin.py:546 | A text is a common prefix of two names exactly when it is a prefix of each. |
| JointOrganizer.CommonPrefix | scripts/mannequin.py:541-547 | The common prefix is shared by every name and extends every shared prefix. |
| JointOrganizer.CommonPrefixLength | scripts/mannequin.py:541-547 | The prefix length is within every name's length and is the longest shared prefix. It is 0 for no names. |
| ToolPanel.Listing | mannequin.cpp:568-581 | The `-io` reply: each influence's name, a space and its marker, entries separated by single spaces. `TokensAt`, `ListingSplitsIntoTokens` and `ListingRoundTrip` carry its contract. |
| ToolPanel.Marker | mannequin.cpp:577-580 | The token after a name is '!' followed by the style's letters. |
| ToolPanel.MarkerDecodes | mannequin.cpp:578-580 | Decoding a listed token gives the joint's style back, less unknown bits. |
| ToolPanel.TokensAt | mannequin.cpp:568-581 | The listing's tokens alternate: token 2i is influence i's name and token 2i+1 its marker. |
| ToolPanel.ListingSplitsIntoTokens | mannequin.cpp:568-581 | Splitting the listing on spaces gives exactly its tokens, when names have no spaces. |
| ToolPanel.ListingRoundTrip | scripts/mannequin.py:395-397 | The even tokens are the influence names and the odd tokens their markers, each of which decodes to the influence's style. |
| ToolPanel.ReadListing | scripts/mannequin.py:395-428 | A listing is read only if every name has a presentation token. Each joint then carries the token paired with its name. |
| ToolPanel.ReadListingOfListing | scripts/mannequin.py:418-428 | Reading the context's listing back gives one joint per influence, with its partial name, side label and marker. |
| ToolPanel.DisplayPresentationAsWritten | scripts/mannequin.py:134 | The presentation passed to every panel is at most one character. |
| ToolPanel.ListedDisplaysAreNeverStyled | scripts/mannequin.py:134-141 | For a listed joint that character is always '!', so its panel is never a rotate or translate panel. |
| ToolPanel.DisplayPresentation | scripts/mannequin.py:134 | The corrected presentation, the token's second character, is at most one character. `StyledDisplays` states which panel it selects. |
| ToolPanel.KindOf | scripts/mannequin.py:175-194 | The branches of `insertJointDisplayPanel`: "r" gives rotate widgets and the blue style, "t" translate widgets and the green style, anything else neither. `ListedDisplaysAreNeverStyled` and `StyledDisplays` state what it gives for listed tokens. |
| ToolPanel.StyledDisplays | scripts/mannequin.py:175-194 | With the marker skipped, a ROTATE joint gets a rotate panel, a TRANSLATE-only joint a translate panel, and a joint with neither a plain one. |
| ToolPanel.Title | scripts/mannequin.py:168-171 | A title drops the first `prefixTrim` characters only from a longer name, so it is non-empty exactly when the name is. |
| ToolPanel.TitlesFollowCommonPrefix | scripts/mannequin.py:168-171 | Under the common prefix length, each title is either the whole name, when the name is the prefix, or the non-empty rest after the prefix. |
| ToolPanel.PresentationText | scripts/mannequin.py:134 | Read as written, a token yields its first character. Read as intended, it yields its second character, or nothing when there is none. |
| ToolPanel.MarkerKind | scripts/mannequin.py:134-141 | Read as written, every marker selects a plain panel. Read as intended, a marker selects the panel its style calls for. |
| ToolPanel.LayoutDisplay | scripts/mannequin.py:124-141 | A display gives one panel per joint, with its name and trimmed title. Every panel gets the kind of the first joint's presentation: its first character as written, or the letter after the marker as corrected. |
| ToolPanel.LayoutFollowsJoints | scripts/mannequin.py:436-438 | Under either reading, the panels follow the flattened joints one for one, with name, title and the kind that reading takes from each joint's own token. |
| ToolPanel.EveryJointGetsItsPanel | scripts/mannequin.py:430-438 | Under either reading, after organising, every input joint gets exactly one panel, of the kind that reading takes from its own token. |
| ToolPanel.ListedLayout | scripts/mannequin.py:395-438 | From a listing read back, as the script is written, every panel is plain whatever the influences' styles. With the corrected reading, every panel belongs to a listed influence and has the kind that influence's style calls for. |
| ToolPanel.Layout | scripts/mannequin.py:436-438 | The panels of every display, in display order. `LayoutFollowsJoints`, `EveryJointGetsItsPanel` and `ListedLayout` carry its contract. |
| ToolPanel.SelectedPanel | scripts/mannequin.py:115-119 | The name `select` compares against: the selection's partial name, or "" without one. `AtMostOneFlatPanel` carries its contract. |
| ToolPanel.FlatPanels | scripts/mannequin.py:115-122 | Only existing panels are drawn flat. |
| ToolPanel.AtMostOneFlatPanel | scripts/mannequin.py:115-122 | At most one panel is flat, namely the selected one if it has a panel. Nothing is flat without a selection, unless a panel has the empty name. |
| ToolPanel.Visible | scripts/mannequin.py:368-373 | Only existing panels are shown. |
| ToolPanel.SearchIsCaseInsensitiveSubstring | scripts/mannequin.py:368-373 | A panel is shown exactly when the search text occurs in its name, ignoring case. |
| ToolPanel.SearchFindsExactOccurrence | scripts/mannequin.py:370 | A name holding the search text is shown. |
| ToolPanel.SearchProperties | scripts/mannequin.py:368-373 | The search ignores the case of the text, an empty text shows every panel, and a longer text shows no more panels than a text it contains. |
| ToolPanel.Reset | scripts/mannequin.py:86-113 | A reset forgets every panel and path and empties the queue, with no refresh outstanding. |
| ToolPanel.Enqueue | scripts/mannequin.py:259-261 | An update is appended, and a deferred refresh is scheduled exactly when the queue was empty. |
| ToolPanel.DirtyPlug | scripts/mannequin.py:252-265 | A plug name without exactly one '.' raises. Otherwise the panels are kept and the queue grows by at most one update. A refresh is scheduled exactly when the queue goes from empty to one entry. Every non-empty queue keeps a refresh pending. |
| ToolPanel.DirtyPlugQueues | scripts/mannequin.py:255-265 | A rotate attribute of a paneled node queues an 'r' update. A translate attribute queues a 't' update. Anything else queues nothing. |
| ToolPanel.Refreshes | scripts/mannequin.py:267-292 | The updates a deferred refresh applies are exactly the queued ones for a known node with an 'r' or 't' presentation. |
| ToolPanel.DeferredUpdate | scripts/mannequin.py:267-292 | A deferred refresh empties the queue and consumes one scheduled call, leaving the state consistent. |
| ToolPanel.RotateChangeIsShown | scripts/mannequin.py:258-281 | A rotation change on a paneled node schedules a refresh, and that refresh updates the node's rotation. |

## Left out

- Host plumbing is not modelled:
  - plug-in registration;
  - skin-cluster discovery in `toolOnSetup` and the cleanup in `toolOffCleanup`;
  - `forceExit`, `updateText`, and the Python callback string that `select` runs;
  - command flag parsing.
  The `-io` query's reply is modelled as `ToolPanel.Listing`.
- Drawing is not modelled: `draw`, `drawUI`, `preDrawUI`, `glDrawCone`, `beginDrawable`, colours and GL calls. Only the geometry they use is kept: handle tips, cone metrics, the label centre and the chartreuse shape.
- Host geometry services are inputs rather than models: mesh intersection, `worldToView`, mouse rays, skin weights, matrix queries and the triangle vertex queries.
- `shouldDrawHandleAsSelected` and `glActiveName` are host state. The press takes the active name as an input.
- Floating-point rounding is not modelled. Everything is over `real`, and the float and double copies of the kernels are one model.
- Util.DistanceToLine: its own contract only states non-negativity. The full behaviour is stated by the lemmas after it, because the formula needs the `sqrt` parameter.
- MovePick.HoverRadius: its own contract states only the 2-pixel floor. The exact value is stated by `MoveHandles.PickRadius`, which it calls.
- `Strings.Lower` models Python's `str.lower` on ASCII letters only. Unicode case mapping is not modelled.
- The side label a joint's node reports and `partialPathName` are host functions passed in as parameters.
- The tool panel's Qt work is not modelled:
  - widget creation and `.ui` loading;
  - validators, drag widgets, value formatting and `setAttr` edits (`setRotation`, `setTranslation`, `updatePanel*`);
  - `relayout` and the resize and focus event filters;
  - removal of host callbacks.
  The queue records which updates a refresh applies, not the widget values.
- `mannequinSelectionChanged` is modelled only through its effect: a path that does not resolve selects nothing (`ToolPanel.FlatPanels` with no selection).
- Members declared without bodies in the shown headers are not modelled: `selectionStyle`, `_availableStyles`, `completeAction`, `keyframeCallback` and the styled `select` overload.
- Chartreuse's `select` calls `setup(this, highlight)`, but the chartreuse manipulator's own `setup` takes a mesh and a skin. The two generations are modelled each on their own terms: the picker is set up for the context's mesh and keeps the carried highlight.
- `intersectRotateManip` is always called with a null distance argument, so the distance output is not returned.
- Initial: it models a context set up for the first time. The source keeps the context object across activations, and `toolOnSetup` clears neither the option caches nor the lookup maps, which only gain entries. A second activation can therefore read a cached option that differs from the stored one, and can answer lookups for influences of an earlier skin.
- InfluenceAt: the source indexes the influence array without a bounds check, and a face with no influences above the floor gets index 0 even when the skin has no influences. The source's behaviour there is undefined. The model yields the invalid path, so such a move highlights nothing valid but still selects the faces.
- DoPress: it is built on the corrected `select`, so on the input of the first finding it clears the stale joint manipulator where the source keeps it. `DoPressAsWritten` is the press on the source's `select`, and `DoPressDiffersOnlyInJointManip` bounds the difference. Reselect, AbortAction and the two option setters use the corrected `select` too, but the lemmas `ReselectMatchesSource` and `AbortMatchesSource` show that they equal the source's.

## Findings

| source | as written | input that shows it | evidently intended | confidence | as-written member | corrected member |
|---|---|---|---|---|---|---|
| mannequin.cpp:62-70 | When the new selection is TRANSLATE-only, `select` adds a move manipulator but never resets `_jointManip`. A rotate manipulator created for the previous selection therefore stays recorded after `deleteManipulators` removed it. | Select a ROTATE joint "hip", then the TRANSLATE leaf "toe". The context has a move handle and a non-null joint manipulator. `intersectRotateManip` then still tests a rotate-handle sphere that is not shown, and a ray through it blocks every pick. With a one-unit knee and a face skinned to the hip, a ray aimed at the toe from one unit outside that sphere fails where the corrected context highlights the hip (`StaleJointManipStillBlocksPicking`). `setManipScale` also reselects. | Reset `_jointManip` to the null object in that branch, as the non-transform branch does, so a joint manipulator exists exactly when a rotate handle is shown. | medium; not executed | MannequinContext.SelectAsWritten | MannequinContext.Select |
| scripts/mannequin.py:134 | `pres = jointDisplay[0][2][:1]` takes the first character of the presentation token. The context writes every token as '!' followed by the style letters, so `pres` is always "!". | Any joint listed as "!r" or "!t": its panel gets neither the rotate nor the translate widgets, colour or edit callbacks of lines 175-227. | Take the first style letter after the '!' marker, `[1:2]`. | high; not executed | ToolPanel.DisplayPresentationAsWritten | ToolPanel.DisplayPresentation |
