# VerletClothComponent in Dafny

This project models the simulation core of the VerletClothComponent plugin. The plugin is an Unreal Engine mesh component that hangs a rectangular cloth from its owner and simulates it:
- The cloth is a grid of rows (`FVerletClothHorizontalLine`) of mass points.
- A fixed-rate substep loop drives the simulation. Each substep integrates with Verlet's method from position history, relaxes shrink-only distance constraints in a fixed order, and clips free points against an optional plane.
- Anchored rows ride along with the owner.

The scene proxy then numbers the grid's vertices and emits two triangles per quad.

The model is split into layers:

- `vectors.dfy` (`Vectors`): `FVector` as an exact `Vec3` of reals. `Size()` is a supplied function `size` with `IsSize(size)`, that is, `size(v) >= 0` and `size(v)^2 == |v|^2`.
- `line_spec.dfy` (`LineSpec`): the value of one row (`LineState`) and one pure function per row operation. Each function states what the row's code computes, and the lemmas state what those computations promise.
- `line.dfy` (`Line`): the row as a class with the row's own fields. Each method rewrites the arrays in place with the loop of the C++ code. Each is proved to leave `State()` equal to the `LineSpec` function of the old state.
- `grid_spec.dfy` (`GridSpec`): the value of the whole grid, with these functions:
  - the ordered constraint sweep;
  - the per-row integration dispatch;
  - plane collision;
  - the grid `OnRegister` builds;
  - the arithmetic of the substep loop.
- `component.dfy` (`Component`): `UVerletClothComponent` as a class that owns its rows. Each method is proved to leave `Snapshot()`, the rows' values in order, equal to the `GridSpec` function of the old snapshot.
- `mesh.dfy` (`ClothMesh`): the scene proxy's `GetVertIndex`, `GetRequiredVertexCount` and `GetRequiredIndexCount`, plus the vertex and triangle loops of `BuildClothMesh` and the point copy `SendRenderDynamicData_Concurrent` hands over (`DynamicPoints`, with `InverseTransformPosition` a supplied function).

The engine enters only through parameters:
- a `Transform` value holds the component location, the rotation axes, and `TransformVector` / `InverseTransformVector`;
- `DeltaTime` and the time dilation are plain numbers;
- `FVector::GetSafeNormal` is a supplied function `safeNormal` / `normal`.

### Behaviour of the code that the model keeps

- **Integer row spacing.** `HorizontalWidth` is an `int32` field, so `SetHorizontal` truncates the float width (`Truncate`). The spacing `HorizontalWidth / NumSides` in `SetInitPosition`, `FixedProcess` and `SolveHorizontalConstraint` is an `int32` division that truncates toward zero (`CDiv`), not an even float split of the width. `SideOffsetLastIff` proves that the last point lands on `+width/2` exactly when the side count divides the integer width.
- **Point count.** `SetHorizontal` allocates `max(1, NumSides) + 1` points per row, not `NumSides + 1`.
- **Zero distance in `SolvePositionConstraint`.** The code has no zero-distance guard. With floats, `(0 - D) / 0` is minus infinity for a positive target `D`, so the "error <= 0" early return fires, and the model's no-op at distance 0 agrees with it. For a target <= 0 the error factor is `0 / 0`, which is NaN, or plus infinity for a negative target. The comparison then fails and NaN (for infinity, infinity times the zero `Delta`) is written into every free end of the pair. A cloth narrower than its side count reaches the zero-target case (see Findings); the property clamps keep the targets from being negative. The model leaves such a pair alone.
- **Integration time.** The call site of `VerletIntegrate` passes two arguments, `Gravity` and `TimeSqr`, to `VerletProcess`. The header defines `VerletProcess` with a single float, which it multiplies by the per-point `Acceleration[Idx]`.
  - The model passes `InTime * InTime` as that float.
  - The local `Gravity` vector is dropped.
  - The accelerations used are each row's own array.
- **Who fills the acceleration arrays.** `SetHorizontal` zeroes the arrays. The component-level `UpdateAcceleration` is declared but never defined or called, so nothing in the component refills them. The row-level `UpdateAcceleration` (gravity plus the face-normal wind force) is modelled on its own.
- **The gravity field.** The constructor assigns `Acceleration`, but the component declares this property as `Gravity`. The model calls it `Gravity`.
- **Unused properties.** `bUseLocalGravity` and `Wind` are never read by the component code and are not modelled as component fields.
- **The substep loop.** The loop as written never terminates when the step is not positive (see Findings). The modelled `TickComponent` also stops then.

## Model

| member | source | states |
|---|---|---|
| LineSpec.CDiv | VerletClothComponent/Source/VerletClothComponent/Classes/VerletClothComponent.h:46 | int32 division truncates toward zero: for a positive divisor the quotient q satisfies q*b <= a < q*b + b when a >= 0, and q*b - b < a <= q*b when a < 0 |
| LineSpec.Truncate | VerletClothComponent/Source/VerletClothComponent/Classes/VerletClothComponent.h:33 | assigning the float width to the int32 field truncates toward zero: the result is within one unit of the width and on the side of zero |
| LineSpec.SizedAppendsZeros | VerletClothComponent/Source/VerletClothComponent/Classes/VerletClothComponent.h:31-38 | SetHorizontal appends exactly max(1, NumSides) + 1 zero vectors to each of the three arrays, keeps their old prefixes, keeps them aligned and leaves the flag and damping alone |
| LineSpec.SideOffsetSpacing | VerletClothComponent/Source/VerletClothComponent/Classes/VerletClothComponent.h:44-49 | the first layout point is SideVector * (-W/2) from the centre and consecutive points differ by exactly SideVector * (W / NumSides) |
| LineSpec.SideOffsetLastIff | VerletClothComponent/Source/VerletClothComponent/Classes/VerletClothComponent.h:45-49 | the last layout point sits at SideVector * (W/2) if and only if the side vector is zero or NumSides divides the integer width |
| LineSpec.Laid | VerletClothComponent/Source/VerletClothComponent/Classes/VerletClothComponent.h:40-56 | SetInitPosition keeps the row aligned and its flag, width, damping, accelerations and point count |
| LineSpec.LaidLayout | VerletClothComponent/Source/VerletClothComponent/Classes/VerletClothComponent.h:42-54 | point i lands at Center + offset(i); a free row gets SavedPositions == Positions (zero velocity), an anchored row gets RelativeLocation in every saved slot |
| LineSpec.Fixed | VerletClothComponent/Source/VerletClothComponent/Classes/VerletClothComponent.h:69-79 | FixedProcess changes only the positions and keeps their count |
| LineSpec.FixedIgnoresPositions | VerletClothComponent/Source/VerletClothComponent/Classes/VerletClothComponent.h:71-78 | FixedProcess's result does not depend on the prior positions, and applying it twice equals applying it once |
| LineSpec.FixedRestoresLayout | VerletClothComponent/Source/VerletClothComponent/Classes/VerletClothComponent.h:69-79 | an anchored row laid out around center + relative with offset relative is put back exactly where it was when re-slaved to center |
| LineSpec.Verlet | VerletClothComponent/Source/VerletClothComponent/Classes/VerletClothComponent.h:58-67 | VerletProcess keeps the row aligned and its flag, width, damping and accelerations, and the new saved positions are the old positions |
| LineSpec.VerletDisplacement | VerletClothComponent/Source/VerletClothComponent/Classes/VerletClothComponent.h:60-66 | each point moves by (P - S)*(1 - Damping) + t*A[i]; a point at rest with zero acceleration stays put; with damping 1 only the acceleration term remains |
| LineSpec.UpdatedAcceleration | VerletClothComponent/Source/VerletClothComponent/Classes/VerletClothComponent.h:81-124 | UpdateAcceleration changes only the accelerations of this row and, only for the last segment, of the next row; both stay aligned |
| LineSpec.NoWindIsGravity | VerletClothComponent/Source/VerletClothComponent/Classes/VerletClothComponent.h:83-90 | with nearly-zero wind every acceleration of the row (and of the terminal row) equals gravity |
| LineSpec.WindAccelCorners | VerletClothComponent/Source/VerletClothComponent/Classes/VerletClothComponent.h:87-101 | with wind, point i's acceleration is gravity plus the face force of the triangle on its left (i > 0) and of the one on its right (i < last) |
| LineSpec.SolvePositionConstraint | VerletClothComponent/Source/VerletClothComponent/Classes/VerletClothComponent.h:165-189 | a non-free end never moves; a pair at most the target apart (or at distance zero) is unchanged; with both ends free the midpoint is kept and both move by opposite amounts |
| LineSpec.SolvePositionConstraintOnTarget | VerletClothComponent/Source/VerletClothComponent/Classes/VerletClothComponent.h:168-188 | a pair farther apart than the target with a free end ends exactly the target apart along its old direction; with a non-negative target the pair never ends farther apart than before, nor (with a free end) farther than the target |
| LineSpec.ZeroDistanceGuardAsWritten | VerletClothComponent/Source/VerletClothComponent/Classes/VerletClothComponent.h:170-173 | as written in floats: at distance 0 the early return fires exactly when the target is positive, a zero target gives a NaN error factor and a negative target plus infinity; at a positive distance it fires exactly when the pair is no farther apart than the target |
| LineSpec.RowPassKeepsCoincident | VerletClothComponent/Source/VerletClothComponent/Classes/VerletClothComponent.h:138-141 | with the model's zero-distance rule, a horizontal pass over coincident points leaves them where they are, whatever the target |
| LineSpec.SolveHorizontalKeepsCoincident | VerletClothComponent/Source/VerletClothComponent/Classes/VerletClothComponent.h:134-143 | a row whose points all coincide is unchanged by SolveHorizontalConstraint |
| LineSpec.CollapsedRowAsWritten | VerletClothComponent/Source/VerletClothComponent/Classes/VerletClothComponent.h:134-143 | on a coincident row with zero int32 spacing, every neighbouring pair has distance 0 and target 0; the float code's error factor is NaN and its early return does not fire, while the model keeps the row |
| LineSpec.PulledAlongLine | VerletClothComponent/Source/VerletClothComponent/Classes/VerletClothComponent.h:176-188 | a moving projection scales the pair's difference vector by desired / distance in each of the three free-end cases |
| LineSpec.RowPassKeepsSum | VerletClothComponent/Source/VerletClothComponent/Classes/VerletClothComponent.h:140-141 | the horizontal pass keeps the sum (centre of mass) of the row's points |
| LineSpec.CrossPass | VerletClothComponent/Source/VerletClothComponent/Classes/VerletClothComponent.h:145-163 | a pass between two rows keeps both point counts and never changes the positions of a non-free row |
| LineSpec.SolveHorizontal | VerletClothComponent/Source/VerletClothComponent/Classes/VerletClothComponent.h:134-143 | the horizontal pass changes only positions and leaves an anchored row exactly as it was |
| LineSpec.SolveVertical | VerletClothComponent/Source/VerletClothComponent/Classes/VerletClothComponent.h:145-149 | the vertical pass changes only positions of both rows and leaves a non-free row as it was |
| LineSpec.SolveDiagonal1 | VerletClothComponent/Source/VerletClothComponent/Classes/VerletClothComponent.h:152-156 | the first diagonal pass changes only positions and leaves a non-free row as it was |
| LineSpec.SolveDiagonal2 | VerletClothComponent/Source/VerletClothComponent/Classes/VerletClothComponent.h:159-163 | the second diagonal pass changes only positions and leaves a non-free row as it was |
| LineSpec.SolveSegment | VerletClothComponent/Source/VerletClothComponent/Classes/VerletClothComponent.h:126-132 | the four passes of a segment change only positions and leave a non-free row as it was |
| Line.HorizontalLine.constructor | VerletClothComponent/Source/VerletClothComponent/Classes/VerletClothComponent.h:27-29 | a new row is free, undamped and empty |
| Line.HorizontalLine.Zeroed | VerletClothComponent/Source/VerletClothComponent/Private/VerletClothComponent.cpp:393 | a row made by AddZeroed is all zero: not free, undamped, empty |
| Line.HorizontalLine.SetHorizontal | VerletClothComponent/Source/VerletClothComponent/Classes/VerletClothComponent.h:31-38 | the row becomes Sized(old row): truncated width, max(1, NumSides) + 1 zeroed points appended to each array |
| Line.HorizontalLine.SetInitPosition | VerletClothComponent/Source/VerletClothComponent/Classes/VerletClothComponent.h:40-56 | the point loop leaves the row equal to Laid(old row, ...) |
| Line.HorizontalLine.VerletProcess | VerletClothComponent/Source/VerletClothComponent/Classes/VerletClothComponent.h:58-67 | the point loop leaves the row equal to Verlet(old row, InSubstepTime) |
| Line.HorizontalLine.FixedProcess | VerletClothComponent/Source/VerletClothComponent/Classes/VerletClothComponent.h:69-79 | the point loop leaves the row equal to Fixed(old row, CenterLocation, SideVector) |
| Line.HorizontalLine.UpdateAcceleration | VerletClothComponent/Source/VerletClothComponent/Classes/VerletClothComponent.h:81-124 | both rows end equal to UpdatedAcceleration of their old values |
| Line.HorizontalLine.FillGravity | VerletClothComponent/Source/VerletClothComponent/Classes/VerletClothComponent.h:84-85 | every acceleration becomes Gravity and nothing else changes |
| Line.HorizontalLine.AccumulateWind | VerletClothComponent/Source/VerletClothComponent/Classes/VerletClothComponent.h:87-101 | the wind loop leaves the accelerations equal to WindAccel towards the next row and changes nothing else |
| Line.HorizontalLine.AccumulateMirroredWind | VerletClothComponent/Source/VerletClothComponent/Classes/VerletClothComponent.h:108-122 | the terminal row's wind loop leaves its accelerations equal to the mirrored WindAccel and changes nothing else |
| Line.HorizontalLine.SolveConstraints | VerletClothComponent/Source/VerletClothComponent/Classes/VerletClothComponent.h:126-132 | the pair of rows ends equal to SolveSegment of their old values |
| Line.HorizontalLine.SolveHorizontalConstraint | VerletClothComponent/Source/VerletClothComponent/Classes/VerletClothComponent.h:134-143 | the row ends equal to SolveHorizontal(old row) |
| Line.HorizontalLine.SolveVerticalConstraint | VerletClothComponent/Source/VerletClothComponent/Classes/VerletClothComponent.h:145-149 | the pair ends equal to SolveVertical of their old values |
| Line.HorizontalLine.SolveDiagonalConstraint1 | VerletClothComponent/Source/VerletClothComponent/Classes/VerletClothComponent.h:152-156 | the pair ends equal to SolveDiagonal1 of their old values |
| Line.HorizontalLine.SolveDiagonalConstraint2 | VerletClothComponent/Source/VerletClothComponent/Classes/VerletClothComponent.h:159-163 | the pair ends equal to SolveDiagonal2 of their old values |
| GridSpec.SweepSegments | VerletClothComponent/Source/VerletClothComponent/Private/VerletClothComponent.cpp:547-552 | the sweep keeps the grid well formed and its row count |
| GridSpec.SolveIteration | VerletClothComponent/Source/VerletClothComponent/Private/VerletClothComponent.cpp:544-556 | one iteration keeps the grid well formed and its row count |
| GridSpec.SolveIterations | VerletClothComponent/Source/VerletClothComponent/Private/VerletClothComponent.cpp:544-556 | any number of iterations keeps the grid well formed and its row count |
| GridSpec.SweepStep | VerletClothComponent/Source/VerletClothComponent/Private/VerletClothComponent.cpp:547-552 | helper: unfolds SweepSegments behind a hide; segment s runs on the rows the earlier segments left, rows s and s + 1 being replaced by the pair's result |
| GridSpec.IterationStep | VerletClothComponent/Source/VerletClothComponent/Private/VerletClothComponent.cpp:544-556 | helper: unfolds SolveIterations behind a hide; each iteration is the full sweep followed by a horizontal pass on the terminal row |
| GridSpec.SweepKeepsAnchored | VerletClothComponent/Source/VerletClothComponent/Private/VerletClothComponent.cpp:547-552 | a sweep changes nothing but positions and leaves every anchored row as it was |
| GridSpec.IterationKeepsAnchored | VerletClothComponent/Source/VerletClothComponent/Private/VerletClothComponent.cpp:544-556 | an iteration changes nothing but positions and leaves every anchored row as it was |
| GridSpec.IterationsKeepAnchored | VerletClothComponent/Source/VerletClothComponent/Private/VerletClothComponent.cpp:544-556 | any number of iterations keeps row and point counts, changes nothing but positions and leaves every anchored row as it was |
| GridSpec.SolvedKeepsAnchoredRows | VerletClothComponent/Source/VerletClothComponent/Private/VerletClothComponent.cpp:537-557 | SolveConstraints keeps the row count, every row's point count, flag and saved positions, and every point of an anchored row |
| GridSpec.AllAnchoredIsStill | VerletClothComponent/Source/VerletClothComponent/Private/VerletClothComponent.cpp:544-556 | a grid without free rows is left exactly as it is by the solver |
| GridSpec.DiagonalLengthIsHypotenuse | VerletClothComponent/Source/VerletClothComponent/Private/VerletClothComponent.cpp:539-541 | the diagonal target is non-negative and its square is SegmentLength^2 + HorizontalLength^2 |
| GridSpec.IntegrateLines | VerletClothComponent/Source/VerletClothComponent/Private/VerletClothComponent.cpp:577-584 | the dispatch keeps the number of rows |
| GridSpec.IntegrateLinesDispatch | VerletClothComponent/Source/VerletClothComponent/Private/VerletClothComponent.cpp:577-584 | VerletIntegrate keeps the grid well formed and every row's flag; a free row is Verlet-stepped (its saved positions become its old positions), an anchored row is re-slaved by FixedProcess and changes only positions |
| GridSpec.MakePlaneThroughBase | VerletClothComponent/Source/VerletClothComponent/Private/VerletClothComponent.cpp:516-518 | the plane built from the origin and an axis passes through the origin |
| GridSpec.ClipPointOnPlane | VerletClothComponent/Source/VerletClothComponent/Private/VerletClothComponent.cpp:529-531 | a point on or in front of the plane is unchanged; with a unit normal a penetrating point lands exactly on the plane, no clipped point is behind it, and clipping is idempotent |
| GridSpec.ClipRow | VerletClothComponent/Source/VerletClothComponent/Private/VerletClothComponent.cpp:527-532 | clipping keeps the number of points |
| GridSpec.Collide | VerletClothComponent/Source/VerletClothComponent/Private/VerletClothComponent.cpp:521-534 | collision changes nothing but positions and keeps every count |
| GridSpec.Collided | VerletClothComponent/Source/VerletClothComponent/Private/VerletClothComponent.cpp:505-535 | ProcessCollision changes nothing but positions and keeps every count |
| GridSpec.CollideClips | VerletClothComponent/Source/VerletClothComponent/Private/VerletClothComponent.cpp:522-534 | an anchored row is untouched, a point with PlaneDot >= 0 is unchanged, a free row's point is clipped and (unit normal) ends with PlaneDot >= 0 |
| GridSpec.CollidedNone | VerletClothComponent/Source/VerletClothComponent/Private/VerletClothComponent.cpp:507-519 | helper: unfolds Collided behind a hide; with NONE nothing changes; otherwise the rows are collided against the plane of the configured axis |
| GridSpec.CollideIdempotent | VerletClothComponent/Source/VerletClothComponent/Private/VerletClothComponent.cpp:522-534 | with a unit normal, colliding twice is colliding once, and anchored rows are kept |
| GridSpec.InitialGridLayout | VerletClothComponent/Source/VerletClothComponent/Private/VerletClothComponent.cpp:390-421 | OnRegister's grid has NumSegments + 1 well-formed rows of max(1, NumSides) + 1 points; row i is free iff i >= the clamped FixedLineCount; point j sits at StartPosition + (i/NumSegments)*Delta + offset(j) with zero acceleration and the configured damping; a free row is at rest, an anchored row stores its relative position |
| GridSpec.NarrowRowCoincides | VerletClothComponent/Source/VerletClothComponent/Private/VerletClothComponent.cpp:409-421 | when 0 <= int32(ClothWidth) < max(1, NumSides), every initial row has all its points on one spot and a zero int32 spacing |
| GridSpec.NarrowClothCollapses | VerletClothComponent/Source/VerletClothComponent/Private/VerletClothComponent.cpp:409-421 | for such a cloth, each neighbouring pair of an initial row is at distance 0 with target 0: the error factor as written is NaN and is not caught, while the model's horizontal pass leaves the row as it is |
| GridSpec.InitialGridEnds | VerletClothComponent/Source/VerletClothComponent/Private/VerletClothComponent.cpp:414-416 | the first row hangs at StartPosition (zero relative offset) and the terminal row one full drop Delta below it |
| GridSpec.InitialAnchoredRowsAtRest | VerletClothComponent/Source/VerletClothComponent/Private/VerletClothComponent.cpp:417-420 | in world space, an anchored initial row is exactly where FixedProcess re-slaves it while the component has not moved |
| GridSpec.TickStep | VerletClothComponent/Source/VerletClothComponent/Private/VerletClothComponent.cpp:433 | the step is at most DeltaTime and at most TimeDilation / 60, and equals one of them |
| GridSpec.TimeLeftStep | VerletClothComponent/Source/VerletClothComponent/Private/VerletClothComponent.cpp:434-443 | helper: unfolds TimeLeft behind a hide; the remaining time starts at DeltaTime and drops by one step per pass |
| GridSpec.ZeroStepNeverExits | VerletClothComponent/Source/VerletClothComponent/Private/VerletClothComponent.cpp:433-444 | as written, a non-positive step keeps the loop guard true after any number of passes |
| GridSpec.SubstepRemainder | VerletClothComponent/Source/VerletClothComponent/Private/VerletClothComponent.cpp:438-444 | with 0 < step <= DeltaTime, floor(DeltaTime/step) >= 1 passes leave a remainder in [0, step) |
| GridSpec.SubstepGuard | VerletClothComponent/Source/VerletClothComponent/Private/VerletClothComponent.cpp:438-443 | with a positive step, the remaining time is at least one step exactly when fewer than floor(DeltaTime/step) passes have run |
| GridSpec.Substep | VerletClothComponent/Source/VerletClothComponent/Private/VerletClothComponent.cpp:440-442 | one substep keeps the grid well formed and its row count |
| GridSpec.Substeps | VerletClothComponent/Source/VerletClothComponent/Private/VerletClothComponent.cpp:438-444 | any number of substeps keeps the grid well formed and its row count |
| GridSpec.SubstepAnchoredRows | VerletClothComponent/Source/VerletClothComponent/Private/VerletClothComponent.cpp:440-442 | after a substep an anchored row is exactly what FixedProcess made of it: neither the solver nor collision moves it |
| GridSpec.AnchoredRowsStayPut | VerletClothComponent/Source/VerletClothComponent/Private/VerletClothComponent.cpp:437-444 | in world space, an anchored row at its layout stays exactly there through any number of substeps while the component does not move |
| Component.VerletClothComponent.constructor | VerletClothComponent/Source/VerletClothComponent/Private/VerletClothComponent.cpp:356-376 | the default settings: length and width 100, no damping, 10 segments and iterations, 1 side, 1 fixed row, gravity (0, 0, -980), X axis, no collision, world space |
| GridSpec.ComponentAxesOrthonormal | VerletClothComponent/Source/VerletClothComponent/Private/VerletClothComponent.cpp:382-388 | the forward, right and up axes the SideAxis switch chooses from are unit vectors and pairwise orthogonal |
| GridSpec.SideAxisUnit | VerletClothComponent/Source/VerletClothComponent/Private/VerletClothComponent.cpp:382-388 | in component space the side axis vector is the chosen axis itself and has unit length |
| GridSpec.InitialRowSpacing | VerletClothComponent/Source/VerletClothComponent/Private/VerletClothComponent.cpp:382-421 | in component space neighbouring points of every initial row are exactly the int32 spacing CDiv(width, max(1, NumSides)) apart, so the squared gap is the square of that pair's horizontal target |
| Component.VerletClothComponent.ComputeSideAxisVector | VerletClothComponent/Source/VerletClothComponent/Private/VerletClothComponent.cpp:382-388 | the switch yields GridSpec.SideAxisVector of the settings, and in component space that vector has unit length |
| Component.VerletClothComponent.OnRegister | VerletClothComponent/Source/VerletClothComponent/Private/VerletClothComponent.cpp:378-426 | FixedLineCount is clamped to the row count, the rows are new, distinct and exactly InitialGrid of the settings, and OldComponentLocation is the component location |
| Component.VerletClothComponent.ZeroedLines | VerletClothComponent/Source/VerletClothComponent/Private/VerletClothComponent.cpp:392-393 | AddZeroed(n) yields n new, distinct, all-zero rows |
| Component.VerletClothComponent.SetFreeFlags | VerletClothComponent/Source/VerletClothComponent/Private/VerletClothComponent.cpp:395-402 | row i becomes free exactly when i >= FixedLineCount, and nothing else changes |
| Component.VerletClothComponent.LayOutLines | VerletClothComponent/Source/VerletClothComponent/Private/VerletClothComponent.cpp:409-421 | the layout loop leaves the rows equal to InitialGrid |
| Component.VerletClothComponent.LayOutLine | VerletClothComponent/Source/VerletClothComponent/Private/VerletClothComponent.cpp:411-420 | one row ends equal to InitialLine for its index |
| Component.VerletClothComponent.TickComponent | VerletClothComponent/Source/VerletClothComponent/Private/VerletClothComponent.cpp:428-452 | the rows end as SubstepCount(DeltaTime, step) substeps of the old rows, settings and row objects unchanged, and OldComponentLocation is the current location when at least one substep ran |
| Component.VerletClothComponent.RunSubstep | VerletClothComponent/Source/VerletClothComponent/Private/VerletClothComponent.cpp:440-442 | one pass of the loop body leaves the rows equal to Substep of the old rows |
| Component.VerletClothComponent.SolveConstraints | VerletClothComponent/Source/VerletClothComponent/Private/VerletClothComponent.cpp:537-557 | the rows end equal to Solved(old rows, settings) |
| Component.VerletClothComponent.RunSolverIterations | VerletClothComponent/Source/VerletClothComponent/Private/VerletClothComponent.cpp:544-556 | the iteration loop leaves the rows equal to SolveIterations(old rows, SolverIterations) |
| Component.VerletClothComponent.SolveIterationRows | VerletClothComponent/Source/VerletClothComponent/Private/VerletClothComponent.cpp:547-555 | one iteration leaves the rows equal to SolveIteration(old rows) |
| Component.VerletClothComponent.SweepRows | VerletClothComponent/Source/VerletClothComponent/Private/VerletClothComponent.cpp:547-552 | the segment loop leaves the rows equal to SweepSegments(old rows, NumSegments) |
| Component.VerletClothComponent.SolveSegmentRows | VerletClothComponent/Source/VerletClothComponent/Private/VerletClothComponent.cpp:549-551 | rows s and s + 1 become the SolveSegment result, every other row unchanged |
| Component.VerletClothComponent.SolveLastRow | VerletClothComponent/Source/VerletClothComponent/Private/VerletClothComponent.cpp:555 | the terminal row gets its horizontal pass, every other row unchanged |
| Component.VerletClothComponent.ProcessCollision | VerletClothComponent/Source/VerletClothComponent/Private/VerletClothComponent.cpp:505-535 | the rows end equal to Collided(old rows, settings, transform) |
| Component.VerletClothComponent.CollideRows | VerletClothComponent/Source/VerletClothComponent/Private/VerletClothComponent.cpp:521-534 | the row loop leaves the rows equal to Collide(old rows, plane) |
| Component.VerletClothComponent.ClipLine | VerletClothComponent/Source/VerletClothComponent/Private/VerletClothComponent.cpp:527-532 | the point loop clips every point of the row and changes nothing else |
| Component.VerletClothComponent.VerletIntegrate | VerletClothComponent/Source/VerletClothComponent/Private/VerletClothComponent.cpp:559-585 | the rows end equal to IntegrateLines with the centre, side axis and InTime^2, and OldComponentLocation becomes the current location |
| Component.VerletClothComponent.IntegrateRows | VerletClothComponent/Source/VerletClothComponent/Private/VerletClothComponent.cpp:577-584 | the row loop leaves the rows equal to IntegrateLines(old rows, ...) |
| ClothMesh.RatioInUnit | VerletClothComponent/Source/VerletClothComponent/Private/VerletClothComponent.cpp:186 | a UV fraction i/n with 0 <= i <= n and n != 0 is finite and in [0, 1] |
| ClothMesh.VerticesUpToLength | VerletClothComponent/Source/VerletClothComponent/Private/VerletClothComponent.cpp:163-194 | over rows of equal width the vertex loop emits rows * width vertices |
| ClothMesh.VerticesUpToAt | VerletClothComponent/Source/VerletClothComponent/Private/VerletClothComponent.cpp:163-194 | over rows of equal width, point p of row l is vertex l * width + p, with that point's position and UVs |
| ClothMesh.VerticesUpToUnit | VerletClothComponent/Source/VerletClothComponent/Private/VerletClothComponent.cpp:165-186 | with at least two rows of at least two points, no 0/0 occurs and every UV is in [0, 1] |
| ClothMesh.SceneProxy.CountsFitInt32 | VerletClothComponent/Source/VerletClothComponent/Private/VerletClothComponent.cpp:142-150 | the vertex count (NumSegments+1)(NumSides+1) never exceeds the index count NumSegments·NumSides·6, and at the largest side count, 16, the index count fits in an int32 exactly when NumSegments <= 22,369,621 |
| ClothMesh.SceneProxy.VertIndexDecodes | VerletClothComponent/Source/VerletClothComponent/Private/VerletClothComponent.cpp:142-155 | GetVertIndex(l, p) is below GetRequiredVertexCount(), and division and remainder by NumSides + 1 recover l and p |
| ClothMesh.SceneProxy.VertIndexOnto | VerletClothComponent/Source/VerletClothComponent/Private/VerletClothComponent.cpp:142-155 | every vertex number below GetRequiredVertexCount() is GetVertIndex of an in-range row and point |
| ClothMesh.SceneProxy.VertIndexInjective | VerletClothComponent/Source/VerletClothComponent/Private/VerletClothComponent.cpp:152-155 | distinct in-range (row, point) pairs get distinct vertex numbers |
| ClothMesh.SceneProxy.RowIndicesLength | VerletClothComponent/Source/VerletClothComponent/Private/VerletClothComponent.cpp:200-212 | the side loop emits six indices per quad |
| ClothMesh.SceneProxy.GridIndicesLength | VerletClothComponent/Source/VerletClothComponent/Private/VerletClothComponent.cpp:197-213 | the triangle loops emit 6 * segments * sides indices |
| ClothMesh.SceneProxy.RowIndicesAt | VerletClothComponent/Source/VerletClothComponent/Private/VerletClothComponent.cpp:200-212 | quad SideIdx of a segment occupies its entries 6*SideIdx .. 6*SideIdx + 5 |
| ClothMesh.SceneProxy.GridIndicesAt | VerletClothComponent/Source/VerletClothComponent/Private/VerletClothComponent.cpp:197-213 | quad (SegIdx, SideIdx) occupies the six entries from 6*(SegIdx*NumSides + SideIdx), in the order TL, BL, TR, TR, BL, BR |
| ClothMesh.SceneProxy.QuadIndicesBounded | VerletClothComponent/Source/VerletClothComponent/Private/VerletClothComponent.cpp:202-212 | the corners of a quad in the first `count` segments name vertices below (count + 1) * (NumSides + 1) |
| ClothMesh.SceneProxy.RowIndicesBounded | VerletClothComponent/Source/VerletClothComponent/Private/VerletClothComponent.cpp:200-212 | every index of a segment's quads is below (count + 1) * (NumSides + 1) |
| ClothMesh.SceneProxy.GridIndicesBounded | VerletClothComponent/Source/VerletClothComponent/Private/VerletClothComponent.cpp:197-213 | every index emitted for `count` segments is below (bound + 1) * (NumSides + 1) for any bound >= count |
| ClothMesh.SceneProxy.VertIndexNamesPoint | VerletClothComponent/Source/VerletClothComponent/Private/VerletClothComponent.cpp:152-194 | on the rows the component hands over, vertex GetVertIndex(l, p) is point p of row l |
| ClothMesh.SceneProxy.MeshMatchesAllocation | VerletClothComponent/Source/VerletClothComponent/Private/VerletClothComponent.cpp:234-237 | on the rows the component hands over, the lists have GetRequiredVertexCount() and GetRequiredIndexCount() entries, every index names an existing vertex, and every UV is in [0, 1] |
| ClothMesh.DynamicPoints | VerletClothComponent/Source/VerletClothComponent/Private/VerletClothComponent.cpp:462-473 | the copy handed to the proxy has one list per row and one point per position |
| ClothMesh.InitialGridFitsProxy | VerletClothComponent/Source/VerletClothComponent/Private/VerletClothComponent.cpp:390-421 | the points of the grid OnRegister builds, copied for the proxy with the same NumSegments and NumSides >= 1, match its allocation: GetRequiredVertexCount() vertices, GetRequiredIndexCount() indices, each naming a vertex |
| ClothMesh.SceneProxy.BuildClothMesh | VerletClothComponent/Source/VerletClothComponent/Private/VerletClothComponent.cpp:157-215 | the vertex list is MeshVertices(InLines), the index list MeshIndices(NumLines - 1), and on the rows the component hands over both have the allocated sizes with every index in range |
| ClothMesh.SceneProxy.BuildVertices | VerletClothComponent/Source/VerletClothComponent/Private/VerletClothComponent.cpp:163-194 | the nested vertex loop emits MeshVertices(InLines) |
| ClothMesh.SceneProxy.BuildTriangles | VerletClothComponent/Source/VerletClothComponent/Private/VerletClothComponent.cpp:197-213 | the nested triangle loop emits MeshIndices(SegmentCount) |

## Left out

- Rendering and engine plumbing are not modelled: vertex and index buffers, the vertex factory, the buffer lock/copy in `SetDynamicData_RenderThread`, `GetDynamicMeshElements` and its wireframe lines, `GetViewRelevance`, materials, `CreateSceneProxy`, and the render command that `SendRenderDynamicData_Concurrent` enqueues. The point copy it makes is modelled as `DynamicPoints`. `BuildClothMesh` takes the point rows it is handed as input.
- `CalcBounds` is not modelled: it goes through `FBox` and engine transforms.
- Vertex tangents and normals in `BuildClothMesh` are not modelled. They need `GetSafeNormal` of neighbour differences. The vertex colour, a constant white, is also omitted. `MeshVertex` holds the position and the two UV fractions.
- Floating point is not modelled: all arithmetic is exact over reals.
  - `Size()` and the square root are a supplied `size` function with `IsSize`.
  - `GetSafeNormal` is a supplied function.
  - The 0/0 of a UV fraction is modelled as `NotANumber`. The model does not follow NaN or infinity any further.
- int32 overflow of the counts and vertex numbers is not modelled. NumSides is clamped to [1, 16], but NumSegments has only a lower clamp of 1 (its slider stops at 50). `CountsFitInt32` proves that at 16 sides the index count overflows int32 only beyond 22,369,621 segments, far past any grid whose rows could be allocated, and that the vertex count never exceeds the index count.
- The engine calls are parameters: `ComponentToWorld` (a `Transform` value), `GetComponentLocation`, the world settings' time dilation, and `DeltaTime`. So are the engine effects of `Super::OnRegister`, `SetTickGroup`, `MarkRenderDynamicDataDirty`, `UpdateComponentToWorld`, the tick flags and `SetCollisionProfileName`. The model leaves those effects out.
- The component-level `UpdateAcceleration` is declared in the header but has no definition, so there is nothing to model. The properties `bUseLocalGravity` and `Wind` are never read by the component code.
- Several loop bodies and inner loops of `OnRegister`, `TickComponent`, the component's `SolveConstraints`, `ProcessCollision` and `VerletIntegrate` are separate helper methods. These are `ZeroedLines`, `SetFreeFlags`, `LayOutLines`, `LayOutLine`, `RunSubstep`, `RunSolverIterations`, `SolveIterationRows`, `SweepRows`, `SolveSegmentRows`, `SolveLastRow`, `CollideRows`, `ClipLine` and `IntegrateRows`. They run the same statements in the same order on the same objects. The same holds for `BuildVertices` and `BuildTriangles` in `BuildClothMesh`, and for `FillGravity`, `AccumulateWind` and `AccumulateMirroredWind` in the row's `UpdateAcceleration`.
- `BuildClothMesh` appends to its out-arrays. Its only caller passes empty arrays, so the model returns the two lists instead.
- The UPROPERTY clamps are preconditions where the code needs them: `NumSegments >= 1` and `NumSides != 0`. The other clamps are not needed for any proof.
- `SolveHorizontal` requires that a free row does not have exactly one point. With one point, `HorizontalWidth / 0` is an int32 division by zero. Rows built by `SetHorizontal` always have at least two points.
- `SolvePositionConstraint`: at distance 0 with a target <= 0 the model keeps the pair, whereas the float code writes NaN into its free ends (see Findings). It does not follow NaN any further.
- `SweepSegments`: its own ensures states only that the grid stays well formed and keeps its length. `SweepStep` and `SweepKeepsAnchored` state its content.
- `SolveIteration`: its own ensures states only that the grid stays well formed and keeps its length. `IterationStep` and `IterationKeepsAnchored` state its content.
- `SolveIterations`: its own ensures states only that the grid stays well formed and keeps its length. `IterationsKeepAnchored` and `AllAnchoredIsStill` state its content.
- `TickComponent`: the corrected loop also stops when the step is not positive. As written, the loop never ends in that case (see Findings).

## Findings

| source | as written | input that shows it | evidently intended | confidence | as-written member | corrected member |
|---|---|---|---|---|---|---|
| VerletClothComponent/Source/VerletClothComponent/Classes/VerletClothComponent.h:165-188 | the constraint's only early return is the test error factor <= 0; the error factor (distance - target) / distance is 0 / 0, which is NaN, when a pair sits on one spot and its target is 0, and NaN <= 0 is false, so NaN is written into every free end of the pair | ClothWidth = 10 with NumSides = 16 (any 0 <= ClothWidth < NumSides): the int32 spacing 10 / 16 is 0, so OnRegister lays every row out on one spot and the horizontal target is 0; ClothLength = 0 does the same in the vertical pass | a pair that already coincides is left where it is, as happens for any positive target | not executed | GridSpec.NarrowClothCollapses | LineSpec.SolvePositionConstraint |
| VerletClothComponent/Source/VerletClothComponent/Private/VerletClothComponent.cpp:433-444 | the substep loop's only guard is that the remaining time is at least the step; subtracting a step of 0 (or a negative step) never makes it false | DeltaTime = 0 (a paused or first frame), or a time dilation <= 0: the step min(DeltaTime, TimeDilation/60) is <= 0 and the tick never returns | run floor(DeltaTime/step) substeps for a positive step and none otherwise, ending with 0 <= remaining < step | not executed | GridSpec.ZeroStepNeverExits | Component.VerletClothComponent.TickComponent |
