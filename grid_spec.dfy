/**
 * Value model of the component's grid of rows (UVerletClothComponent): the
 * ordered constraint sweep, the per-row integration dispatch, planar collision,
 * the grid OnRegister builds, and the fixed-substep tick. The component class in
 * component.dfy is proved to change its rows exactly as these functions say.
 */
module GridSpec {
  import opened Vectors
  import opened LineSpec

  /** The component's editable settings. */
  datatype Config = Config(
    ClothLength: real,
    ClothWidth: real,
    Damping: real,
    NumSegments: int,
    SolverIterations: int,
    NumSides: int,
    FixedLineCount: int,
    Gravity: Vec3,
    SideAxis: ESideAxis,
    CollisionPlane: ECollisionPlane,
    ProcessWorldSpace: bool)

  /**
   * What the component reads from the engine: its world location, the axes of
   * its rotation, and ComponentToWorld's TransformVector / InverseTransformVector.
   */
  datatype Transform = Transform(
    Location: Vec3,
    AxisX: Vec3,
    AxisY: Vec3,
    AxisZ: Vec3,
    TransformVector: Vec3 -> Vec3,
    InverseTransformVector: Vec3 -> Vec3)

  const ForwardVector: Vec3 := Vec3(1.0, 0.0, 0.0)
  const RightVector: Vec3 := Vec3(0.0, 1.0, 0.0)
  const UpVector: Vec3 := Vec3(0.0, 0.0, 1.0)

  /** The grid invariant: at least one row, every row aligned, all rows with the same number (at least 2) of points. */
  predicate WellFormed(lines: seq<LineState>) {
    && 0 < |lines|
    && 2 <= |lines[0].Positions|
    && forall i :: 0 <= i < |lines| ==> Aligned(lines[i]) && |lines[i].Positions| == |lines[0].Positions|
  }

  /** Row by row, `r` differs from `lines` at most in the positions. */
  predicate PositionsOnly(lines: seq<LineState>, r: seq<LineState>) {
    |r| == |lines| && forall i :: 0 <= i < |lines| ==> OnlyPositions(lines[i], r[i])
  }

  /** Every anchored row of `lines` is the same row in `r`. */
  predicate AnchoredKept(lines: seq<LineState>, r: seq<LineState>) {
    |r| == |lines| && forall i :: 0 <= i < |lines| && !lines[i].Free ==> r[i] == lines[i]
  }

  lemma PositionsOnlyWellFormed(lines: seq<LineState>, r: seq<LineState>)
    requires WellFormed(lines) && PositionsOnly(lines, r)
    ensures WellFormed(r)
  {
    assert OnlyPositions(lines[0], r[0]);
  }

  /** Replacing one row by a row that differs only in positions keeps the grid well formed. */
  lemma WellFormedUpdate(lines: seq<LineState>, i: int, row: LineState)
    requires WellFormed(lines) && 0 <= i < |lines| && OnlyPositions(lines[i], row)
    ensures WellFormed(lines[i := row])
  {
    assert OnlyPositions(lines[0], lines[i := row][0]);
  }

  // ---------------------------------------------------------------------------
  // SolveConstraints

  /** The grid after the first `s` segments of one sweep: segment j runs the row SolveConstraints of row j against row j + 1. */
  function SweepSegments(lines: seq<LineState>, segmentLength: real, diagonalLength: real,
                         size: Vec3 -> real, s: nat): (r: seq<LineState>)
    requires IsSize(size) && WellFormed(lines) && s < |lines|
    ensures WellFormed(r) && |r| == |lines|
    decreases s
  {
    hide SolveSegment;
    if s == 0 then lines
    else
      var q := SweepSegments(lines, segmentLength, diagonalLength, size, s - 1);
      var p := SolveSegment(q[s - 1], q[s], segmentLength, diagonalLength, size);
      WellFormedUpdate(q, s - 1, p.0);
      WellFormedUpdate(q[s - 1 := p.0], s, p.1);
      q[s - 1 := p.0][s := p.1]
  }

  /** One solver iteration: the sweep over every segment, then a horizontal pass on the terminal row. */
  function SolveIteration(lines: seq<LineState>, segmentLength: real, diagonalLength: real,
                          size: Vec3 -> real): (r: seq<LineState>)
    requires IsSize(size) && WellFormed(lines)
    ensures WellFormed(r) && |r| == |lines|
  {
    var q := SweepSegments(lines, segmentLength, diagonalLength, size, |lines| - 1);
    var last := |q| - 1;
    WellFormedUpdate(q, last, SolveHorizontal(q[last], size));
    q[last := SolveHorizontal(q[last], size)]
  }

  /** The grid after `k` solver iterations; a non-positive count runs none. */
  function SolveIterations(lines: seq<LineState>, k: int, segmentLength: real, diagonalLength: real,
                           size: Vec3 -> real): (r: seq<LineState>)
    requires IsSize(size) && WellFormed(lines)
    ensures WellFormed(r) && |r| == |lines|
    decreases k
  {
    if k <= 0 then lines
    else SolveIteration(SolveIterations(lines, k - 1, segmentLength, diagonalLength, size), segmentLength, diagonalLength, size)
  }

  /** A sweep over no segment leaves the rows as they are. */
  lemma SweepNone(lines: seq<LineState>, segmentLength: real, diagonalLength: real, size: Vec3 -> real)
    requires IsSize(size) && WellFormed(lines)
    ensures SweepSegments(lines, segmentLength, diagonalLength, size, 0) == lines
  {
  }

  /** A sweep over one more segment solves that segment on the rows the shorter sweep left. */
  lemma SweepStep(lines: seq<LineState>, segmentLength: real, diagonalLength: real, size: Vec3 -> real, s: nat)
    requires IsSize(size) && WellFormed(lines) && s + 1 < |lines|
    ensures var q := SweepSegments(lines, segmentLength, diagonalLength, size, s);
      var p := SolveSegment(q[s], q[s + 1], segmentLength, diagonalLength, size);
      SweepSegments(lines, segmentLength, diagonalLength, size, s + 1) == q[s := p.0][s + 1 := p.1]
  {
  }

  /** Iteration k + 1 is the full sweep over the rows iteration k left, then the terminal row's horizontal pass. */
  lemma IterationStep(lines: seq<LineState>, k: nat, segmentLength: real, diagonalLength: real, size: Vec3 -> real)
    requires IsSize(size) && WellFormed(lines)
    ensures var q := SweepSegments(SolveIterations(lines, k, segmentLength, diagonalLength, size),
                                   segmentLength, diagonalLength, size, |lines| - 1);
      SolveIterations(lines, k + 1, segmentLength, diagonalLength, size)
      == q[|lines| - 1 := SolveHorizontal(q[|lines| - 1], size)]
  {
    hide SolveSegment, SolveHorizontal;
  }

  /** A sweep changes nothing but positions and leaves every anchored row as it was. */
  lemma {:induction false} SweepKeepsAnchored(lines: seq<LineState>, segmentLength: real, diagonalLength: real,
                                              size: Vec3 -> real, s: nat)
    requires IsSize(size) && WellFormed(lines) && s < |lines|
    ensures var r := SweepSegments(lines, segmentLength, diagonalLength, size, s);
      PositionsOnly(lines, r) && AnchoredKept(lines, r)
    decreases s
  {
    hide SolveSegment;
    if s > 0 {
      SweepKeepsAnchored(lines, segmentLength, diagonalLength, size, s - 1);
      var q := SweepSegments(lines, segmentLength, diagonalLength, size, s - 1);
      var p := SolveSegment(q[s - 1], q[s], segmentLength, diagonalLength, size);
      TwoRowsUpdateKeeps(lines, q, s, p.0, p.1);
    }
  }

  /** Replacing rows s - 1 and s by rows that differ only in positions, anchored rows unchanged, keeps both relations. */
  lemma TwoRowsUpdateKeeps(lines: seq<LineState>, q: seq<LineState>, s: int, a: LineState, b: LineState)
    requires PositionsOnly(lines, q) && AnchoredKept(lines, q) && 1 <= s < |q|
    requires OnlyPositions(q[s - 1], a) && (!q[s - 1].Free ==> a == q[s - 1])
    requires OnlyPositions(q[s], b) && (!q[s].Free ==> b == q[s])
    ensures PositionsOnly(lines, q[s - 1 := a][s := b]) && AnchoredKept(lines, q[s - 1 := a][s := b])
  {
    var r := q[s - 1 := a][s := b];
    forall i | 0 <= i < |lines|
      ensures OnlyPositions(lines[i], r[i]) && (!lines[i].Free ==> r[i] == lines[i])
    {
      assert OnlyPositions(lines[i], q[i]);
    }
  }

  /** An iteration changes nothing but positions and leaves every anchored row as it was. */
  lemma IterationKeepsAnchored(lines: seq<LineState>, segmentLength: real, diagonalLength: real, size: Vec3 -> real)
    requires IsSize(size) && WellFormed(lines)
    ensures var r := SolveIteration(lines, segmentLength, diagonalLength, size);
      PositionsOnly(lines, r) && AnchoredKept(lines, r)
  {
    hide SolveSegment, SolveHorizontal;
    SweepKeepsAnchored(lines, segmentLength, diagonalLength, size, |lines| - 1);
    var q := SweepSegments(lines, segmentLength, diagonalLength, size, |lines| - 1);
    var last := |q| - 1;
    OneRowUpdateKeeps(lines, q, last, SolveHorizontal(q[last], size));
  }

  /** Replacing row i by a row that differs only in positions, an anchored row unchanged, keeps both relations. */
  lemma OneRowUpdateKeeps(lines: seq<LineState>, q: seq<LineState>, i: int, a: LineState)
    requires PositionsOnly(lines, q) && AnchoredKept(lines, q) && 0 <= i < |q|
    requires OnlyPositions(q[i], a) && (!q[i].Free ==> a == q[i])
    ensures PositionsOnly(lines, q[i := a]) && AnchoredKept(lines, q[i := a])
  {
    assert OnlyPositions(lines[i], q[i]);
  }

  /**
   * Any number of solver iterations keeps the row count and every row's point
   * count, changes nothing but positions, and never changes an anchored row.
   */
  lemma {:induction false} IterationsKeepAnchored(lines: seq<LineState>, k: int, segmentLength: real,
                                                  diagonalLength: real, size: Vec3 -> real)
    requires IsSize(size) && WellFormed(lines)
    ensures var r := SolveIterations(lines, k, segmentLength, diagonalLength, size);
      PositionsOnly(lines, r) && AnchoredKept(lines, r)
    decreases k
  {
    hide SolveIteration;
    if k > 0 {
      var q := SolveIterations(lines, k - 1, segmentLength, diagonalLength, size);
      IterationsKeepAnchored(lines, k - 1, segmentLength, diagonalLength, size);
      IterationKeepsAnchored(q, segmentLength, diagonalLength, size);
      KeptTransitive(lines, q, SolveIteration(q, segmentLength, diagonalLength, size));
    }
  }

  /** Both relations compose. */
  lemma KeptTransitive(a: seq<LineState>, b: seq<LineState>, c: seq<LineState>)
    requires PositionsOnly(a, b) && AnchoredKept(a, b) && PositionsOnly(b, c) && AnchoredKept(b, c)
    ensures PositionsOnly(a, c) && AnchoredKept(a, c)
  {
    forall i | 0 <= i < |a| ensures OnlyPositions(a[i], c[i]) && (!a[i].Free ==> c[i] == a[i]) {
      assert OnlyPositions(a[i], b[i]) && OnlyPositions(b[i], c[i]);
    }
  }

  /** SegmentLength = ClothLength / NumSegments, the vertical target. */
  function SegmentLength(c: Config): real
    requires c.NumSegments != 0
  {
    c.ClothLength / c.NumSegments as real
  }

  /** HorizontalLength = ClothWidth / NumSides, the float spacing used only for the diagonal target. */
  function HorizontalLength(c: Config): real
    requires c.NumSides != 0
  {
    c.ClothWidth / c.NumSides as real
  }

  /** The diagonal target: the length of (SegmentLength, HorizontalLength), `size` standing for the square root. */
  function DiagonalLength(c: Config, size: Vec3 -> real): real
    requires IsSize(size) && c.NumSegments != 0 && c.NumSides != 0
  {
    size(Vec3(SegmentLength(c), HorizontalLength(c), 0.0))
  }

  /** The diagonal target is the hypotenuse over the vertical and the horizontal spacing. */
  lemma DiagonalLengthIsHypotenuse(c: Config, size: Vec3 -> real)
    requires IsSize(size) && c.NumSegments != 0 && c.NumSides != 0
    ensures var r := DiagonalLength(c, size);
      0.0 <= r && r * r == SegmentLength(c) * SegmentLength(c) + HorizontalLength(c) * HorizontalLength(c)
  {
    SizeOf(size, Vec3(SegmentLength(c), HorizontalLength(c), 0.0));
  }

  /** The component's SolveConstraints: SolverIterations iterations with the configured targets. */
  function Solved(lines: seq<LineState>, c: Config, size: Vec3 -> real): (r: seq<LineState>)
    requires IsSize(size) && WellFormed(lines) && c.NumSegments != 0 && c.NumSides != 0
  {
    SolveIterations(lines, c.SolverIterations, SegmentLength(c), DiagonalLength(c, size), size)
  }

  /**
   * SolveConstraints keeps the number of rows and of points in each, changes
   * nothing but positions, and never changes an anchored row.
   */
  lemma SolvedKeepsAnchoredRows(lines: seq<LineState>, c: Config, size: Vec3 -> real, i: int, j: int)
    requires IsSize(size) && WellFormed(lines) && c.NumSegments != 0 && c.NumSides != 0
    requires 0 <= i < |lines| && 0 <= j < |lines[i].Positions|
    ensures var r := Solved(lines, c, size);
      && |r| == |lines| && |r[i].Positions| == |lines[i].Positions|
      && r[i].Free == lines[i].Free && r[i].SavedPositions == lines[i].SavedPositions
      && (!lines[i].Free ==> r[i].Positions[j] == lines[i].Positions[j])
  {
    var r := Solved(lines, c, size);
    IterationsKeepAnchored(lines, c.SolverIterations, SegmentLength(c), DiagonalLength(c, size), size);
    assert OnlyPositions(lines[i], r[i]);
  }

  /** A grid with no free row is left exactly as it is by the solver. */
  lemma {:induction false} AllAnchoredIsStill(lines: seq<LineState>, k: int, segmentLength: real,
                                              diagonalLength: real, size: Vec3 -> real)
    requires IsSize(size) && WellFormed(lines)
    requires forall i :: 0 <= i < |lines| ==> !lines[i].Free
    ensures SolveIterations(lines, k, segmentLength, diagonalLength, size) == lines
  {
    var r := SolveIterations(lines, k, segmentLength, diagonalLength, size);
    IterationsKeepAnchored(lines, k, segmentLength, diagonalLength, size);
    forall i | 0 <= i < |lines| ensures r[i] == lines[i] {
      assert !lines[i].Free;
    }
  }

  // ---------------------------------------------------------------------------
  // VerletIntegrate

  /** The component-space axis the SideAxis setting names. */
  function ComponentAxis(a: ESideAxis): Vec3 {
    match a
    case X => ForwardVector
    case Y => RightVector
    case Z => UpVector
  }

  /** The side axis vector: a unit axis of component space, carried into world space when simulating there. */
  function SideAxisVector(c: Config, t: Transform): Vec3 {
    var axis := ComponentAxis(c.SideAxis);
    if c.ProcessWorldSpace then t.TransformVector(axis) else axis
  }

  /**
   * The three axes a SideAxis setting can name form an orthonormal basis: each
   * is a unit vector and distinct ones are orthogonal.
   */
  lemma ComponentAxesOrthonormal(a: ESideAxis, b: ESideAxis)
    ensures Dot(ComponentAxis(a), ComponentAxis(b)) == if a == b then 1.0 else 0.0
  {
    match a
    case X =>
    case Y =>
    case Z =>
  }

  /** In component space the side axis is a unit vector. */
  lemma SideAxisUnit(c: Config, t: Transform)
    requires !c.ProcessWorldSpace
    ensures SideAxisVector(c, t) == ComponentAxis(c.SideAxis)
    ensures LengthSquared(SideAxisVector(c, t)) == 1.0
  {
    ComponentAxesOrthonormal(c.SideAxis, c.SideAxis);
  }

  /**
   * The centre an anchored row is re-slaved to: the component location in world
   * space, otherwise the location change since the previous step in component space.
   */
  function CenterLocation(c: Config, t: Transform, oldLocation: Vec3): Vec3 {
    if c.ProcessWorldSpace then t.Location else t.InverseTransformVector(Sub(t.Location, oldLocation))
  }

  /** Per-row dispatch: a free row takes a Verlet step, an anchored row is re-slaved. */
  function IntegrateLines(lines: seq<LineState>, center: Vec3, sideVector: Vec3, timeSqr: real): (r: seq<LineState>)
    requires forall i :: 0 <= i < |lines| ==> Aligned(lines[i])
    ensures |r| == |lines|
  {
    seq(|lines|, i requires 0 <= i < |lines| =>
      if lines[i].Free then Verlet(lines[i], timeSqr) else Fixed(lines[i], center, sideVector))
  }

  /**
   * VerletIntegrate keeps the grid's shape and every row's kind; a free row's saved
   * positions become its previous positions, an anchored row keeps its offsets and
   * is placed by FixedProcess alone.
   */
  lemma IntegrateLinesDispatch(lines: seq<LineState>, center: Vec3, sideVector: Vec3, timeSqr: real, i: int)
    requires WellFormed(lines) && 0 <= i < |lines|
    ensures var r := IntegrateLines(lines, center, sideVector, timeSqr);
      && WellFormed(r)
      && r[i].Free == lines[i].Free
      && (lines[i].Free ==> r[i] == Verlet(lines[i], timeSqr) && r[i].SavedPositions == lines[i].Positions)
      && (!lines[i].Free ==> r[i] == Fixed(lines[i], center, sideVector) && OnlyPositions(lines[i], r[i]))
  {
    var r := IntegrateLines(lines, center, sideVector, timeSqr);
    forall k | 0 <= k < |lines| ensures Aligned(r[k]) && |r[k].Positions| == |lines[k].Positions| {
    }
  }

  // ---------------------------------------------------------------------------
  // ProcessCollision

  /** FPlane: a normal and the offset W, so that PlaneDot(p) = Normal . p - W. */
  datatype Plane = Plane(Normal: Vec3, W: real)

  /** FPlane(InBase, InNormal): the plane with normal InNormal and offset InBase . InNormal. */
  function MakePlane(base: Vec3, normal: Vec3): Plane {
    Plane(normal, Dot(base, normal))
  }

  /** The plane MakePlane builds passes through its base point. */
  lemma MakePlaneThroughBase(base: Vec3, normal: Vec3)
    ensures PlaneDot(MakePlane(base, normal), base) == 0.0
  {
    assert Dot(normal, base) == Dot(base, normal);
  }

  function PlaneDot(plane: Plane, p: Vec3): real {
    Dot(plane.Normal, p) - plane.W
  }

  /** A point behind the plane is pushed back along the normal by its (negative) distance. */
  function ClipPoint(plane: Plane, p: Vec3): Vec3 {
    var distance := PlaneDot(plane, p);
    if distance < 0.0 then Add(p, Scale(-distance, plane.Normal)) else p
  }

  /**
   * A point on or in front of the plane is left alone; with a unit normal a
   * penetrating point lands exactly on the plane, so no point ends behind it and
   * clipping twice is clipping once.
   */
  lemma ClipPointOnPlane(plane: Plane, p: Vec3)
    ensures 0.0 <= PlaneDot(plane, p) ==> ClipPoint(plane, p) == p
    ensures LengthSquared(plane.Normal) == 1.0 && PlaneDot(plane, p) < 0.0 ==> PlaneDot(plane, ClipPoint(plane, p)) == 0.0
    ensures LengthSquared(plane.Normal) == 1.0 ==> 0.0 <= PlaneDot(plane, ClipPoint(plane, p))
    ensures LengthSquared(plane.Normal) == 1.0 ==> ClipPoint(plane, ClipPoint(plane, p)) == ClipPoint(plane, p)
  {
    var d := PlaneDot(plane, p);
    if d < 0.0 {
      var n := plane.Normal;
      var q := Add(p, Scale(-d, n));
      assert Dot(n, q) == Dot(n, p) + (-d) * LengthSquared(n);
      if LengthSquared(n) == 1.0 {
        assert PlaneDot(plane, q) == 0.0;
      }
    }
  }

  /**
   * The plane of ProcessCollision: through the component location (world space)
   * or the origin, with the rotation's Z axis for XY, X for YZ and Y for ZX
   * (the identity axes in component space).
   */
  function CollisionPlaneOf(c: Config, t: Transform): Plane
    requires c.CollisionPlane != NONE
  {
    var origin := if c.ProcessWorldSpace then t.Location else Zero;
    var axisX := if c.ProcessWorldSpace then t.AxisX else ForwardVector;
    var axisY := if c.ProcessWorldSpace then t.AxisY else RightVector;
    var axisZ := if c.ProcessWorldSpace then t.AxisZ else UpVector;
    match c.CollisionPlane
      case XY => MakePlane(origin, axisZ)
      case YZ => MakePlane(origin, axisX)
      case ZX => MakePlane(origin, axisY)
  }

  function ClipRow(plane: Plane, p: seq<Vec3>): (r: seq<Vec3>)
    ensures |r| == |p|
  {
    seq(|p|, j requires 0 <= j < |p| => ClipPoint(plane, p[j]))
  }

  /** Every point of every free row is clipped; anchored rows are skipped. */
  function Collide(lines: seq<LineState>, plane: Plane): (r: seq<LineState>)
    ensures PositionsOnly(lines, r)
  {
    seq(|lines|, i requires 0 <= i < |lines| =>
      if lines[i].Free then lines[i].(Positions := ClipRow(plane, lines[i].Positions)) else lines[i])
  }

  /** ProcessCollision: nothing for NONE, otherwise Collide against the configured plane. */
  function Collided(lines: seq<LineState>, c: Config, t: Transform): (r: seq<LineState>)
    ensures PositionsOnly(lines, r)
  {
    if c.CollisionPlane == NONE then lines else Collide(lines, CollisionPlaneOf(c, t))
  }

  /**
   * Collide never touches an anchored row, leaves every point on or in front of
   * the plane where it is, and (for a unit normal) leaves no point of a free row
   * behind the plane.
   */
  lemma CollideClips(lines: seq<LineState>, plane: Plane, i: int, j: int)
    requires 0 <= i < |lines| && 0 <= j < |lines[i].Positions|
    ensures var r := Collide(lines, plane);
      && (!lines[i].Free ==> r[i] == lines[i])
      && (0.0 <= PlaneDot(plane, lines[i].Positions[j]) ==> r[i].Positions[j] == lines[i].Positions[j])
      && (lines[i].Free ==> r[i].Positions[j] == ClipPoint(plane, lines[i].Positions[j]))
      && (lines[i].Free && LengthSquared(plane.Normal) == 1.0 ==> 0.0 <= PlaneDot(plane, r[i].Positions[j]))
  {
    ClipPointOnPlane(plane, lines[i].Positions[j]);
  }

  /** ProcessCollision with NONE changes nothing; otherwise it is Collide against the configured plane. */
  lemma CollidedNone(lines: seq<LineState>, c: Config, t: Transform)
    ensures c.CollisionPlane == NONE ==> Collided(lines, c, t) == lines
    ensures c.CollisionPlane != NONE ==> Collided(lines, c, t) == Collide(lines, CollisionPlaneOf(c, t))
  {
  }

  /** Anchored rows are unchanged by collision; collision against the same plane twice is collision once. */
  lemma {:induction false} CollideIdempotent(lines: seq<LineState>, plane: Plane)
    requires LengthSquared(plane.Normal) == 1.0
    ensures Collide(Collide(lines, plane), plane) == Collide(lines, plane)
    ensures AnchoredKept(lines, Collide(lines, plane))
  {
    var once := Collide(lines, plane);
    var twice := Collide(once, plane);
    forall i | 0 <= i < |lines| ensures twice[i] == once[i] {
      if lines[i].Free {
        forall j | 0 <= j < |lines[i].Positions| ensures twice[i].Positions[j] == once[i].Positions[j] {
          ClipPointOnPlane(plane, lines[i].Positions[j]);
        }
        assert twice[i].Positions == once[i].Positions;
      }
    }
  }

  // ---------------------------------------------------------------------------
  // OnRegister

  /** FixedLineCount after OnRegister clamps it to the number of rows. */
  function ClampedFixedLineCount(c: Config): int {
    if c.FixedLineCount < c.NumSegments + 1 then c.FixedLineCount else c.NumSegments + 1
  }

  /** StartPosition: the component location in world space, the origin in component space. */
  function StartPosition(c: Config, t: Transform): Vec3 {
    if c.ProcessWorldSpace then t.Location else Zero
  }

  /** Delta: the cloth's full drop, ClothLength along the safe normal of gravity, in the simulation space. */
  function DropVector(c: Config, t: Transform, safeNormal: Vec3 -> Vec3): Vec3 {
    if c.ProcessWorldSpace then Scale(c.ClothLength, safeNormal(c.Gravity))
    else Scale(c.ClothLength, t.InverseTransformVector(safeNormal(c.Gravity)))
  }

  /** RelativePosition of row `i`: the fraction i / NumSegments of the drop. */
  function RelativePosition(c: Config, t: Transform, safeNormal: Vec3 -> Vec3, i: int): Vec3
    requires c.NumSegments != 0
  {
    Scale(i as real / c.NumSegments as real, DropVector(c, t, safeNormal))
  }

  /**
   * Row `i` as OnRegister leaves it: zeroed, flagged, sized by SetHorizontal,
   * damped, then laid out around StartPosition + RelativePosition with relative
   * offset RelativePosition (anchored) or zero (free).
   */
  function InitialLine(c: Config, t: Transform, safeNormal: Vec3 -> Vec3, i: int): (r: LineState)
    requires c.NumSegments != 0
  {
    var free := !(i < ClampedFixedLineCount(c));
    var sized := Sized(LineState(free, 0, 0.0, [], [], []), c.NumSides, c.ClothWidth).(Damping := c.Damping);
    var relative := RelativePosition(c, t, safeNormal, i);
    var center := Add(StartPosition(c, t), relative);
    Laid(sized, center, if free then Zero else relative, SideAxisVector(c, t))
  }

  function InitialGrid(c: Config, t: Transform, safeNormal: Vec3 -> Vec3): (r: seq<LineState>)
    requires 1 <= c.NumSegments
    ensures |r| == c.NumSegments + 1
  {
    seq(c.NumSegments + 1, i requires 0 <= i < c.NumSegments + 1 => InitialLine(c, t, safeNormal, i))
  }

  /**
   * The grid OnRegister builds: NumSegments + 1 rows of max(1, NumSides) + 1
   * points; row i is anchored exactly when i is below the clamped FixedLineCount;
   * every point sits at its row centre plus its side offset, with zero
   * acceleration and the configured damping; a free row starts at rest and an
   * anchored row stores its relative position as every offset.
   */
  lemma InitialGridLayout(c: Config, t: Transform, safeNormal: Vec3 -> Vec3, i: int, j: int)
    requires 1 <= c.NumSegments && 0 <= i <= c.NumSegments
    ensures var r := InitialGrid(c, t, safeNormal);
      var n := Max(1, c.NumSides) + 1;
      var relative := RelativePosition(c, t, safeNormal, i);
      && |r| == c.NumSegments + 1
      && WellFormed(r)
      && |r[i].Positions| == n
      && (r[i].Free <==> ClampedFixedLineCount(c) <= i)
      && r[i].Damping == c.Damping
      && r[i].HorizontalWidth == Truncate(c.ClothWidth)
      && (0 <= j < n ==>
            && r[i].Positions[j]
               == Add(Add(StartPosition(c, t), relative), SideOffset(SideAxisVector(c, t), Truncate(c.ClothWidth), n - 1, j))
            && r[i].Acceleration[j] == Zero
            && r[i].SavedPositions[j] == (if r[i].Free then r[i].Positions[j] else relative))
  {
    var r := InitialGrid(c, t, safeNormal);
    var n := Max(1, c.NumSides) + 1;
    forall k | 0 <= k < |r| ensures Aligned(r[k]) && |r[k].Positions| == n {
      var free := !(k < ClampedFixedLineCount(c));
      SizedAppendsZeros(LineState(free, 0, 0.0, [], [], []), c.NumSides, c.ClothWidth);
    }
    var free := !(i < ClampedFixedLineCount(c));
    var sized := Sized(LineState(free, 0, 0.0, [], [], []), c.NumSides, c.ClothWidth).(Damping := c.Damping);
    SizedAppendsZeros(LineState(free, 0, 0.0, [], [], []), c.NumSides, c.ClothWidth);
    if 0 <= j < n {
      var relative := RelativePosition(c, t, safeNormal, i);
      LaidLayout(sized, Add(StartPosition(c, t), relative), if free then Zero else relative, SideAxisVector(c, t), j);
    }
  }

  /**
   * A cloth narrower than its side count: with 0 <= int32(ClothWidth) < max(1,
   * NumSides) the int32 spacing is zero, so neighbouring points of every initial
   * row coincide and the horizontal target is zero. The float error factor of
   * that pair is 0 / 0, the early return does not fire, and the code as written
   * writes NaN into the row; the model leaves the row as it is.
   */
  lemma NarrowClothCollapses(c: Config, t: Transform, safeNormal: Vec3 -> Vec3, size: Vec3 -> real, i: int, j: int)
    requires IsSize(size)
    requires 1 <= c.NumSegments && 0 <= i <= c.NumSegments
    requires 0 <= Truncate(c.ClothWidth) < Max(1, c.NumSides)
    requires 0 <= j < Max(1, c.NumSides)
    ensures var row := InitialGrid(c, t, safeNormal)[i];
      var target := CDiv(row.HorizontalWidth, |row.Positions| - 1) as real;
      var distance := size(Sub(row.Positions[j + 1], row.Positions[j]));
      && |row.Positions| == Max(1, c.NumSides) + 1
      && row.Positions[j + 1] == row.Positions[j]
      && distance == 0.0 && target == 0.0
      && ErrorFactorAsWritten(distance, target) == NotANumber
      && !ReturnsEarlyAsWritten(ErrorFactorAsWritten(distance, target))
      && SolveHorizontal(row, size) == row
  {
    hide *;
    NarrowRowCoincides(c, t, safeNormal, i);
    CollapsedRowAsWritten(InitialGrid(c, t, safeNormal)[i], size, j);
  }

  /** Every initial row of a cloth narrower than its side count has all its points on one spot. */
  lemma NarrowRowCoincides(c: Config, t: Transform, safeNormal: Vec3 -> Vec3, i: int)
    requires 1 <= c.NumSegments && 0 <= i <= c.NumSegments
    requires 0 <= Truncate(c.ClothWidth) < Max(1, c.NumSides)
    ensures var row := InitialGrid(c, t, safeNormal)[i];
      && |row.Positions| == Max(1, c.NumSides) + 1
      && CDiv(row.HorizontalWidth, |row.Positions| - 1) == 0
      && forall k :: 0 <= k < |row.Positions| ==> row.Positions[k] == row.Positions[0]
  {
    var n := Max(1, c.NumSides);
    var w := Truncate(c.ClothWidth);
    var q := CDiv(w, n);
    assert q == 0 by {
      if q >= 1 { MulAtLeast(q, n); }
      if q <= -1 { MulAtLeast(-q, n); }
    }
    var sv := SideAxisVector(c, t);
    InitialGridLayout(c, t, safeNormal, i, 0);
    forall k | 0 <= k < n + 1
      ensures InitialGrid(c, t, safeNormal)[i].Positions[k] == InitialGrid(c, t, safeNormal)[i].Positions[0]
    {
      InitialGridLayout(c, t, safeNormal, i, k);
      SideOffsetsCoincide(sv, w, n, k);
    }
  }

  /** With m >= 1 and n >= 1, m * n >= n. */
  lemma MulAtLeast(m: int, n: int)
    requires 1 <= m && 1 <= n
    ensures m * n >= n
  {
    assert m * n == (m - 1) * n + n;
    assert (m - 1) * n >= 0;
  }

  /** With a zero int32 spacing, every layout offset equals the first. */
  lemma {:induction false} SideOffsetsCoincide(sv: Vec3, w: int, n: int, k: nat)
    requires 0 < n && CDiv(w, n) == 0
    ensures SideOffset(sv, w, n, k) == SideOffset(sv, w, n, 0)
  {
    if k > 0 {
      SideOffsetsCoincide(sv, w, n, k - 1);
      SideOffsetSpacing(sv, w, n, k - 1);
    }
  }

  /**
   * In component space neighbouring points of every initial row are exactly the
   * int32 spacing apart: with the unit side axis the squared gap is
   * CDiv(width, max(1, NumSides))^2, the square of the horizontal constraint's
   * target for that pair, so a freshly laid out row already meets it.
   */
  lemma InitialRowSpacing(c: Config, t: Transform, safeNormal: Vec3 -> Vec3, i: int, j: int)
    requires !c.ProcessWorldSpace
    requires 1 <= c.NumSegments && 0 <= i <= c.NumSegments
    requires 0 <= j < Max(1, c.NumSides)
    ensures var row := InitialGrid(c, t, safeNormal)[i];
      var target := CDiv(row.HorizontalWidth, |row.Positions| - 1) as real;
      && |row.Positions| == Max(1, c.NumSides) + 1
      && LengthSquared(Sub(row.Positions[j + 1], row.Positions[j])) == target * target
  {
    hide *;
    var n := Max(1, c.NumSides);
    var w := Truncate(c.ClothWidth);
    var sv := SideAxisVector(c, t);
    var base := Add(StartPosition(c, t), RelativePosition(c, t, safeNormal, i));
    var row := InitialGrid(c, t, safeNormal)[i];
    InitialGridLayout(c, t, safeNormal, i, j);
    InitialGridLayout(c, t, safeNormal, i, j + 1);
    SideOffsetSpacing(sv, w, n, j);
    SubAddCancel(base, SideOffset(sv, w, n, j + 1), SideOffset(sv, w, n, j));
    var q := CDiv(w, n) as real;
    assert Sub(row.Positions[j + 1], row.Positions[j]) == Scale(q, sv);
    SideAxisUnit(c, t);
    LengthSquaredScale(q, sv);
  }

  /** The first row hangs at StartPosition and the terminal row one full drop below it. */
  lemma InitialGridEnds(c: Config, t: Transform, safeNormal: Vec3 -> Vec3)
    requires 1 <= c.NumSegments
    ensures RelativePosition(c, t, safeNormal, 0) == Zero
    ensures RelativePosition(c, t, safeNormal, c.NumSegments) == DropVector(c, t, safeNormal)
  {
    var n := c.NumSegments as real;
    assert n / n == 1.0;
  }

  /**
   * In world space, an anchored row of the initial grid is exactly where
   * FixedProcess puts it while the component has not moved.
   */
  lemma InitialAnchoredRowsAtRest(c: Config, t: Transform, safeNormal: Vec3 -> Vec3, i: int)
    requires 1 <= c.NumSegments && 0 <= i <= c.NumSegments && c.ProcessWorldSpace
    requires i < ClampedFixedLineCount(c)
    ensures var r := InitialGrid(c, t, safeNormal);
      Fixed(r[i], CenterLocation(c, t, t.Location), SideAxisVector(c, t)) == r[i]
  {
    var sized := Sized(LineState(false, 0, 0.0, [], [], []), c.NumSides, c.ClothWidth).(Damping := c.Damping);
    SizedAppendsZeros(LineState(false, 0, 0.0, [], [], []), c.NumSides, c.ClothWidth);
    FixedRestoresLayout(sized, t.Location, RelativePosition(c, t, safeNormal, i), SideAxisVector(c, t));
  }

  // ---------------------------------------------------------------------------
  // TickComponent

  /** FixedTimeStep = min(DeltaTime, TimeDilation / 60): at most the frame time and at most a 60 Hz step. */
  function TickStep(deltaTime: real, timeDilation: real): (r: real)
    ensures r <= deltaTime && r <= timeDilation / 60.0
    ensures r == deltaTime || r == timeDilation / 60.0
  {
    if deltaTime < timeDilation / 60.0 then deltaTime else timeDilation / 60.0
  }

  /** The guard of the substep loop as written: it depends only on the remaining time and the step. */
  predicate AsWrittenLoopContinues(remainingTime: real, fixedTimeStep: real) {
    remainingTime >= fixedTimeStep
  }

  /** The time left after `passes` subtractions of `step` from DeltaTime. */
  function TimeLeft(deltaTime: real, step: real, passes: nat): real {
    deltaTime - passes as real * step
  }

  /** Before any pass all of DeltaTime is left; each pass takes one step off. */
  lemma TimeLeftStep(deltaTime: real, step: real, passes: nat)
    ensures TimeLeft(deltaTime, step, 0) == deltaTime
    ensures TimeLeft(deltaTime, step, passes + 1) == TimeLeft(deltaTime, step, passes) - step
  {
  }

  /**
   * As written, a step that is not positive (DeltaTime == 0, or a zero or
   * negative time dilation) keeps the guard true after every number of passes:
   * RemainingTime never drops below FixedTimeStep, so the loop never exits.
   */
  lemma ZeroStepNeverExits(deltaTime: real, timeDilation: real, passes: nat)
    requires TickStep(deltaTime, timeDilation) <= 0.0
    ensures AsWrittenLoopContinues(TimeLeft(deltaTime, TickStep(deltaTime, timeDilation), passes),
                                   TickStep(deltaTime, timeDilation))
  {
    var step := TickStep(deltaTime, timeDilation);
    assert passes as real * step <= 0.0 by {
      NonPositiveProduct(passes as real, step);
    }
  }

  lemma NonPositiveProduct(a: real, b: real)
    requires 0.0 <= a && b <= 0.0
    ensures a * b <= 0.0
  {
  }

  /** The corrected loop's number of substeps: floor(DeltaTime / step) for a positive step, none otherwise. */
  function SubstepCount(deltaTime: real, fixedTimeStep: real): nat {
    if 0.0 < fixedTimeStep && fixedTimeStep <= deltaTime then (deltaTime / fixedTimeStep).Floor else 0
  }

  /**
   * With a positive step that is at most DeltaTime, SubstepCount subtractions of
   * the step leave a remainder in [0, step): the loop stops exactly then.
   */
  lemma SubstepRemainder(deltaTime: real, fixedTimeStep: real)
    requires 0.0 < fixedTimeStep <= deltaTime
    ensures var n := SubstepCount(deltaTime, fixedTimeStep) as real;
      1.0 <= n && 0.0 <= deltaTime - n * fixedTimeStep < fixedTimeStep
  {
    var q := deltaTime / fixedTimeStep;
    var n := q.Floor as real;
    assert q * fixedTimeStep == deltaTime;
    assert 1.0 <= q by {
      assert fixedTimeStep / fixedTimeStep == 1.0;
      DivideMonotone(fixedTimeStep, deltaTime, fixedTimeStep);
    }
    assert n <= q < n + 1.0;
    MultiplyMonotone(n, q, fixedTimeStep);
    MultiplyMonotone(q, n + 1.0, fixedTimeStep);
    assert (n + 1.0) * fixedTimeStep == n * fixedTimeStep + fixedTimeStep;
    assert deltaTime < n * fixedTimeStep + fixedTimeStep;
    assert SubstepCount(deltaTime, fixedTimeStep) as real == n;
  }

  lemma DivideMonotone(a: real, b: real, d: real)
    requires a <= b && 0.0 < d
    ensures a / d <= b / d
  {
  }

  lemma MultiplyMonotone(a: real, b: real, k: real)
    requires a <= b && 0.0 < k
    ensures a * k <= b * k
    ensures a < b ==> a * k < b * k
  {
  }

  /**
   * The substep loop's arithmetic: within the SubstepCount passes the remaining
   * time is at least a step exactly when passes remain.
   */
  lemma SubstepGuard(deltaTime: real, step: real, done: nat, total: nat)
    requires 0.0 < step && total == SubstepCount(deltaTime, step) && done <= total
    ensures TimeLeft(deltaTime, step, done) >= step <==> done < total
  {
    if step <= deltaTime {
      SubstepRemainder(deltaTime, step);
      var n := total as real;
      var d := done as real;
      assert deltaTime - d * step == (deltaTime - n * step) + (n - d) * step;
      if done < total {
        assert 1.0 <= n - d;
        MultiplyMonotone(1.0, n - d, step);
      } else {
        assert d == n;
      }
    } else {
      assert done == 0;
    }
  }

  /** One pass of the substep loop: VerletIntegrate(step), SolveConstraints, ProcessCollision. */
  function Substep(lines: seq<LineState>, c: Config, t: Transform, oldLocation: Vec3, step: real,
                   size: Vec3 -> real): (r: seq<LineState>)
    requires IsSize(size) && WellFormed(lines) && c.NumSegments != 0 && c.NumSides != 0
    ensures WellFormed(r) && |r| == |lines|
  {
    var integrated := IntegrateLines(lines, CenterLocation(c, t, oldLocation), SideAxisVector(c, t), step * step);
    IntegrateLinesDispatch(lines, CenterLocation(c, t, oldLocation), SideAxisVector(c, t), step * step, 0);
    var solved := Solved(integrated, c, size);
    var r := Collided(solved, c, t);
    PositionsOnlyWellFormed(solved, r);
    r
  }

  /** `k` substeps; every substep after the first sees the location the first one recorded. */
  function Substeps(lines: seq<LineState>, c: Config, t: Transform, oldLocation: Vec3, step: real,
                    size: Vec3 -> real, k: nat): (r: seq<LineState>)
    requires IsSize(size) && WellFormed(lines) && c.NumSegments != 0 && c.NumSides != 0
    ensures WellFormed(r) && |r| == |lines|
    decreases k
  {
    if k == 0 then lines
    else
      Substep(Substeps(lines, c, t, oldLocation, step, size, k - 1), c, t, if k == 1 then oldLocation else t.Location,
              step, size)
  }

  /**
   * After a substep an anchored row is exactly what FixedProcess made of it:
   * the constraint sweep and collision never move it, and its offsets are kept.
   */
  lemma SubstepAnchoredRows(lines: seq<LineState>, c: Config, t: Transform, oldLocation: Vec3, step: real,
                            size: Vec3 -> real, i: int)
    requires IsSize(size) && WellFormed(lines) && c.NumSegments != 0 && c.NumSides != 0
    requires 0 <= i < |lines| && !lines[i].Free
    ensures var r := Substep(lines, c, t, oldLocation, step, size);
      r[i] == Fixed(lines[i], CenterLocation(c, t, oldLocation), SideAxisVector(c, t))
  {
    hide SolveIterations;
    var center := CenterLocation(c, t, oldLocation);
    var integrated := IntegrateLines(lines, center, SideAxisVector(c, t), step * step);
    IntegrateLinesDispatch(lines, center, SideAxisVector(c, t), step * step, i);
    var solved := Solved(integrated, c, size);
    IterationsKeepAnchored(integrated, c.SolverIterations, SegmentLength(c), DiagonalLength(c, size), size);
    assert solved[i] == integrated[i];
    if c.CollisionPlane != NONE {
      assert Collide(solved, CollisionPlaneOf(c, t))[i] == solved[i];
    }
  }

  /**
   * In world space, while the component stays where it was registered, every
   * anchored row of the initial grid is still at its initial layout after any
   * number of substeps.
   */
  lemma {:induction false} AnchoredRowsStayPut(lines: seq<LineState>, c: Config, t: Transform, oldLocation: Vec3,
                                               step: real, size: Vec3 -> real, k: nat, i: int)
    requires IsSize(size) && WellFormed(lines) && c.NumSegments != 0 && c.NumSides != 0 && c.ProcessWorldSpace
    requires 0 <= i < |lines| && !lines[i].Free
    requires Fixed(lines[i], t.Location, SideAxisVector(c, t)) == lines[i]
    ensures var r := Substeps(lines, c, t, oldLocation, step, size, k);
      i < |r| && r[i] == lines[i]
    decreases k
  {
    hide Substep;
    if k > 0 {
      var before := Substeps(lines, c, t, oldLocation, step, size, k - 1);
      AnchoredRowsStayPut(lines, c, t, oldLocation, step, size, k - 1, i);
      SubstepAnchoredRows(before, c, t, if k == 1 then oldLocation else t.Location, step, size, i);
    }
  }
}
