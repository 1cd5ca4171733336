/**
 * UVerletClothComponent: the settings, the rows it owns and the driver that
 * allocates them, steps them at a fixed rate, solves their constraints and
 * clips them against a plane. Each method is proved to leave the rows as the
 * matching GridSpec function says.
 */
module Component {
  import opened Vectors
  import opened LineSpec
  import opened Line
  import opened GridSpec

  class VerletClothComponent {
    var ClothLength: real
    var ClothWidth: real
    var Damping: real
    var NumSegments: int
    var SolverIterations: int
    var NumSides: int
    var FixedLineCount: int
    /** The acceleration applied to the cloth; the constructor's `Acceleration`. */
    var Gravity: Vec3
    var SideAxis: ESideAxis
    var CollisionPlane: ECollisionPlane
    var ProcessWorldSpace: bool

    var HorizontalLines: seq<HorizontalLine>
    var OldComponentLocation: Vec3

    function Settings(): Config
      reads this
    {
      Config(ClothLength, ClothWidth, Damping, NumSegments, SolverIterations, NumSides, FixedLineCount,
             Gravity, SideAxis, CollisionPlane, ProcessWorldSpace)
    }

    /** The rows' current values, in order. */
    function Snapshot(): seq<LineState>
      reads this`HorizontalLines, HorizontalLines
    {
      var lines := HorizontalLines;
      seq(|lines|, i reads lines requires 0 <= i < |lines| => lines[i].State())
    }

    ghost predicate Distinct()
      reads this`HorizontalLines
    {
      forall i, j :: 0 <= i < j < |HorizontalLines| ==> HorizontalLines[i] != HorizontalLines[j]
    }

    /** After OnRegister: one row per segment boundary, no row shared, and a well-formed grid. */
    ghost predicate Valid()
      reads this`NumSegments, this`HorizontalLines, HorizontalLines
    {
      && 1 <= NumSegments
      && |HorizontalLines| == NumSegments + 1
      && Distinct()
      && WellFormed(Snapshot())
    }

    /** The default settings: a 100 x 100 cloth of 10 segments, one side, one anchored row, 980 units/s^2 down. */
    constructor ()
      ensures Settings() == Config(100.0, 100.0, 0.0, 10, 10, 1, 1, Vec3(0.0, 0.0, -980.0), X, NONE, true)
      ensures HorizontalLines == [] && OldComponentLocation == Zero
    {
      ClothLength, ClothWidth, Damping := 100.0, 100.0, 0.0;
      NumSegments, SolverIterations, NumSides, FixedLineCount := 10, 10, 1, 1;
      Gravity := Vec3(0.0, 0.0, -980.0);
      SideAxis, CollisionPlane, ProcessWorldSpace := X, NONE, true;
      HorizontalLines, OldComponentLocation := [], Zero;
    }

    /** The side axis vector for the current settings. */
    method ComputeSideAxisVector(t: Transform) returns (SideAxisVector: Vec3)
      ensures SideAxisVector == GridSpec.SideAxisVector(Settings(), t)
      ensures !ProcessWorldSpace ==> LengthSquared(SideAxisVector) == 1.0
    {
      match SideAxis {
        case X => SideAxisVector := if ProcessWorldSpace then t.TransformVector(ForwardVector) else ForwardVector;
        case Y => SideAxisVector := if ProcessWorldSpace then t.TransformVector(RightVector) else RightVector;
        case Z => SideAxisVector := if ProcessWorldSpace then t.TransformVector(UpVector) else UpVector;
      }
      if !ProcessWorldSpace {
        SideAxisUnit(Settings(), t);
      }
    }

    /**
     * Replaces the rows with NumSegments + 1 zeroed ones, clamps FixedLineCount,
     * anchors the first FixedLineCount rows, and lays every row out along the
     * drop. `safeNormal` stands for FVector::GetSafeNormal.
     */
    method OnRegister(t: Transform, safeNormal: Vec3 -> Vec3)
      requires 1 <= NumSegments
      modifies this
      ensures Settings() == old(Settings()).(FixedLineCount := ClampedFixedLineCount(old(Settings())))
      ensures Valid()
      ensures forall i :: 0 <= i < |HorizontalLines| ==> fresh(HorizontalLines[i])
      ensures Snapshot() == InitialGrid(old(Settings()), t, safeNormal)
      ensures OldComponentLocation == t.Location
    {
      hide InitialGrid, InitialLine, Scale, Snapshot, WellFormed;
      ghost var c := Settings();
      var SideAxisVector := ComputeSideAxisVector(t);
      var NumLines := NumSegments + 1;

      HorizontalLines := ZeroedLines(NumLines);

      FixedLineCount := if FixedLineCount < NumLines then FixedLineCount else NumLines;
      SetFreeFlags();

      var CompLocation := t.Location;
      var StartPosition := if ProcessWorldSpace then CompLocation else Zero;
      var Delta := if ProcessWorldSpace then Scale(ClothLength, safeNormal(Gravity))
                   else Scale(ClothLength, t.InverseTransformVector(safeNormal(Gravity)));
      LayOutLines(StartPosition, Delta, SideAxisVector, c, t, safeNormal);
      OldComponentLocation := CompLocation;
      InitialGridLayout(c, t, safeNormal, 0, 0);
    }

    /** The flag loop of OnRegister: the first FixedLineCount rows are anchored, the rest free. */
    method SetFreeFlags()
      requires forall i :: 0 <= i < |HorizontalLines| ==> HorizontalLines[i].State() == LineState(false, 0, 0.0, [], [], [])
      requires Distinct()
      modifies HorizontalLines
      ensures forall i :: 0 <= i < |HorizontalLines| ==>
        HorizontalLines[i].State() == LineState(FixedLineCount <= i, 0, 0.0, [], [], [])
    {
      var NumLines := |HorizontalLines|;
      var LineIdx := 0;
      while LineIdx < NumLines
        invariant 0 <= LineIdx <= NumLines
        invariant forall i :: 0 <= i < NumLines ==>
          HorizontalLines[i].State() == LineState(i < LineIdx && FixedLineCount <= i, 0, 0.0, [], [], [])
      {
        if LineIdx < FixedLineCount {
          HorizontalLines[LineIdx].Free := false;
        } else {
          HorizontalLines[LineIdx].Free := true;
        }
        LineIdx := LineIdx + 1;
      }
    }

    /** HorizontalLines.AddZeroed(n) on an empty array: `n` new rows, all fields zero. */
    static method ZeroedLines(n: int) returns (lines: seq<HorizontalLine>)
      ensures |lines| == if n < 0 then 0 else n
      ensures forall i, j :: 0 <= i < j < |lines| ==> lines[i] != lines[j]
      ensures forall i :: 0 <= i < |lines| ==> fresh(lines[i]) && lines[i].State() == LineState(false, 0, 0.0, [], [], [])
    {
      lines := [];
      var k := 0;
      while k < n
        invariant 0 <= k && (k <= n || k == 0) && |lines| == k
        invariant forall i, j :: 0 <= i < j < k ==> lines[i] != lines[j]
        invariant forall i :: 0 <= i < k ==> fresh(lines[i]) && lines[i].State() == LineState(false, 0, 0.0, [], [], [])
      {
        var Line := new HorizontalLine.Zeroed();
        lines := lines + [Line];
        k := k + 1;
      }
    }

    /**
     * The layout loop of OnRegister: every row is sized, damped and laid out
     * around StartPosition + (LineIdx / NumSegments) * Delta, anchored rows
     * keeping that fraction of the drop as their offset.
     */
    method LayOutLines(StartPosition: Vec3, Delta: Vec3, SideAxisVector: Vec3,
                       ghost c: Config, t: Transform, safeNormal: Vec3 -> Vec3)
      requires 1 <= NumSegments && |HorizontalLines| == NumSegments + 1 && Distinct()
      requires Settings() == c.(FixedLineCount := ClampedFixedLineCount(c))
      requires StartPosition == GridSpec.StartPosition(c, t) && Delta == DropVector(c, t, safeNormal)
      requires SideAxisVector == GridSpec.SideAxisVector(c, t)
      requires forall i :: 0 <= i < |HorizontalLines| ==>
        HorizontalLines[i].State() == LineState(FixedLineCount <= i, 0, 0.0, [], [], [])
      modifies HorizontalLines
      ensures Snapshot() == InitialGrid(c, t, safeNormal)
    {
      hide InitialLine;
      var NumLines := NumSegments + 1;
      var LineIdx := 0;
      while LineIdx < NumLines
        invariant 0 <= LineIdx <= NumLines
        invariant forall i :: 0 <= i < LineIdx ==> HorizontalLines[i].State() == InitialLine(c, t, safeNormal, i)
        invariant forall i :: LineIdx <= i < NumLines ==>
          HorizontalLines[i].State() == LineState(FixedLineCount <= i, 0, 0.0, [], [], [])
      {
        var Line := HorizontalLines[LineIdx];
        LayOutLine(Line, LineIdx, StartPosition, Delta, SideAxisVector, c, t, safeNormal);
        forall i | 0 <= i < NumLines && i != LineIdx
          ensures i < LineIdx ==> HorizontalLines[i].State() == InitialLine(c, t, safeNormal, i)
          ensures LineIdx < i ==> HorizontalLines[i].State() == LineState(FixedLineCount <= i, 0, 0.0, [], [], [])
        {
          assert HorizontalLines[i] != Line;
        }
        LineIdx := LineIdx + 1;
      }
      SnapshotIs(InitialGrid(c, t, safeNormal));
    }

    /** The body of the layout loop for row `LineIdx`. */
    method LayOutLine(Line: HorizontalLine, LineIdx: int, StartPosition: Vec3, Delta: Vec3, SideAxisVector: Vec3,
                      ghost c: Config, t: Transform, safeNormal: Vec3 -> Vec3)
      requires 1 <= NumSegments && 0 <= LineIdx <= NumSegments
      requires Settings() == c.(FixedLineCount := ClampedFixedLineCount(c))
      requires StartPosition == GridSpec.StartPosition(c, t) && Delta == DropVector(c, t, safeNormal)
      requires SideAxisVector == GridSpec.SideAxisVector(c, t)
      requires Line.State() == LineState(FixedLineCount <= LineIdx, 0, 0.0, [], [], [])
      modifies Line
      ensures Line.State() == InitialLine(c, t, safeNormal, LineIdx)
    {
      Line.SetHorizontal(NumSides, ClothWidth);
      Line.Damping := Damping;
      var Alpha := LineIdx as real / NumSegments as real;
      var RelativePosition := Scale(Alpha, Delta);
      var InitialPosition := Add(StartPosition, RelativePosition);
      if Line.Free {
        Line.SetInitPosition(InitialPosition, Zero, SideAxisVector);
      } else {
        Line.SetInitPosition(InitialPosition, RelativePosition, SideAxisVector);
      }
    }

    /**
     * One frame: sub-steps of min(DeltaTime, TimeDilation / 60) while that much
     * time remains; each sub-step integrates, solves and collides. The loop also
     * stops when the step is not positive (see ZeroStepNeverExits).
     */
    method TickComponent(DeltaTime: real, TimeDilation: real, t: Transform, size: Vec3 -> real)
      requires Valid() && IsSize(size) && NumSides != 0
      modifies this`OldComponentLocation, HorizontalLines
      ensures Valid() && Settings() == old(Settings()) && HorizontalLines == old(HorizontalLines)
      ensures var step := TickStep(DeltaTime, TimeDilation);
        var count := SubstepCount(DeltaTime, step);
        && Snapshot() == Substeps(old(Snapshot()), Settings(), t, old(OldComponentLocation), step, size, count)
        && OldComponentLocation == (if count == 0 then old(OldComponentLocation) else t.Location)
    {
      hide Substep, TimeLeft;
      var FixedTimeStep := if DeltaTime <= TimeDilation / 60.0 then DeltaTime else TimeDilation / 60.0;
      assert FixedTimeStep == TickStep(DeltaTime, TimeDilation);
      var RemainingTime := DeltaTime;
      ghost var total := SubstepCount(DeltaTime, FixedTimeStep);
      ghost var done: nat := 0;
      TimeLeftStep(DeltaTime, FixedTimeStep, 0);
      while 0.0 < FixedTimeStep && RemainingTime >= FixedTimeStep
        invariant Valid() && Settings() == old(Settings()) && HorizontalLines == old(HorizontalLines)
        invariant done <= total
        invariant RemainingTime == TimeLeft(DeltaTime, FixedTimeStep, done)
        invariant Snapshot() == Substeps(old(Snapshot()), Settings(), t, old(OldComponentLocation), FixedTimeStep, size, done)
        invariant OldComponentLocation == (if done == 0 then old(OldComponentLocation) else t.Location)
        decreases total - done
      {
        SubstepGuard(DeltaTime, FixedTimeStep, done, total);
        TimeLeftStep(DeltaTime, FixedTimeStep, done);
        RunSubstep(FixedTimeStep, t, size);
        RemainingTime := RemainingTime - FixedTimeStep;
        done := done + 1;
      }
      if 0.0 < FixedTimeStep {
        SubstepGuard(DeltaTime, FixedTimeStep, done, total);
      }
    }

    /** The body of the substep loop: integrate, solve, collide. */
    method RunSubstep(FixedTimeStep: real, t: Transform, size: Vec3 -> real)
      requires Valid() && IsSize(size) && NumSides != 0
      modifies this`OldComponentLocation, HorizontalLines
      ensures Valid() && Settings() == old(Settings()) && HorizontalLines == old(HorizontalLines)
      ensures OldComponentLocation == t.Location
      ensures Snapshot() == Substep(old(Snapshot()), Settings(), t, old(OldComponentLocation), FixedTimeStep, size)
    {
      hide Solved, Collided, IntegrateLines;
      VerletIntegrate(FixedTimeStep, t);
      SolveConstraints(size);
      ProcessCollision(t);
    }

    /** Every iteration sweeps the segments top to bottom, then gives the terminal row its own horizontal pass. */
    method SolveConstraints(size: Vec3 -> real)
      requires Valid() && IsSize(size) && NumSides != 0
      modifies HorizontalLines
      ensures Valid()
      ensures Snapshot() == Solved(old(Snapshot()), Settings(), size)
    {
      var SegmentLength := ClothLength / NumSegments as real;
      var HorizontalLength := ClothWidth / NumSides as real;
      var DiagonalLength := size(Vec3(SegmentLength, HorizontalLength, 0.0));
      RunSolverIterations(SegmentLength, DiagonalLength, size);
    }

    /** The outer loop of SolveConstraints: SolverIterations passes with the given targets. */
    method RunSolverIterations(SegmentLength: real, DiagonalLength: real, size: Vec3 -> real)
      requires Valid() && IsSize(size)
      modifies HorizontalLines
      ensures Valid()
      ensures Snapshot() == SolveIterations(old(Snapshot()), SolverIterations, SegmentLength, DiagonalLength, size)
    {
      ghost var initial := Snapshot();
      hide SolveIteration;
      var IterationIdx := 0;
      while IterationIdx < SolverIterations
        invariant 0 <= IterationIdx && (IterationIdx == 0 || IterationIdx <= SolverIterations)
        invariant Valid()
        invariant Snapshot() == SolveIterations(initial, IterationIdx, SegmentLength, DiagonalLength, size)
      {
        SolveIterationRows(SegmentLength, DiagonalLength, size);
        IterationIdx := IterationIdx + 1;
      }
    }

    /** One pass of the outer loop of SolveConstraints. */
    method SolveIterationRows(SegmentLength: real, DiagonalLength: real, size: Vec3 -> real)
      requires Valid() && IsSize(size)
      modifies HorizontalLines
      ensures Valid()
      ensures Snapshot() == SolveIteration(old(Snapshot()), SegmentLength, DiagonalLength, size)
    {
      hide SweepSegments, SolveHorizontal;
      SweepRows(SegmentLength, DiagonalLength, size);
      SolveLastRow(size);
    }

    /** The inner loop of SolveConstraints: segment SegIdx joins rows SegIdx and SegIdx + 1, top to bottom. */
    method SweepRows(SegmentLength: real, DiagonalLength: real, size: Vec3 -> real)
      requires Valid() && IsSize(size)
      modifies HorizontalLines
      ensures Valid()
      ensures Snapshot() == SweepSegments(old(Snapshot()), SegmentLength, DiagonalLength, size, NumSegments)
    {
      hide SolveSegment, SweepSegments;
      ghost var start := Snapshot();
      SweepNone(start, SegmentLength, DiagonalLength, size);
      var SegIdx := 0;
      while SegIdx < NumSegments
        invariant 0 <= SegIdx <= NumSegments
        invariant Valid()
        invariant Snapshot() == SweepSegments(start, SegmentLength, DiagonalLength, size, SegIdx)
      {
        SweepStep(start, SegmentLength, DiagonalLength, size, SegIdx);
        SolveSegmentRows(SegIdx, SegmentLength, DiagonalLength, size);
        SegIdx := SegIdx + 1;
      }
    }

    /** The body of the inner loop: row `s` solves its segment against row `s + 1`. */
    method SolveSegmentRows(s: int, SegmentLength: real, DiagonalLength: real, size: Vec3 -> real)
      requires Valid() && IsSize(size) && 0 <= s < NumSegments
      modifies HorizontalLines
      ensures Valid()
      ensures var before := old(Snapshot());
        var p := SolveSegment(before[s], before[s + 1], SegmentLength, DiagonalLength, size);
        Snapshot() == before[s := p.0][s + 1 := p.1]
    {
      hide SolveSegment, Snapshot;
      ghost var before := Snapshot();
      SnapshotRows();
      ghost var p := SolveSegment(before[s], before[s + 1], SegmentLength, DiagonalLength, size);
      ghost var goal := before[s := p.0][s + 1 := p.1];
      WellFormedUpdate(before, s, p.0);
      WellFormedUpdate(before[s := p.0], s + 1, p.1);
      var LineA := HorizontalLines[s];
      var LineB := HorizontalLines[s + 1];
      assert LineA != LineB;
      LineA.SolveConstraints(LineB, SegmentLength, DiagonalLength, size);
      forall k | 0 <= k < |HorizontalLines| ensures HorizontalLines[k].State() == goal[k] {
        if k != s && k != s + 1 {
          assert HorizontalLines[k] != LineA && HorizontalLines[k] != LineB;
        }
      }
      SnapshotIs(goal);
    }

    /** The terminal row's own horizontal pass, closing one iteration of SolveConstraints. */
    method SolveLastRow(size: Vec3 -> real)
      requires Valid() && IsSize(size)
      modifies HorizontalLines
      ensures Valid()
      ensures var before := old(Snapshot());
        Snapshot() == before[NumSegments := SolveHorizontal(before[NumSegments], size)]
    {
      hide SolveHorizontal, Snapshot;
      ghost var before := Snapshot();
      SnapshotRows();
      ghost var goal := before[NumSegments := SolveHorizontal(before[NumSegments], size)];
      WellFormedUpdate(before, NumSegments, SolveHorizontal(before[NumSegments], size));
      var LastLine := HorizontalLines[NumSegments];
      LastLine.SolveHorizontalConstraint(size);
      forall k | 0 <= k < |HorizontalLines| ensures HorizontalLines[k].State() == goal[k] {
        if k != NumSegments {
          assert HorizontalLines[k] != LastLine;
        }
      }
      SnapshotIs(goal);
    }

    /** The snapshot has one entry per row, the row's current value. */
    lemma SnapshotRows()
      ensures |Snapshot()| == |HorizontalLines|
      ensures forall k :: 0 <= k < |HorizontalLines| ==> Snapshot()[k] == HorizontalLines[k].State()
    {
    }

    /** The rows hold the values of `g`, one by one, exactly when the snapshot is `g`. */
    lemma SnapshotIs(g: seq<LineState>)
      requires |g| == |HorizontalLines|
      requires forall k :: 0 <= k < |HorizontalLines| ==> HorizontalLines[k].State() == g[k]
      ensures Snapshot() == g
    {
    }

    /** Every point of every free row behind the collision plane is pushed back onto it. */
    method ProcessCollision(t: Transform)
      requires Valid()
      modifies HorizontalLines
      ensures Valid()
      ensures Snapshot() == Collided(old(Snapshot()), Settings(), t)
    {
      if CollisionPlane == NONE {
        return;
      }
      var Origin := if ProcessWorldSpace then t.Location else Zero;
      var AxisX := if ProcessWorldSpace then t.AxisX else ForwardVector;
      var AxisY := if ProcessWorldSpace then t.AxisY else RightVector;
      var AxisZ := if ProcessWorldSpace then t.AxisZ else UpVector;
      var ClipPlane: Plane;
      match CollisionPlane {
        case XY => ClipPlane := MakePlane(Origin, AxisZ);
        case YZ => ClipPlane := MakePlane(Origin, AxisX);
        case ZX => ClipPlane := MakePlane(Origin, AxisY);
      }
      assert ClipPlane == CollisionPlaneOf(Settings(), t);
      CollideRows(ClipPlane);
    }

    /** The row loop of ProcessCollision: every free row has its points clipped against `ClipPlane`. */
    method CollideRows(ClipPlane: Plane)
      requires Valid()
      modifies HorizontalLines
      ensures Valid()
      ensures Snapshot() == Collide(old(Snapshot()), ClipPlane)
    {
      hide Snapshot;
      ghost var before := Snapshot();
      SnapshotRows();
      ghost var goal := Collide(before, ClipPlane);
      PositionsOnlyWellFormed(before, goal);

      var NumLines := NumSegments + 1;
      var LineIdx := 0;
      while LineIdx < NumLines
        invariant 0 <= LineIdx <= NumLines
        invariant forall k :: 0 <= k < NumLines ==>
          HorizontalLines[k].State() == (if k < LineIdx then goal[k] else before[k])
      {
        var Line := HorizontalLines[LineIdx];
        if Line.Free {
          ClipLine(Line, ClipPlane);
          forall k | 0 <= k < NumLines && k != LineIdx
            ensures HorizontalLines[k].State() == (if k < LineIdx + 1 then goal[k] else before[k])
          {
            assert HorizontalLines[k] != Line;
          }
        }
        LineIdx := LineIdx + 1;
      }
      SnapshotIs(goal);
    }

    /** The point loop of ProcessCollision: every point of `Line` behind the plane is moved onto it. */
    method ClipLine(Line: HorizontalLine, ClipPlane: Plane)
      modifies Line
      ensures Line.State() == old(Line.State()).(Positions := ClipRow(ClipPlane, old(Line.Positions)))
    {
      ghost var row := Line.State();
      var PointIdx := 0;
      while PointIdx < |Line.Positions|
        invariant 0 <= PointIdx <= |Line.Positions| == |row.Positions|
        invariant Line.Free == row.Free && Line.HorizontalWidth == row.HorizontalWidth
        invariant Line.Damping == row.Damping && Line.Acceleration == row.Acceleration
        invariant Line.SavedPositions == row.SavedPositions
        invariant forall j :: 0 <= j < PointIdx ==> Line.Positions[j] == ClipPoint(ClipPlane, row.Positions[j])
        invariant forall j :: PointIdx <= j < |row.Positions| ==> Line.Positions[j] == row.Positions[j]
      {
        var Distance := PlaneDot(ClipPlane, Line.Positions[PointIdx]);
        if Distance < 0.0 {
          Line.Positions := Line.Positions[PointIdx := Add(Line.Positions[PointIdx], Scale(-Distance, ClipPlane.Normal))];
        }
        PointIdx := PointIdx + 1;
      }
      assert Line.Positions == ClipRow(ClipPlane, row.Positions);
    }

    /**
     * Steps free rows by VerletProcess(InTime^2) and re-slaves anchored rows to
     * the attachment centre, then records the current location.
     */
    method VerletIntegrate(InTime: real, t: Transform)
      requires Valid()
      modifies this`OldComponentLocation, HorizontalLines
      ensures Valid() && Settings() == old(Settings()) && HorizontalLines == old(HorizontalLines)
      ensures OldComponentLocation == t.Location
      ensures Snapshot() == IntegrateLines(old(Snapshot()), CenterLocation(Settings(), t, old(OldComponentLocation)),
                                           GridSpec.SideAxisVector(Settings(), t), InTime * InTime)
    {
      var SideAxisVector := ComputeSideAxisVector(t);
      var CompLocation := t.Location;
      var CenterLocation := if ProcessWorldSpace then CompLocation
                            else t.InverseTransformVector(Sub(CompLocation, OldComponentLocation));
      assert CenterLocation == GridSpec.CenterLocation(Settings(), t, old(OldComponentLocation));
      OldComponentLocation := CompLocation;
      var TimeSqr := InTime * InTime;
      IntegrateRows(CenterLocation, SideAxisVector, TimeSqr);
    }

    /** The row loop of VerletIntegrate: free rows take a Verlet step, anchored rows follow the centre. */
    method IntegrateRows(CenterLocation: Vec3, SideAxisVector: Vec3, TimeSqr: real)
      requires Valid()
      modifies HorizontalLines
      ensures Valid()
      ensures Snapshot() == IntegrateLines(old(Snapshot()), CenterLocation, SideAxisVector, TimeSqr)
    {
      hide Snapshot, Verlet, Fixed;
      ghost var before := Snapshot();
      SnapshotRows();
      ghost var goal := IntegrateLines(before, CenterLocation, SideAxisVector, TimeSqr);
      IntegrateLinesDispatch(before, CenterLocation, SideAxisVector, TimeSqr, 0);
      var NumLines := NumSegments + 1;
      var LineIdx := 0;
      while LineIdx < NumLines
        invariant 0 <= LineIdx <= NumLines
        invariant forall k :: 0 <= k < NumLines ==>
          HorizontalLines[k].State() == (if k < LineIdx then goal[k] else before[k])
      {
        var Line := HorizontalLines[LineIdx];
        if Line.Free {
          Line.VerletProcess(TimeSqr);
        } else {
          Line.FixedProcess(CenterLocation, SideAxisVector);
        }
        forall k | 0 <= k < NumLines && k != LineIdx
          ensures HorizontalLines[k].State() == (if k < LineIdx + 1 then goal[k] else before[k])
        {
          assert HorizontalLines[k] != Line;
        }
        LineIdx := LineIdx + 1;
      }
      SnapshotIs(goal);
    }
  }
}
