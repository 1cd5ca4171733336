/**
 * FVerletClothHorizontalLine: one row of cloth points whose methods rewrite the
 * row's arrays in place. Every method is proved to leave the row in the state
 * the matching LineSpec function computes from the state it started in.
 */
module Line {
  import opened Vectors
  import opened LineSpec

  class HorizontalLine {
    /** bFree: the row is simulated; otherwise it is anchored to the attachment frame. */
    var Free: bool
    /** Total width of the row, an int32 field. */
    var HorizontalWidth: int
    var Damping: real
    var Acceleration: seq<Vec3>
    var Positions: seq<Vec3>
    /** Previous positions of a free row; offsets from the attachment centre of an anchored one. */
    var SavedPositions: seq<Vec3>

    function State(): LineState
      reads this
    {
      LineState(Free, HorizontalWidth, Damping, Acceleration, Positions, SavedPositions)
    }

    /**
     * The default constructor: a free, undamped row with empty arrays. The C++
     * constructor leaves HorizontalWidth uninitialised; the model picks 0 for it.
     */
    constructor ()
      ensures State() == LineState(true, 0, 0.0, [], [], [])
    {
      Free, HorizontalWidth, Damping := true, 0, 0.0;
      Acceleration, Positions, SavedPositions := [], [], [];
    }

    /** A row as TArray::AddZeroed leaves it: every byte zero, so not free and with empty arrays. */
    constructor Zeroed()
      ensures State() == LineState(false, 0, 0.0, [], [], [])
    {
      Free, HorizontalWidth, Damping := false, 0, 0.0;
      Acceleration, Positions, SavedPositions := [], [], [];
    }

    /** Stores the truncated width and appends max(1, NumSides) + 1 zeroed points to each array. */
    method SetHorizontal(NumSides: int, Width: real)
      modifies this
      ensures State() == Sized(old(State()), NumSides, Width)
    {
      HorizontalWidth := Truncate(Width);
      var NewSides := Max(1, NumSides);
      Acceleration := Acceleration + Zeros(NewSides + 1);
      Positions := Positions + Zeros(NewSides + 1);
      SavedPositions := SavedPositions + Zeros(NewSides + 1);
    }

    /** Lays the points out evenly along SideVector around CenterLocation. */
    method SetInitPosition(CenterLocation: Vec3, RelativeLocation: Vec3, SideVector: Vec3)
      requires Aligned(State())
      modifies this
      ensures State() == Laid(old(State()), CenterLocation, RelativeLocation, SideVector)
    {
      if |Positions| > 1 {
        var n := |Positions|;
        var NumSides := n - 1;
        var HorizontalStart := Scale(-HorizontalWidth as real / 2.0, SideVector);
        var HorizontalDelta := Scale(CDiv(HorizontalWidth, NumSides) as real, SideVector);
        var Idx := 0;
        while Idx < |Positions|
          invariant 0 <= Idx <= n == |Positions| == |SavedPositions|
          invariant Free == old(Free) && HorizontalWidth == old(HorizontalWidth)
          invariant Damping == old(Damping) && Acceleration == old(Acceleration)
          invariant forall k :: 0 <= k < Idx ==>
            Positions[k] == Add(CenterLocation, SideOffset(SideVector, HorizontalWidth, NumSides, k))
            && SavedPositions[k] == (if Free then Positions[k] else RelativeLocation)
        {
          Positions := Positions[Idx := Add(CenterLocation, Add(HorizontalStart, Scale(Idx as real, HorizontalDelta)))];
          if Free {
            SavedPositions := SavedPositions[Idx := Positions[Idx]];
          } else {
            SavedPositions := SavedPositions[Idx := RelativeLocation];
          }
          Idx := Idx + 1;
        }
        ghost var r := Laid(old(State()), CenterLocation, RelativeLocation, SideVector);
        assert Positions == r.Positions;
        assert SavedPositions == r.SavedPositions;
      }
    }

    /** Steps every point with the velocity it inherits from SavedPositions, damped, plus InSubstepTime * Acceleration. */
    method VerletProcess(InSubstepTime: real)
      requires Aligned(State())
      modifies this
      ensures State() == Verlet(old(State()), InSubstepTime)
    {
      var n := |Positions|;
      var Idx := 0;
      while Idx < |Positions|
        invariant 0 <= Idx <= n == |Positions| == |SavedPositions|
        invariant Free == old(Free) && HorizontalWidth == old(HorizontalWidth)
        invariant Damping == old(Damping) && Acceleration == old(Acceleration)
        invariant forall k :: 0 <= k < Idx ==>
          Positions[k] == VerletPoint(old(Positions[k]), old(SavedPositions[k]), Acceleration[k], Damping, InSubstepTime)
          && SavedPositions[k] == old(Positions[k])
        invariant forall k :: Idx <= k < n ==> Positions[k] == old(Positions[k]) && SavedPositions[k] == old(SavedPositions[k])
      {
        var Vel := Sub(Positions[Idx], SavedPositions[Idx]);
        var NewPosition := Add(Add(Positions[Idx], Scale(1.0 - Damping, Vel)), Scale(InSubstepTime, Acceleration[Idx]));
        SavedPositions := SavedPositions[Idx := Positions[Idx]];
        Positions := Positions[Idx := NewPosition];
        Idx := Idx + 1;
      }
      ghost var r := Verlet(old(State()), InSubstepTime);
      assert Positions == r.Positions;
      assert SavedPositions == r.SavedPositions;
    }

    /** Re-slaves an anchored row: each point is the layout point around CenterLocation plus its stored offset. */
    method FixedProcess(CenterLocation: Vec3, SideVector: Vec3)
      requires Aligned(State())
      modifies this
      ensures State() == Fixed(old(State()), CenterLocation, SideVector)
    {
      if |Positions| > 1 {
        var n := |Positions|;
        var NumSides := n - 1;
        var HorizontalStart := Scale(-HorizontalWidth as real / 2.0, SideVector);
        var HorizontalDelta := Scale(CDiv(HorizontalWidth, NumSides) as real, SideVector);
        var Idx := 0;
        while Idx < |Positions|
          invariant 0 <= Idx <= n == |Positions|
          invariant Free == old(Free) && HorizontalWidth == old(HorizontalWidth) && Damping == old(Damping)
          invariant Acceleration == old(Acceleration) && SavedPositions == old(SavedPositions)
          invariant forall k :: 0 <= k < Idx ==>
            Positions[k] == Add(Add(CenterLocation, SideOffset(SideVector, HorizontalWidth, NumSides, k)), SavedPositions[k])
        {
          Positions := Positions[Idx := Add(Add(CenterLocation, Add(HorizontalStart, Scale(Idx as real, HorizontalDelta))),
                                            SavedPositions[Idx])];
          Idx := Idx + 1;
        }
        assert Positions == Fixed(old(State()), CenterLocation, SideVector).Positions;
      }
    }

    /**
     * Fills this row's accelerations with Gravity plus the wind force on the two
     * triangles of each quad towards NextLine; the terminal row gets the mirrored
     * pass. `normal` stands for FVector::GetSafeNormal.
     */
    method UpdateAcceleration(NextLine: HorizontalLine, Gravity: Vec3, Wind: Vec3, bLastSegment: bool,
                              normal: Vec3 -> Vec3)
      requires NextLine != this && Aligned(State()) && Aligned(NextLine.State())
      requires !IsNearlyZero(Wind) ==> |Positions| <= |NextLine.Positions|
      requires !IsNearlyZero(Wind) && bLastSegment ==> |NextLine.Positions| <= |Positions|
      modifies this, NextLine
      ensures (State(), NextLine.State())
           == UpdatedAcceleration(old(State()), old(NextLine.State()), Gravity, Wind, normal, bLastSegment)
    {
      FillGravity(Gravity);
      AccumulateWind(NextLine, Gravity, Wind, normal);
      if bLastSegment {
        NextLine.FillGravity(Gravity);
        NextLine.AccumulateMirroredWind(this, Gravity, Wind, normal);
      }
    }

    /** The wind loop of a row towards NextLine, run on accelerations already equal to Gravity. */
    method AccumulateWind(NextLine: HorizontalLine, Gravity: Vec3, Wind: Vec3, normal: Vec3 -> Vec3)
      requires NextLine != this && |Acceleration| == |Positions|
      requires forall k :: 0 <= k < |Acceleration| ==> Acceleration[k] == Gravity
      requires !IsNearlyZero(Wind) ==> |Positions| <= |NextLine.Positions|
      modifies this
      ensures State() == old(State()).(Acceleration := Acceleration)
      ensures Acceleration == WindAccel(Positions, NextLine.Positions, false, Gravity, Wind, normal)
    {
      hide Scale, Dot, Cross;
      var bNoWind := IsNearlyZero(Wind);
      var Idx := 0;
      while Idx < |Positions| - 1
        invariant 0 <= Idx && (Idx == 0 || Idx <= |Positions| - 1)
        invariant bNoWind ==> Idx == 0
        invariant Free == old(Free) && HorizontalWidth == old(HorizontalWidth) && Damping == old(Damping)
        invariant Positions == old(Positions) && SavedPositions == old(SavedPositions) && |Acceleration| == |Positions|
        invariant forall k :: 0 <= k < |Positions| ==>
          Acceleration[k] == WindAccelAfter(Positions, NextLine.Positions, false, Gravity, Wind, normal, Idx, k)
      {
        if bNoWind {
          break;
        }
        var First := Sub(Positions[Idx + 1], Positions[Idx]);
        var Second := Sub(NextLine.Positions[Idx], Positions[Idx]);
        assert (First, Second) == FaceEdges(Positions, NextLine.Positions, false, false, Idx);
        var Normal := normal(Cross(First, Second));
        Acceleration := Acceleration[Idx := Add(Acceleration[Idx], Scale(Dot(Normal, Wind), Normal))];
        First := Sub(NextLine.Positions[Idx + 1], Positions[Idx + 1]);
        Second := Sub(Positions[Idx], Positions[Idx + 1]);
        assert (First, Second) == FaceEdges(Positions, NextLine.Positions, false, true, Idx);
        Normal := normal(Cross(First, Second));
        Acceleration := Acceleration[Idx + 1 := Add(Acceleration[Idx + 1], Scale(Dot(Normal, Wind), Normal))];
        Idx := Idx + 1;
      }
    }

    /** The wind loop of the terminal row against PrevLine, with the cross products' operands swapped. */
    method AccumulateMirroredWind(PrevLine: HorizontalLine, Gravity: Vec3, Wind: Vec3, normal: Vec3 -> Vec3)
      requires PrevLine != this && |Acceleration| == |Positions|
      requires forall k :: 0 <= k < |Acceleration| ==> Acceleration[k] == Gravity
      requires !IsNearlyZero(Wind) ==> |Positions| <= |PrevLine.Positions|
      modifies this
      ensures State() == old(State()).(Acceleration := Acceleration)
      ensures Acceleration == WindAccel(Positions, PrevLine.Positions, true, Gravity, Wind, normal)
    {
      hide Scale, Dot, Cross;
      var bNoWind := IsNearlyZero(Wind);
      var Idx := 0;
      while Idx < |Positions| - 1
        invariant 0 <= Idx && (Idx == 0 || Idx <= |Positions| - 1)
        invariant bNoWind ==> Idx == 0
        invariant Free == old(Free) && HorizontalWidth == old(HorizontalWidth) && Damping == old(Damping)
        invariant Positions == old(Positions) && SavedPositions == old(SavedPositions) && |Acceleration| == |Positions|
        invariant forall k :: 0 <= k < |Positions| ==>
          Acceleration[k] == WindAccelAfter(Positions, PrevLine.Positions, true, Gravity, Wind, normal, Idx, k)
      {
        if bNoWind {
          break;
        }
        var First := Sub(PrevLine.Positions[Idx], Positions[Idx]);
        var Second := Sub(Positions[Idx + 1], Positions[Idx]);
        assert (First, Second) == FaceEdges(Positions, PrevLine.Positions, true, false, Idx);
        var Normal := normal(Cross(First, Second));
        Acceleration := Acceleration[Idx := Add(Acceleration[Idx], Scale(Dot(Normal, Wind), Normal))];
        First := Sub(Positions[Idx], Positions[Idx + 1]);
        Second := Sub(PrevLine.Positions[Idx + 1], Positions[Idx + 1]);
        assert (First, Second) == FaceEdges(Positions, PrevLine.Positions, true, true, Idx);
        Normal := normal(Cross(First, Second));
        Acceleration := Acceleration[Idx + 1 := Add(Acceleration[Idx + 1], Scale(Dot(Normal, Wind), Normal))];
        Idx := Idx + 1;
      }
    }

    /** The first loop of UpdateAcceleration: every point's acceleration becomes Gravity. */
    method FillGravity(Gravity: Vec3)
      requires Aligned(State())
      modifies this
      ensures State() == old(State()).(Acceleration := Acceleration)
      ensures |Acceleration| == |Positions| && forall k :: 0 <= k < |Acceleration| ==> Acceleration[k] == Gravity
    {
      var Idx := 0;
      while Idx < |Positions|
        invariant 0 <= Idx <= |Positions| == |Acceleration|
        invariant Free == old(Free) && HorizontalWidth == old(HorizontalWidth) && Damping == old(Damping)
        invariant Positions == old(Positions) && SavedPositions == old(SavedPositions)
        invariant forall k :: 0 <= k < Idx ==> Acceleration[k] == Gravity
      {
        Acceleration := Acceleration[Idx := Gravity];
        Idx := Idx + 1;
      }
    }

    /** Runs the horizontal, vertical and both diagonal passes against NextLine, in that order. */
    method SolveConstraints(NextLine: HorizontalLine, SegmentLength: real, DiagonalLength: real, size: Vec3 -> real)
      requires NextLine != this && IsSize(size)
      requires (Free ==> |Positions| != 1) && |Positions| <= |NextLine.Positions|
      modifies this, NextLine
      ensures (State(), NextLine.State())
           == SolveSegment(old(State()), old(NextLine.State()), SegmentLength, DiagonalLength, size)
    {
      SolveHorizontalConstraint(size);
      SolveVerticalConstraint(NextLine, SegmentLength, size);
      SolveDiagonalConstraint1(NextLine, DiagonalLength, size);
      SolveDiagonalConstraint2(NextLine, DiagonalLength, size);
    }

    /** A free row pulls each adjacent pair of its points towards the int32 spacing HorizontalWidth / NumSides. */
    method SolveHorizontalConstraint(size: Vec3 -> real)
      requires IsSize(size) && (Free ==> |Positions| != 1)
      modifies this
      ensures State() == SolveHorizontal(old(State()), size)
    {
      hide SolvePositionConstraint;
      if Free {
        var IterationCount := |Positions| - 1;
        var DesiredDistance := CDiv(HorizontalWidth, IterationCount) as real;
        var Idx := 0;
        while Idx < IterationCount
          invariant 0 <= Idx && (Idx == 0 || Idx <= IterationCount)
          invariant Free == old(Free) && HorizontalWidth == old(HorizontalWidth) && Damping == old(Damping)
          invariant Acceleration == old(Acceleration) && SavedPositions == old(SavedPositions)
          invariant Positions == RowPass(old(Positions), DesiredDistance, size, Idx)
        {
          var s := SolvePositionConstraint(Positions[Idx], true, Positions[Idx + 1], true, DesiredDistance, size);
          Positions := Positions[Idx := s.0][Idx + 1 := s.1];
          Idx := Idx + 1;
        }
        assert Positions == SolveHorizontal(old(State()), size).Positions;
      }
    }

    /** Pulls point j of this row and point j of NextLine together, for every column j. */
    method SolveVerticalConstraint(NextLine: HorizontalLine, DesiredDistance: real, size: Vec3 -> real)
      requires NextLine != this && IsSize(size) && |Positions| <= |NextLine.Positions|
      modifies this, NextLine
      ensures (State(), NextLine.State()) == SolveVertical(old(State()), old(NextLine.State()), DesiredDistance, size)
    {
      hide SolvePositionConstraint;
      var Idx := 0;
      while Idx < |Positions|
        invariant 0 <= Idx <= |Positions| == |old(Positions)|
        invariant Free == old(Free) && HorizontalWidth == old(HorizontalWidth) && Damping == old(Damping)
        invariant Acceleration == old(Acceleration) && SavedPositions == old(SavedPositions)
        invariant NextLine.Free == old(NextLine.Free) && NextLine.HorizontalWidth == old(NextLine.HorizontalWidth)
        invariant NextLine.Damping == old(NextLine.Damping) && NextLine.Acceleration == old(NextLine.Acceleration)
        invariant NextLine.SavedPositions == old(NextLine.SavedPositions)
        invariant (Positions, NextLine.Positions)
               == CrossPass(old(Positions), Free, old(NextLine.Positions), NextLine.Free, 0, 0, DesiredDistance, size, Idx)
      {
        var s := SolvePositionConstraint(Positions[Idx], Free, NextLine.Positions[Idx], NextLine.Free,
                                         DesiredDistance, size);
        Positions := Positions[Idx := s.0];
        NextLine.Positions := NextLine.Positions[Idx := s.1];
        Idx := Idx + 1;
      }
    }

    /** First diagonal: point j of this row against point j + 1 of NextLine. */
    method SolveDiagonalConstraint1(NextLine: HorizontalLine, DesiredDistance: real, size: Vec3 -> real)
      requires NextLine != this && IsSize(size) && |Positions| <= |NextLine.Positions|
      modifies this, NextLine
      ensures (State(), NextLine.State()) == SolveDiagonal1(old(State()), old(NextLine.State()), DesiredDistance, size)
    {
      hide SolvePositionConstraint;
      var Idx := 0;
      while Idx < |Positions| - 1
        invariant 0 <= Idx && (Idx == 0 || Idx <= |Positions| - 1) && |Positions| == |old(Positions)|
        invariant Free == old(Free) && HorizontalWidth == old(HorizontalWidth) && Damping == old(Damping)
        invariant Acceleration == old(Acceleration) && SavedPositions == old(SavedPositions)
        invariant NextLine.Free == old(NextLine.Free) && NextLine.HorizontalWidth == old(NextLine.HorizontalWidth)
        invariant NextLine.Damping == old(NextLine.Damping) && NextLine.Acceleration == old(NextLine.Acceleration)
        invariant NextLine.SavedPositions == old(NextLine.SavedPositions)
        invariant (Positions, NextLine.Positions)
               == CrossPass(old(Positions), Free, old(NextLine.Positions), NextLine.Free, 0, 1, DesiredDistance, size, Idx)
      {
        var s := SolvePositionConstraint(Positions[Idx], Free, NextLine.Positions[Idx + 1], NextLine.Free,
                                         DesiredDistance, size);
        Positions := Positions[Idx := s.0];
        NextLine.Positions := NextLine.Positions[Idx + 1 := s.1];
        Idx := Idx + 1;
      }
    }

    /** Second diagonal: point j + 1 of this row against point j of NextLine. */
    method SolveDiagonalConstraint2(NextLine: HorizontalLine, DesiredDistance: real, size: Vec3 -> real)
      requires NextLine != this && IsSize(size) && |Positions| <= |NextLine.Positions|
      modifies this, NextLine
      ensures (State(), NextLine.State()) == SolveDiagonal2(old(State()), old(NextLine.State()), DesiredDistance, size)
    {
      hide SolvePositionConstraint;
      var Idx := 0;
      while Idx < |Positions| - 1
        invariant 0 <= Idx && (Idx == 0 || Idx <= |Positions| - 1) && |Positions| == |old(Positions)|
        invariant Free == old(Free) && HorizontalWidth == old(HorizontalWidth) && Damping == old(Damping)
        invariant Acceleration == old(Acceleration) && SavedPositions == old(SavedPositions)
        invariant NextLine.Free == old(NextLine.Free) && NextLine.HorizontalWidth == old(NextLine.HorizontalWidth)
        invariant NextLine.Damping == old(NextLine.Damping) && NextLine.Acceleration == old(NextLine.Acceleration)
        invariant NextLine.SavedPositions == old(NextLine.SavedPositions)
        invariant (Positions, NextLine.Positions)
               == CrossPass(old(Positions), Free, old(NextLine.Positions), NextLine.Free, 1, 0, DesiredDistance, size, Idx)
      {
        var s := SolvePositionConstraint(Positions[Idx + 1], Free, NextLine.Positions[Idx], NextLine.Free,
                                         DesiredDistance, size);
        Positions := Positions[Idx + 1 := s.0];
        NextLine.Positions := NextLine.Positions[Idx := s.1];
        Idx := Idx + 1;
      }
    }
  }
}
