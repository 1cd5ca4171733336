/**
 * The scene proxy's mesh generation: the vertex numbering GetVertIndex, the
 * buffer sizes the proxy allocates, and the vertex and index lists that
 * BuildClothMesh fills from the rows' points. Vertex tangents are not modelled.
 */
module ClothMesh {
  import opened Vectors
  import LineSpec
  import GridSpec

  /** The value of a float division `(float)i / (float)n` of two counts; 0/0 is NaN. */
  datatype Fraction = Finite(Value: real) | NotANumber

  function Ratio(i: int, n: int): Fraction
    requires 0 <= i <= n
  {
    if n == 0 then NotANumber else Finite(i as real / n as real)
  }

  /** A non-zero denominator gives a texture coordinate in [0, 1]. */
  lemma RatioInUnit(i: int, n: int)
    requires 0 <= i <= n && n != 0
    ensures Ratio(i, n).Finite? && 0.0 <= Ratio(i, n).Value <= 1.0
  {
    assert i as real <= n as real;
  }

  /** FDynamicMeshVertex without its tangents; TextureCoordinate is (AlongFrac, Frac). */
  datatype MeshVertex = MeshVertex(Position: Vec3, AlongFrac: Fraction, Frac: Fraction)

  /** The vertex BuildClothMesh emits for point PointIdx of row LineIdx. */
  function VertexAt(InLines: seq<seq<Vec3>>, LineIdx: int, PointIdx: int): MeshVertex
    requires 0 <= LineIdx < |InLines| && 0 <= PointIdx < |InLines[LineIdx]|
  {
    MeshVertex(InLines[LineIdx][PointIdx], Ratio(LineIdx, |InLines| - 1),
               Ratio(PointIdx, |InLines[LineIdx]| - 1))
  }

  /** The vertices of one row, in point order. */
  function RowVertices(InLines: seq<seq<Vec3>>, LineIdx: int): seq<MeshVertex>
    requires 0 <= LineIdx < |InLines|
  {
    var NumPoints := |InLines[LineIdx]|;
    seq(NumPoints, PointIdx requires 0 <= PointIdx < NumPoints => VertexAt(InLines, LineIdx, PointIdx))
  }

  /** The vertices of the first `count` rows, row after row. */
  function VerticesUpTo(InLines: seq<seq<Vec3>>, count: nat): seq<MeshVertex>
    requires count <= |InLines|
  {
    if count == 0 then [] else VerticesUpTo(InLines, count - 1) + RowVertices(InLines, count - 1)
  }

  /** The whole vertex list BuildClothMesh produces. */
  function MeshVertices(InLines: seq<seq<Vec3>>): seq<MeshVertex> {
    VerticesUpTo(InLines, |InLines|)
  }

  /** Every row has `width` points. */
  predicate Rectangular(InLines: seq<seq<Vec3>>, width: int) {
    forall l :: 0 <= l < |InLines| ==> |InLines[l]| == width
  }

  /** Over rows of equal width the vertex list holds count * width vertices. */
  lemma {:induction false} VerticesUpToLength(InLines: seq<seq<Vec3>>, width: nat, count: nat)
    requires count <= |InLines| && Rectangular(InLines, width)
    ensures |VerticesUpTo(InLines, count)| == count * width
  {
    if count > 0 {
      VerticesUpToLength(InLines, width, count - 1);
      assert |RowVertices(InLines, count - 1)| == width;
      assert (count - 1) * width + width == count * width;
    }
  }

  /** Over rows of equal width, point p of row l is vertex l * width + p. */
  lemma {:induction false} VerticesUpToAt(InLines: seq<seq<Vec3>>, width: nat, count: nat, l: int, p: int)
    requires count <= |InLines| && Rectangular(InLines, width)
    requires 0 <= l < count && 0 <= p < width
    ensures 0 <= l * width + p < |VerticesUpTo(InLines, count)|
    ensures VerticesUpTo(InLines, count)[l * width + p] == VertexAt(InLines, l, p)
  {
    VerticesUpToLength(InLines, width, count - 1);
    var prefix := VerticesUpTo(InLines, count - 1);
    assert VerticesUpTo(InLines, count) == prefix + RowVertices(InLines, count - 1);
    if l == count - 1 {
      assert l * width + p == |prefix| + p;
    } else {
      VerticesUpToAt(InLines, width, count - 1, l, p);
    }
  }

  /** Both texture coordinates of the vertex are finite and in [0, 1]. */
  predicate UnitCoordinates(v: MeshVertex) {
    v.AlongFrac.Finite? && 0.0 <= v.AlongFrac.Value <= 1.0
    && v.Frac.Finite? && 0.0 <= v.Frac.Value <= 1.0
  }

  /**
   * With at least two rows and at least two points in each row, no division
   * by zero occurs and every texture coordinate lies in [0, 1].
   */
  lemma {:induction false} VerticesUpToUnit(InLines: seq<seq<Vec3>>, count: nat)
    requires count <= |InLines| && 2 <= |InLines|
    requires forall l :: 0 <= l < |InLines| ==> 2 <= |InLines[l]|
    ensures forall i :: 0 <= i < |VerticesUpTo(InLines, count)| ==> UnitCoordinates(VerticesUpTo(InLines, count)[i])
  {
    if count > 0 {
      VerticesUpToUnit(InLines, count - 1);
      var row := RowVertices(InLines, count - 1);
      forall p | 0 <= p < |row|
        ensures UnitCoordinates(row[p])
      {
        RatioInUnit(count - 1, |InLines| - 1);
        RatioInUnit(p, |InLines[count - 1]| - 1);
      }
      assert VerticesUpTo(InLines, count) == VerticesUpTo(InLines, count - 1) + row;
    }
  }

  /** The proxy's copy of the component's grid dimensions (both int32). */
  datatype SceneProxy = SceneProxy(NumSegments: int, NumSides: int)
  {
    /** The UPROPERTY clamps of the component the proxy copies them from. */
    predicate Valid() {
      1 <= NumSegments && 1 <= NumSides
    }

    function GetRequiredVertexCount(): int {
      (NumSegments + 1) * (NumSides + 1)
    }

    function GetRequiredIndexCount(): int {
      (NumSegments * NumSides * 2) * 3
    }

    function GetVertIndex(LineIdx: int, Point: int): int {
      (LineIdx * (NumSides + 1)) + Point
    }

    /**
     * The int32 limits of the counts. The vertex count never exceeds the index
     * count, so it fits whenever the index count does, and every vertex number
     * lies below it. NumSides is clamped to at most 16 but NumSegments has no
     * upper clamp: at NumSides = 16 the index count fits in an int32 exactly up
     * to 22,369,621 segments.
     */
    lemma CountsFitInt32()
      requires Valid()
      ensures GetRequiredVertexCount() <= GetRequiredIndexCount()
      ensures NumSides == 16 ==> (GetRequiredIndexCount() <= 0x7fff_ffff <==> NumSegments <= 22369621)
    {
      var s, n := NumSegments, NumSides;
      assert (s + 1) * (n + 1) == s * n + s + n + 1;
      MulMonotone(1, s, n);
      MulMonotone(1, n, s);
      assert s * n * 2 * 3 == 6 * (s * n);
    }

    /**
     * GetVertIndex is a bijection from rows 0..NumSegments and points 0..NumSides
     * onto [0, GetRequiredVertexCount()): it lands in range, and division and
     * remainder by the row width recover the row and the point.
     */
    lemma VertIndexDecodes(LineIdx: int, Point: int)
      requires Valid()
      requires 0 <= LineIdx <= NumSegments && 0 <= Point <= NumSides
      ensures 0 <= GetVertIndex(LineIdx, Point) < GetRequiredVertexCount()
      ensures GetVertIndex(LineIdx, Point) / (NumSides + 1) == LineIdx
      ensures GetVertIndex(LineIdx, Point) % (NumSides + 1) == Point
    {
      var w := NumSides + 1;
      MulMonotone(LineIdx, NumSegments, w);
      assert GetRequiredVertexCount() == NumSegments * w + w;
      DivModUnique(GetVertIndex(LineIdx, Point), w, LineIdx, Point);
    }

    /** Every vertex number below GetRequiredVertexCount() is some row's point. */
    lemma VertIndexOnto(v: int)
      requires Valid()
      requires 0 <= v < GetRequiredVertexCount()
      ensures 0 <= v / (NumSides + 1) <= NumSegments && 0 <= v % (NumSides + 1) <= NumSides
      ensures GetVertIndex(v / (NumSides + 1), v % (NumSides + 1)) == v
    {
      var w := NumSides + 1;
      var q := v / w;
      if q > NumSegments {
        MulMonotone(NumSegments + 1, q, w);
        assert false;
      }
    }

    /** Different (row, point) pairs get different vertex numbers. */
    lemma VertIndexInjective(l1: int, p1: int, l2: int, p2: int)
      requires Valid()
      requires 0 <= l1 <= NumSegments && 0 <= p1 <= NumSides
      requires 0 <= l2 <= NumSegments && 0 <= p2 <= NumSides
      requires GetVertIndex(l1, p1) == GetVertIndex(l2, p2)
      ensures l1 == l2 && p1 == p2
    {
      VertIndexDecodes(l1, p1);
      VertIndexDecodes(l2, p2);
    }

    /** The six indices one quad emits: triangles (TL, BL, TR) and (TR, BL, BR). */
    function QuadIndices(SegIdx: int, SideIdx: int): seq<int> {
      var TL := GetVertIndex(SegIdx, SideIdx);
      var BL := GetVertIndex(SegIdx + 1, SideIdx);
      var TR := GetVertIndex(SegIdx, SideIdx + 1);
      var BR := GetVertIndex(SegIdx + 1, SideIdx + 1);
      [TL, BL, TR, TR, BL, BR]
    }

    /** The indices of the first `count` quads of segment SegIdx. */
    function RowIndices(SegIdx: int, count: nat): seq<int> {
      if count == 0 then [] else RowIndices(SegIdx, count - 1) + QuadIndices(SegIdx, count - 1)
    }

    /** The number of quads per segment the side loop visits. */
    function SideCount(): nat {
      if NumSides < 0 then 0 else NumSides
    }

    /** The indices of the first `count` segments. */
    function GridIndices(count: nat): seq<int> {
      if count == 0 then [] else GridIndices(count - 1) + RowIndices(count - 1, SideCount())
    }

    /** The whole index list BuildClothMesh produces for SegmentCount segments. */
    function MeshIndices(SegmentCount: int): seq<int> {
      if SegmentCount < 0 then [] else GridIndices(SegmentCount)
    }

    lemma {:induction false} RowIndicesLength(SegIdx: int, count: nat)
      ensures |RowIndices(SegIdx, count)| == 6 * count
    {
      if count > 0 {
        RowIndicesLength(SegIdx, count - 1);
      }
    }

    /** Six indices per quad: `count` segments of SideCount() quads. */
    lemma {:induction false} GridIndicesLength(count: nat)
      ensures |GridIndices(count)| == 6 * count * SideCount()
    {
      if count > 0 {
        GridIndicesLength(count - 1);
        RowIndicesLength(count - 1, SideCount());
        assert 6 * (count - 1) * SideCount() + 6 * SideCount() == 6 * count * SideCount();
      }
    }

    /** Quad SideIdx of the segment occupies indices 6 * SideIdx .. 6 * SideIdx + 5. */
    lemma {:induction false} RowIndicesAt(SegIdx: int, count: nat, SideIdx: int, k: int)
      requires 0 <= SideIdx < count && 0 <= k < 6
      ensures 6 * SideIdx + k < |RowIndices(SegIdx, count)|
      ensures RowIndices(SegIdx, count)[6 * SideIdx + k] == QuadIndices(SegIdx, SideIdx)[k]
    {
      RowIndicesLength(SegIdx, count - 1);
      if SideIdx < count - 1 {
        RowIndicesAt(SegIdx, count - 1, SideIdx, k);
      }
    }

    /**
     * The index list in closed form: quad (SegIdx, SideIdx) occupies the six
     * entries from 6 * (SegIdx * SideCount() + SideIdx), in the order
     * TL, BL, TR, TR, BL, BR.
     */
    lemma {:induction false} GridIndicesAt(count: nat, SegIdx: int, SideIdx: int, k: int)
      requires 0 <= SegIdx < count && 0 <= SideIdx < SideCount() && 0 <= k < 6
      ensures 6 * (SegIdx * SideCount() + SideIdx) + k < |GridIndices(count)|
      ensures GridIndices(count)[6 * (SegIdx * SideCount() + SideIdx) + k] == QuadIndices(SegIdx, SideIdx)[k]
    {
      GridIndicesLength(count - 1);
      GridIndicesLength(count);
      var prefix := GridIndices(count - 1);
      var i := 6 * (SegIdx * SideCount() + SideIdx) + k;
      if SegIdx == count - 1 {
        assert i == |prefix| + (6 * SideIdx + k);
        RowIndicesAt(SegIdx, SideCount(), SideIdx, k);
      } else {
        GridIndicesAt(count - 1, SegIdx, SideIdx, k);
      }
    }

    /** Every index of a quad below segment `count` points below (count + 1) rows of vertices. */
    lemma QuadIndicesBounded(SegIdx: int, SideIdx: int, count: nat)
      requires 0 <= SegIdx < count && 0 <= SideIdx < NumSides
      ensures forall k :: 0 <= k < 6 ==> 0 <= QuadIndices(SegIdx, SideIdx)[k] < (count + 1) * (NumSides + 1)
    {
      var w := NumSides + 1;
      MulMonotone(SegIdx + 1, count, w);
      assert GetVertIndex(SegIdx + 1, SideIdx + 1) < (count + 1) * w;
    }

    lemma {:induction false} RowIndicesBounded(SegIdx: int, sides: nat, count: nat)
      requires 0 <= SegIdx < count && sides <= SideCount()
      ensures forall i :: 0 <= i < |RowIndices(SegIdx, sides)| ==>
        0 <= RowIndices(SegIdx, sides)[i] < (count + 1) * (NumSides + 1)
    {
      if sides > 0 {
        RowIndicesBounded(SegIdx, sides - 1, count);
        QuadIndicesBounded(SegIdx, sides - 1, count);
      }
    }

    /** The index list of `count` segments only names vertices of its count + 1 rows. */
    lemma {:induction false} GridIndicesBounded(count: nat, bound: nat)
      requires count <= bound
      ensures forall i :: 0 <= i < |GridIndices(count)| ==>
        0 <= GridIndices(count)[i] < (bound + 1) * (NumSides + 1)
    {
      if count > 0 {
        GridIndicesBounded(count - 1, bound);
        RowIndicesBounded(count - 1, SideCount(), bound);
      }
    }

    /** The rows the component hands over: NumSegments + 1 rows of NumSides + 1 points. */
    predicate Matches(InLines: seq<seq<Vec3>>) {
      |InLines| == NumSegments + 1 && Rectangular(InLines, NumSides + 1)
    }

    /**
     * On the rows the component hands over, vertex GetVertIndex(l, p) is point p
     * of row l, so the index list's numbering and the vertex list's agree.
     */
    lemma VertIndexNamesPoint(InLines: seq<seq<Vec3>>, LineIdx: int, Point: int)
      requires Valid() && Matches(InLines)
      requires 0 <= LineIdx <= NumSegments && 0 <= Point <= NumSides
      ensures 0 <= GetVertIndex(LineIdx, Point) < |MeshVertices(InLines)|
      ensures MeshVertices(InLines)[GetVertIndex(LineIdx, Point)] == VertexAt(InLines, LineIdx, Point)
    {
      VerticesUpToAt(InLines, NumSides + 1, |InLines|, LineIdx, Point);
    }

    /**
     * On the rows the component hands over, the lists have the sizes the proxy
     * allocated (the checks after BuildClothMesh), every index names an
     * existing vertex, and every texture coordinate is in [0, 1].
     */
    lemma MeshMatchesAllocation(InLines: seq<seq<Vec3>>)
      requires Valid() && Matches(InLines)
      ensures |MeshVertices(InLines)| == GetRequiredVertexCount()
      ensures |MeshIndices(NumSegments)| == GetRequiredIndexCount()
      ensures forall i :: 0 <= i < |MeshIndices(NumSegments)| ==>
        0 <= MeshIndices(NumSegments)[i] < |MeshVertices(InLines)|
      ensures forall i :: 0 <= i < |MeshVertices(InLines)| ==> UnitCoordinates(MeshVertices(InLines)[i])
    {
      hide VerticesUpTo, GridIndices;
      var w := NumSides + 1;
      VerticesUpToLength(InLines, w, |InLines|);
      GridIndicesLength(NumSegments);
      GridIndicesBounded(NumSegments, NumSegments);
      VerticesUpToUnit(InLines, |InLines|);
      assert |MeshVertices(InLines)| == (NumSegments + 1) * w;
      assert 6 * NumSegments * SideCount() == (NumSegments * NumSides * 2) * 3;
    }

    /**
     * Builds the vertex list row by row and then the index list quad by quad;
     * on the rows the component hands over, the lists agree with the proxy's
     * allocation.
     */
    method BuildClothMesh(InLines: seq<seq<Vec3>>) returns (OutVertices: seq<MeshVertex>, OutIndices: seq<int>)
      ensures OutVertices == MeshVertices(InLines)
      ensures OutIndices == MeshIndices(|InLines| - 1)
      ensures Valid() && Matches(InLines) ==>
        |OutVertices| == GetRequiredVertexCount() && |OutIndices| == GetRequiredIndexCount()
        && (forall i :: 0 <= i < |OutIndices| ==> 0 <= OutIndices[i] < |OutVertices|)
    {
      OutVertices := BuildVertices(InLines);
      OutIndices := BuildTriangles(|InLines| - 1);
      if Valid() && Matches(InLines) {
        MeshMatchesAllocation(InLines);
      }
    }

    /** BuildClothMesh's vertex loop: one vertex per point, row after row. */
    static method BuildVertices(InLines: seq<seq<Vec3>>) returns (OutVertices: seq<MeshVertex>)
      ensures OutVertices == MeshVertices(InLines)
    {
      var NumLines := |InLines|;
      var SegmentCount := NumLines - 1;
      OutVertices := [];
      var LineIdx := 0;
      while LineIdx < NumLines
        invariant 0 <= LineIdx <= NumLines
        invariant OutVertices == VerticesUpTo(InLines, LineIdx)
      {
        var AlongFrac := Ratio(LineIdx, SegmentCount);
        var NumPoints := |InLines[LineIdx]|;
        var PointIdx := 0;
        while PointIdx < NumPoints
          invariant 0 <= PointIdx <= NumPoints
          invariant OutVertices == VerticesUpTo(InLines, LineIdx) + RowVertices(InLines, LineIdx)[..PointIdx]
        {
          var Frac := Ratio(PointIdx, NumPoints - 1);
          OutVertices := OutVertices + [MeshVertex(InLines[LineIdx][PointIdx], AlongFrac, Frac)];
          PointIdx := PointIdx + 1;
        }
        assert RowVertices(InLines, LineIdx)[..PointIdx] == RowVertices(InLines, LineIdx);
        LineIdx := LineIdx + 1;
      }
    }

    /** BuildClothMesh's triangle loop: two triangles per quad, segment after segment. */
    method BuildTriangles(SegmentCount: int) returns (OutIndices: seq<int>)
      ensures OutIndices == MeshIndices(SegmentCount)
    {
      OutIndices := [];
      var SegIdx := 0;
      while SegIdx < SegmentCount
        invariant 0 <= SegIdx && (SegIdx <= SegmentCount || SegIdx == 0)
        invariant OutIndices == GridIndices(SegIdx)
      {
        var SideIdx := 0;
        while SideIdx < NumSides
          invariant 0 <= SideIdx <= SideCount()
          invariant OutIndices == GridIndices(SegIdx) + RowIndices(SegIdx, SideIdx)
        {
          var TL := GetVertIndex(SegIdx, SideIdx);
          var BL := GetVertIndex(SegIdx + 1, SideIdx);
          var TR := GetVertIndex(SegIdx, SideIdx + 1);
          var BR := GetVertIndex(SegIdx + 1, SideIdx + 1);
          OutIndices := OutIndices + [TL, BL, TR];
          OutIndices := OutIndices + [TR, BL, BR];
          SideIdx := SideIdx + 1;
        }
        SegIdx := SegIdx + 1;
      }
    }
  }

  /**
   * The rows of points SendRenderDynamicData_Concurrent copies for the proxy:
   * one list per row and one point per position, mapped back into component
   * space when the cloth is simulated in world space.
   */
  function DynamicPoints(lines: seq<LineSpec.LineState>, ProcessWorldSpace: bool,
                         InverseTransformPosition: Vec3 -> Vec3): (r: seq<seq<Vec3>>)
    ensures |r| == |lines|
    ensures forall LineIdx :: 0 <= LineIdx < |lines| ==> |r[LineIdx]| == |lines[LineIdx].Positions|
  {
    seq(|lines|, LineIdx requires 0 <= LineIdx < |lines| =>
      var Positions := lines[LineIdx].Positions;
      seq(|Positions|, PointIdx requires 0 <= PointIdx < |Positions| =>
        if ProcessWorldSpace then InverseTransformPosition(Positions[PointIdx]) else Positions[PointIdx]))
  }

  /**
   * The cloth OnRegister builds fits the proxy created from the same settings:
   * its vertex and index lists have the allocated sizes and every index names
   * a vertex.
   */
  lemma InitialGridFitsProxy(c: GridSpec.Config, t: GridSpec.Transform, safeNormal: Vec3 -> Vec3,
                             InverseTransformPosition: Vec3 -> Vec3)
    requires 1 <= c.NumSegments && 1 <= c.NumSides
    ensures var proxy := SceneProxy(c.NumSegments, c.NumSides);
      var InLines := DynamicPoints(GridSpec.InitialGrid(c, t, safeNormal), c.ProcessWorldSpace, InverseTransformPosition);
      && proxy.Valid() && proxy.Matches(InLines)
      && |MeshVertices(InLines)| == proxy.GetRequiredVertexCount()
      && |proxy.MeshIndices(c.NumSegments)| == proxy.GetRequiredIndexCount()
      && forall i :: 0 <= i < |proxy.MeshIndices(c.NumSegments)| ==>
           0 <= proxy.MeshIndices(c.NumSegments)[i] < |MeshVertices(InLines)|
  {
    var proxy := SceneProxy(c.NumSegments, c.NumSides);
    var g := GridSpec.InitialGrid(c, t, safeNormal);
    var InLines := DynamicPoints(g, c.ProcessWorldSpace, InverseTransformPosition);
    forall LineIdx | 0 <= LineIdx < |InLines| ensures |InLines[LineIdx]| == c.NumSides + 1 {
      GridSpec.InitialGridLayout(c, t, safeNormal, LineIdx, 0);
    }
    proxy.MeshMatchesAllocation(InLines);
  }

  lemma MulMonotone(a: int, b: int, k: int)
    requires 0 <= a <= b && 0 <= k
    ensures a * k <= b * k
  {
  }

  /** Division and remainder by `w` are unique. */
  lemma DivModUnique(v: int, w: int, q: int, r: int)
    requires 0 < w && 0 <= r < w && v == q * w + r
    ensures v / w == q && v % w == r
  {
    var q', r' := v / w, v % w;
    assert v == q' * w + r';
    if q' < q {
      MulMonotone(1, q - q', w);
    } else if q < q' {
      MulMonotone(1, q' - q, w);
    }
  }
}
