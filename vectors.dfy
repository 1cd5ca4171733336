/** Exact three-component vectors standing for the engine's FVector. */
module Vectors {

  datatype Vec3 = Vec3(X: real, Y: real, Z: real)

  const Zero: Vec3 := Vec3(0.0, 0.0, 0.0)

  function Add(a: Vec3, b: Vec3): Vec3 { Vec3(a.X + b.X, a.Y + b.Y, a.Z + b.Z) }

  function Sub(a: Vec3, b: Vec3): Vec3 { Vec3(a.X - b.X, a.Y - b.Y, a.Z - b.Z) }

  /** `v * k` and `k * v` of FVector. */
  function Scale(k: real, v: Vec3): Vec3 { Vec3(k * v.X, k * v.Y, k * v.Z) }

  function Dot(a: Vec3, b: Vec3): real { a.X * b.X + a.Y * b.Y + a.Z * b.Z }

  function Cross(a: Vec3, b: Vec3): Vec3 {
    Vec3(a.Y * b.Z - a.Z * b.Y, a.Z * b.X - a.X * b.Z, a.X * b.Y - a.Y * b.X)
  }

  function LengthSquared(v: Vec3): real { Dot(v, v) }

  function Abs(x: real): real { if x < 0.0 then -x else x }

  /** `size` is FVector::Size: it returns the Euclidean length of every vector. */
  ghost predicate IsSize(size: Vec3 -> real) {
    forall v :: 0.0 <= size(v) && size(v) * size(v) == LengthSquared(v)
  }

  /** What IsSize says about one vector. */
  lemma SizeOf(size: Vec3 -> real, v: Vec3)
    requires IsSize(size)
    ensures 0.0 <= size(v) && size(v) * size(v) == LengthSquared(v)
  {
  }

  /** The zero vector has size zero. */
  lemma SizeOfZero(size: Vec3 -> real)
    requires IsSize(size)
    ensures size(Zero) == 0.0
  {
    SizeOf(size, Zero);
    SquareZero(size(Zero), LengthSquared(Zero));
  }

  /** A non-negative number whose square is zero is zero. */
  lemma SquareZero(x: real, y: real)
    requires 0.0 <= x && y == x * x && y == 0.0
    ensures x == 0.0
  {
    if x != 0.0 {
      ProductPositive(x, x, y);
      assert false;
    }
  }

  lemma ProductPositive(a: real, b: real, p: real)
    requires 0.0 < a && 0.0 < b && p == a * b
    ensures 0.0 < p
  {
  }

  /** A common base cancels out of a difference. */
  lemma SubAddCancel(base: Vec3, a: Vec3, b: Vec3)
    ensures Sub(Add(base, a), Add(base, b)) == Sub(a, b)
  {
  }

  lemma LengthSquaredScale(k: real, v: Vec3)
    ensures LengthSquared(Scale(k, v)) == k * k * LengthSquared(v)
  {
    assert (k * v.X) * (k * v.X) == k * k * (v.X * v.X);
    assert (k * v.Y) * (k * v.Y) == k * k * (v.Y * v.Y);
    assert (k * v.Z) * (k * v.Z) == k * k * (v.Z * v.Z);
  }

  /** A vector scaled by a non-zero factor is zero only if it was zero. */
  lemma ScaleZero(k: real, v: Vec3)
    ensures Scale(k, v) == Zero <==> k == 0.0 || v == Zero
  {
    if k != 0.0 && Scale(k, v) == Zero {
      assert k * v.X == 0.0 && k * v.Y == 0.0 && k * v.Z == 0.0;
    }
  }
}
