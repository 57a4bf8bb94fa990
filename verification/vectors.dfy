/** Three-component real vectors (the length-3 numpy arrays of the simulation), the
    Euclidean length `vlength_simple` over an abstract square root, and integer powers.

    Products of a term with itself are kept behind `Square`: the solver rewrites a
    comparison such as `x * x > 0.0` into `x != 0.0` and then loses the link to the
    product, so sign facts about squares are stated about `Square(x)`. */
module Vectors {

  datatype Vec3 = Vec3(x: real, y: real, z: real)

  const Zero: Vec3 := Vec3(0.0, 0.0, 0.0)

  function Add(a: Vec3, b: Vec3): Vec3 { Vec3(a.x + b.x, a.y + b.y, a.z + b.z) }

  function Sub(a: Vec3, b: Vec3): Vec3 { Vec3(a.x - b.x, a.y - b.y, a.z - b.z) }

  function Neg(a: Vec3): Vec3 { Vec3(-a.x, -a.y, -a.z) }

  /** `c*a` for a scalar `c`. */
  function Scale(c: real, a: Vec3): Vec3 { Vec3(c * a.x, c * a.y, c * a.z) }

  /** `a/c`, component by component. */
  function Div(a: Vec3, c: real): Vec3
    requires c != 0.0
  {
    Vec3(a.x / c, a.y / c, a.z / c)
  }

  /** `(a*b).sum()` */
  function Dot(a: Vec3, b: Vec3): real { a.x * b.x + a.y * b.y + a.z * b.z }

  function Cross(a: Vec3, b: Vec3): Vec3
  {
    Vec3(a.y * b.z - a.z * b.y, a.z * b.x - a.x * b.z, a.x * b.y - a.y * b.x)
  }

  /** Component `k` of `a`, as `a[k]` indexes a numpy vector. */
  function Coord(a: Vec3, k: nat): real
    requires k < 3
  {
    if k == 0 then a.x else if k == 1 then a.y else a.z
  }

  function Square(x: real): real { x * x }

  lemma MulPositive(a: real, b: real)
    requires a > 0.0 && b > 0.0
    ensures a * b > 0.0
  {}

  lemma MulNonNegative(a: real, b: real)
    requires a >= 0.0 && b >= 0.0
    ensures a * b >= 0.0
  {}

  lemma SquarePositive(x: real)
    requires x != 0.0
    ensures Square(x) > 0.0
  {
    var a := if x > 0.0 then x else -x;
    var h := a / 2.0;
    MulPositive(h, a);
    assert Square(x) == 2.0 * (h * a);
  }

  lemma SquareNonNegative(x: real)
    ensures Square(x) >= 0.0
  {
    if x != 0.0 {
      SquarePositive(x);
    }
  }

  /** The squared length is non-negative and vanishes exactly at the zero vector. */
  lemma DotSelf(a: Vec3)
    ensures Dot(a, a) >= 0.0
    ensures Dot(a, a) == 0.0 <==> a == Zero
  {
    assert Dot(a, a) == Square(a.x) + Square(a.y) + Square(a.z);
    SquareNonNegative(a.x);
    SquareNonNegative(a.y);
    SquareNonNegative(a.z);
    if a.x != 0.0 { SquarePositive(a.x); }
    if a.y != 0.0 { SquarePositive(a.y); }
    if a.z != 0.0 { SquarePositive(a.z); }
  }

  /** What the model knows of `np.sqrt`: on a non-negative argument it returns the
      non-negative root. Nothing is known about negative arguments (numpy gives NaN). */
  ghost predicate IsSqrt(sqrt: real -> real)
  {
    forall x: real :: 0.0 <= x ==> 0.0 <= sqrt(x) && Square(sqrt(x)) == x
  }

  lemma RootOf(sqrt: real -> real, x: real)
    requires IsSqrt(sqrt) && 0.0 <= x
    ensures 0.0 <= sqrt(x) && Square(sqrt(x)) == x
  {}

  /** The root of a non-negative number is zero exactly when the number is. */
  lemma RootZero(sqrt: real -> real, x: real)
    requires IsSqrt(sqrt) && 0.0 <= x
    ensures sqrt(x) == 0.0 <==> x == 0.0
  {
    RootOf(sqrt, x);
    if sqrt(x) != 0.0 {
      SquarePositive(sqrt(x));
    }
  }

  /** `vlength_simple`: the Euclidean length of `a`. */
  function Norm(a: Vec3, sqrt: real -> real): real
  {
    sqrt(Dot(a, a))
  }

  lemma NormProperties(a: Vec3, sqrt: real -> real)
    requires IsSqrt(sqrt)
    ensures Norm(a, sqrt) >= 0.0
    ensures Square(Norm(a, sqrt)) == Dot(a, a)
    ensures Norm(a, sqrt) == 0.0 <==> a == Zero
  {
    DotSelf(a);
    RootOf(sqrt, Dot(a, a));
    RootZero(sqrt, Dot(a, a));
  }

  /** Vectors whose components have the same squares have the same length. */
  lemma SameSquaresSameNorm(d: Vec3, e: Vec3, sqrt: real -> real)
    requires Square(d.x) == Square(e.x) && Square(d.y) == Square(e.y) && Square(d.z) == Square(e.z)
    ensures Norm(d, sqrt) == Norm(e, sqrt)
  {
    SameSquaresSameDot(d, e);
  }

  /** Vectors whose components have the same squares have the same squared length. */
  lemma SameSquaresSameDot(d: Vec3, e: Vec3)
    requires Square(d.x) == Square(e.x) && Square(d.y) == Square(e.y) && Square(d.z) == Square(e.z)
    ensures Dot(d, d) == Dot(e, e)
  {
    assert Dot(d, d) == Square(d.x) + Square(d.y) + Square(d.z);
    assert Dot(e, e) == Square(e.x) + Square(e.y) + Square(e.z);
  }

  /** Componentwise bounds on the squares bound the squared length. */
  lemma SquaresBounded(d: Vec3, box: Vec3)
    requires Square(d.x) <= Square(box.x) / 4.0
    requires Square(d.y) <= Square(box.y) / 4.0
    requires Square(d.z) <= Square(box.z) / 4.0
    ensures Dot(d, d) <= Dot(box, box) / 4.0
  {
    assert Dot(d, d) == Square(d.x) + Square(d.y) + Square(d.z);
    assert Dot(box, box) == Square(box.x) + Square(box.y) + Square(box.z);
  }

  /** `x**n` for a natural exponent. */
  function Pow(x: real, n: nat): (r: real)
    ensures x > 0.0 ==> r > 0.0
    ensures x != 0.0 ==> r != 0.0
  {
    if n == 0 then 1.0 else x * Pow(x, n - 1)
  }

  /** The sum of a list of vectors, accumulated from the first one on. */
  function VecSum(vs: seq<Vec3>): Vec3
  {
    if |vs| == 0 then Zero else Add(VecSum(vs[..|vs| - 1]), vs[|vs| - 1])
  }

  /** Replacing one entry changes the sum by the difference. */
  lemma {:induction false} VecSumUpdate(vs: seq<Vec3>, k: nat, v: Vec3)
    requires k < |vs|
    ensures VecSum(vs[k := v]) == Add(Sub(VecSum(vs), vs[k]), v)
    decreases |vs|
  {
    var n := |vs| - 1;
    var ws := vs[k := v];
    if k == n {
      assert ws[..n] == vs[..n];
    } else {
      assert ws[..n] == vs[..n][k := v];
      VecSumUpdate(vs[..n], k, v);
    }
  }

  /** A list of zero vectors sums to zero. */
  lemma {:induction false} VecSumZero(vs: seq<Vec3>)
    requires forall k :: 0 <= k < |vs| ==> vs[k] == Zero
    ensures VecSum(vs) == Zero
    decreases |vs|
  {
    if |vs| > 0 {
      VecSumZero(vs[..|vs| - 1]);
    }
  }
}
