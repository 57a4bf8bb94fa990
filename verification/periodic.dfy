/** The periodic simulation box: wrapping a position into the box (`pos_periodic_boundary`)
    and the minimum-image convention (`dist_periodic_boundary`,
    `dist_vect_periodic_boundary`, `radial_dist_periodic_boundary`). The `%` of the
    source is floor-modulo: its result carries the sign of the box length. */
module Periodic {
  import opened Vectors

  /** `q` is a whole number. */
  predicate IsWhole(q: real)
  {
    q.Floor as real == q
  }

  /** `u` and `v` differ by a whole multiple of `L`. */
  predicate Congruent(u: real, v: real, L: real)
    requires L > 0.0
  {
    IsWhole((u - v) / L)
  }

  function Abs(x: real): real { if x < 0.0 then -x else x }

  lemma MulMonotone(L: real, a: real, b: real)
    requires L > 0.0 && a <= b
    ensures L * a <= L * b
  {
    MulNonNegative(L, b - a);
  }

  /** Dividing by a positive `L` has one answer. */
  lemma QuotientUnique(L: real, x: real, q: real, p: real)
    requires L > 0.0 && L * q == x && L * p == x
    ensures q == p
  {
    if q < p {
      MulPositive(L, p - q);
    } else if p < q {
      MulPositive(L, q - p);
    }
  }

  /** Congruence means differing by `k*L` for an integer `k`: the witness. */
  lemma CongruentWitness(u: real, v: real, L: real) returns (k: int)
    requires L > 0.0 && Congruent(u, v, L)
    ensures u - v == L * k as real
  {
    k := ((u - v) / L).Floor;
  }

  /** ... and an integer multiple of `L` makes two numbers congruent. */
  lemma CongruentFromMultiple(u: real, v: real, L: real, k: int)
    requires L > 0.0 && u - v == L * k as real
    ensures Congruent(u, v, L)
  {
    QuotientUnique(L, u - v, (u - v) / L, k as real);
  }

  lemma CongruentNegated(u: real, v: real, L: real)
    requires L > 0.0 && Congruent(u, v, L)
    ensures Congruent(-u, -v, L)
  {
    var k := CongruentWitness(u, v, L);
    CongruentFromMultiple(-u, -v, L, -k);
  }

  /** With `x == L*q` and `f` the floor of `q`, `x` lies in `[L*f, L*f + L)`. */
  lemma FloorBounds(x: real, L: real, q: real, f: int)
    requires L > 0.0 && x == L * q && f as real <= q < f as real + 1.0
    ensures L * f as real <= x < L * f as real + L
  {
    MulNonNegative(L, q - f as real);
    MulPositive(L, f as real + 1.0 - q);
  }

  /** A multiple `s == k*L` that lies in `[0, 2L)` is `0` or `L`. */
  lemma MultipleInTwoBoxes(L: real, k: int, s: real)
    requires L > 0.0 && s == L * k as real && 0.0 <= s < 2.0 * L
    ensures k == 0 || k == 1
    ensures s == 0.0 || s == L
  {
    if k < 0 {
      MulMonotone(L, k as real, -1.0);
    } else if k > 1 {
      MulMonotone(L, 2.0, k as real);
    }
  }

  /** A multiple `s == k*L` strictly between `-L` and `L` is zero. */
  lemma MultipleInOpenBox(L: real, k: int, s: real)
    requires L > 0.0 && s == L * k as real && -L < s < L
    ensures s == 0.0
  {
    if k < 0 {
      MulMonotone(L, k as real, -1.0);
    } else if k > 0 {
      MulMonotone(L, 1.0, k as real);
    }
  }

  /** `L*k` splits along `k == (k - j) + j`. */
  lemma ScaleSplit(L: real, k: int, j: int)
    ensures L * k as real == L * (k - j) as real + L * j as real
  {}

  /** `x % L` for `L > 0`: floor-modulo, which lands in `[0, L)` and differs from `x`
      by a whole multiple of `L`. */
  function FloorMod(x: real, L: real): (r: real)
    requires L > 0.0
    ensures 0.0 <= r < L
    ensures Congruent(r, x, L)
  {
    var f := (x / L).Floor;
    FloorBounds(x, L, x / L, f);
    CongruentFromMultiple(x - L * f as real, x, L, -f);
    x - L * f as real
  }

  /** A number already in `[0, L)` is its own residue, so wrapping twice is wrapping once. */
  lemma FloorModOfResidue(x: real, L: real)
    requires L > 0.0 && 0.0 <= x < L
    ensures FloorMod(x, L) == x
  {
    var f := (x / L).Floor;
    FloorBounds(x, L, x / L, f);
    MultipleInOneBox(L, f, x);
  }

  /** An integer multiple `L*f` with `L*f <= x < L*f + L` for `x` in `[0, L)` is zero. */
  lemma MultipleInOneBox(L: real, f: int, x: real)
    requires L > 0.0 && 0.0 <= x < L && L * f as real <= x < L * f as real + L
    ensures f == 0
  {
    if f < 0 {
      MulMonotone(L, f as real, -1.0);
    } else if f > 0 {
      MulMonotone(L, 1.0, f as real);
    }
  }

  lemma FloorModIdempotent(x: real, L: real)
    requires L > 0.0
    ensures FloorMod(FloorMod(x, L), L) == FloorMod(x, L)
  {
    FloorModOfResidue(FloorMod(x, L), L);
  }

  /** The residues of `x` and `-x` sum to `0` (when `x` is a multiple of `L`) or to `L`. */
  lemma ResiduesComplement(x: real, L: real)
    requires L > 0.0
    ensures FloorMod(x, L) + FloorMod(-x, L) == 0.0 || FloorMod(x, L) + FloorMod(-x, L) == L
    ensures FloorMod(x, L) + FloorMod(-x, L) == 0.0 <==> FloorMod(x, L) == 0.0
  {
    var k1 := CongruentWitness(FloorMod(x, L), x, L);
    var k2 := CongruentWitness(FloorMod(-x, L), -x, L);
    assert FloorMod(x, L) + FloorMod(-x, L) == L * (k1 + k2) as real;
    MultipleInTwoBoxes(L, k1 + k2, FloorMod(x, L) + FloorMod(-x, L));
  }

  /** `dist_periodic_boundary(a, b, L)`: `argmin` over the forward residue `(b-a)%L`
      and the backward residue `(a-b)%L` picks index 0 unless the backward one is
      strictly smaller; index 0 returns the forward residue, index 1 the negated
      backward one. */
  function MinImageDelta(a: real, b: real, L: real): (d: real)
    requires L > 0.0
    ensures Congruent(d, b - a, L)
    ensures -L / 2.0 <= d <= L / 2.0
  {
    var forward := FloorMod(b - a, L);
    var backward := FloorMod(a - b, L);
    ResiduesComplement(b - a, L);
    if forward <= backward then
      forward
    else
      CongruentNegated(backward, a - b, L);
      -backward
  }

  /** A tie between the two residues happens exactly when the displacement is a whole
      number of boxes or half a box; argmin then takes index 0, the forward residue. */
  lemma MinImageTie(a: real, b: real, L: real)
    requires L > 0.0
    ensures (FloorMod(b - a, L) == FloorMod(a - b, L))
              <==> (FloorMod(b - a, L) == 0.0 || FloorMod(b - a, L) == L / 2.0)
    ensures (FloorMod(b - a, L) == FloorMod(a - b, L))
              ==> (MinImageDelta(a, b, L) == FloorMod(b - a, L) >= 0.0)
  {
    ResiduesComplement(b - a, L);
    assert a - b == -(b - a);
  }

  /** Swapping the two points negates the displacement except at the half-box tie,
      where both orders return `+L/2`. */
  lemma MinImageAntisymmetric(a: real, b: real, L: real)
    requires L > 0.0
    ensures MinImageDelta(b, a, L) == -MinImageDelta(a, b, L) <==> FloorMod(b - a, L) != L / 2.0
  {
    MinImageTie(a, b, L);
  }

  /** Of all the images `b - a + k*L`, the minimum-image displacement is a nearest one. */
  lemma MinImageIsNearest(a: real, b: real, L: real, k: int)
    requires L > 0.0
    ensures Abs(MinImageDelta(a, b, L)) <= Abs(b - a + L * k as real)
  {
    var d := MinImageDelta(a, b, L);
    var j := CongruentWitness(d, b - a, L);
    ScaleSplit(L, k, j);
    ShiftedImage(L, d, k - j, b - a + L * k as real);
  }

  /** Shifting a displacement of at most half a box by a non-zero number of boxes
      cannot bring it closer to zero. */
  lemma ShiftedImage(L: real, d: real, m: int, s: real)
    requires L > 0.0 && -L / 2.0 <= d <= L / 2.0 && s == d + L * m as real
    ensures Abs(d) <= Abs(s)
  {
    if m >= 1 {
      MulMonotone(L, 1.0, m as real);
      assert s >= L / 2.0;
    } else if m <= -1 {
      MulMonotone(L, m as real, -1.0);
      assert s <= -L / 2.0;
    } else {
      assert s == d;
    }
  }

  /** The two worked cases of the convention: in a box of length 10 the points 1 and 9
      are 2 apart across the boundary, and half a box is reported as `+5` both ways. */
  lemma MinImageExamples()
    ensures MinImageDelta(1.0, 9.0, 10.0) == -2.0
    ensures MinImageDelta(0.0, 5.0, 10.0) == 5.0 && MinImageDelta(5.0, 0.0, 10.0) == 5.0
  {
    FloorModOfResidue(8.0, 10.0);
    assert FloorMod(8.0, 10.0) == 8.0;
    CongruentFromMultiple(2.0, -8.0, 10.0, 1);
    FloorModOfResidue(2.0, 10.0);
    assert FloorMod(-8.0, 10.0) == FloorMod(2.0, 10.0) by {
      FloorModCongruent(-8.0, 2.0, 10.0);
    }
    FloorModOfResidue(5.0, 10.0);
    FloorModCongruent(-5.0, 5.0, 10.0);
    CongruentFromMultiple(5.0, -5.0, 10.0, 1);
  }

  /** Congruent numbers have the same residue. */
  lemma FloorModCongruent(x: real, y: real, L: real)
    requires L > 0.0 && Congruent(x, y, L)
    ensures FloorMod(x, L) == FloorMod(y, L)
  {
    var kx := CongruentWitness(FloorMod(x, L), x, L);
    var ky := CongruentWitness(FloorMod(y, L), y, L);
    var kxy := CongruentWitness(x, y, L);
    var k := kx - ky + kxy;
    assert FloorMod(x, L) - FloorMod(y, L) == L * k as real;
    MultipleInOpenBox(L, k, FloorMod(x, L) - FloorMod(y, L));
  }

  /** The box lengths `boxlengths` are positive along every axis. */
  predicate ValidBox(box: Vec3)
  {
    box.x > 0.0 && box.y > 0.0 && box.z > 0.0
  }

  predicate InBox(p: Vec3, box: Vec3)
  {
    0.0 <= p.x < box.x && 0.0 <= p.y < box.y && 0.0 <= p.z < box.z
  }

  /** `pos_periodic_boundary(a, boxlengths)`: `a % boxlengths` axis by axis. */
  function Wrap(p: Vec3, box: Vec3): (w: Vec3)
    requires ValidBox(box)
    ensures InBox(w, box)
    ensures Congruent(w.x, p.x, box.x) && Congruent(w.y, p.y, box.y) && Congruent(w.z, p.z, box.z)
  {
    Vec3(FloorMod(p.x, box.x), FloorMod(p.y, box.y), FloorMod(p.z, box.z))
  }

  lemma WrapIdempotent(p: Vec3, box: Vec3)
    requires ValidBox(box)
    ensures Wrap(Wrap(p, box), box) == Wrap(p, box)
  {
    FloorModIdempotent(p.x, box.x);
    FloorModIdempotent(p.y, box.y);
    FloorModIdempotent(p.z, box.z);
  }

  /** A position already inside the box is left where it is. */
  lemma WrapInside(p: Vec3, box: Vec3)
    requires ValidBox(box) && InBox(p, box)
    ensures Wrap(p, box) == p
  {
    FloorModOfResidue(p.x, box.x);
    FloorModOfResidue(p.y, box.y);
    FloorModOfResidue(p.z, box.z);
  }

  /** The minimum-image displacement vector from `a` to `b`. */
  function MinImageVector(a: Vec3, b: Vec3, box: Vec3): (d: Vec3)
    requires ValidBox(box)
    ensures -box.x / 2.0 <= d.x <= box.x / 2.0
    ensures -box.y / 2.0 <= d.y <= box.y / 2.0
    ensures -box.z / 2.0 <= d.z <= box.z / 2.0
  {
    Vec3(MinImageDelta(a.x, b.x, box.x), MinImageDelta(a.y, b.y, box.y), MinImageDelta(a.z, b.z, box.z))
  }

  /** No axis of the displacement from `a` to `b` sits at the half-box tie. */
  predicate NoHalfBoxTie(a: Vec3, b: Vec3, box: Vec3)
    requires ValidBox(box)
  {
    FloorMod(b.x - a.x, box.x) != box.x / 2.0
    && FloorMod(b.y - a.y, box.y) != box.y / 2.0
    && FloorMod(b.z - a.z, box.z) != box.z / 2.0
  }

  lemma MinImageVectorAntisymmetric(a: Vec3, b: Vec3, box: Vec3)
    requires ValidBox(box)
    ensures MinImageVector(b, a, box) == Neg(MinImageVector(a, b, box)) <==> NoHalfBoxTie(a, b, box)
  {
    MinImageAntisymmetric(a.x, b.x, box.x);
    MinImageAntisymmetric(a.y, b.y, box.y);
    MinImageAntisymmetric(a.z, b.z, box.z);
  }

  /** `dist_vect_periodic_boundary`: start from `0*a` and fill the three axes in a loop. */
  method DistVect(a: Vec3, b: Vec3, box: Vec3) returns (d: Vec3)
    requires ValidBox(box)
    ensures d == MinImageVector(a, b, box)
  {
    var newv := new real[3](_ => 0.0);
    for i := 0 to 3
      invariant forall k :: 0 <= k < i ==> newv[k] == MinImageDelta(Coord(a, k), Coord(b, k), Coord(box, k))
    {
      newv[i] := MinImageDelta(Coord(a, i), Coord(b, i), Coord(box, i));
    }
    d := Vec3(newv[0], newv[1], newv[2]);
  }

  /** `radial_dist_periodic_boundary`: the length of the minimum-image displacement. */
  function RadialDist(a: Vec3, b: Vec3, box: Vec3, sqrt: real -> real): real
    requires ValidBox(box)
  {
    Norm(MinImageVector(a, b, box), sqrt)
  }

  /** The distance does not depend on the order of the two points, tie or not: at the
      half-box tie both orders give `+L/2`, which has the same square. */
  lemma RadialDistSymmetric(a: Vec3, b: Vec3, box: Vec3, sqrt: real -> real)
    requires ValidBox(box)
    ensures RadialDist(a, b, box, sqrt) == RadialDist(b, a, box, sqrt)
  {
    MinImageSquareSymmetric(a.x, b.x, box.x);
    MinImageSquareSymmetric(a.y, b.y, box.y);
    MinImageSquareSymmetric(a.z, b.z, box.z);
    SameSquaresSameNorm(MinImageVector(a, b, box), MinImageVector(b, a, box), sqrt);
  }

  /** The squared length of the displacement does not depend on the order of the points. */
  lemma MinImageDotSymmetric(a: Vec3, b: Vec3, box: Vec3)
    requires ValidBox(box)
    ensures Dot(MinImageVector(b, a, box), MinImageVector(b, a, box))
            == Dot(MinImageVector(a, b, box), MinImageVector(a, b, box))
  {
    var d := MinImageVector(a, b, box);
    var e := MinImageVector(b, a, box);
    MinImageSquareSymmetric(a.x, b.x, box.x);
    MinImageSquareSymmetric(a.y, b.y, box.y);
    MinImageSquareSymmetric(a.z, b.z, box.z);
    SameSquaresSameDot(e, d);
  }

  lemma MinImageSquareSymmetric(a: real, b: real, L: real)
    requires L > 0.0
    ensures Square(MinImageDelta(b, a, L)) == Square(MinImageDelta(a, b, L))
  {
    MinImageAntisymmetric(a, b, L);
    MinImageTie(a, b, L);
    MinImageTie(b, a, L);
  }

  /** The distance is at most half the box diagonal. */
  lemma RadialDistBound(a: Vec3, b: Vec3, box: Vec3, sqrt: real -> real)
    requires ValidBox(box) && IsSqrt(sqrt)
    ensures Square(RadialDist(a, b, box, sqrt)) <= Dot(box, box) / 4.0
  {
    var d := MinImageVector(a, b, box);
    NormProperties(d, sqrt);
    SquareHalfBound(d.x, box.x);
    SquareHalfBound(d.y, box.y);
    SquareHalfBound(d.z, box.z);
    SquaresBounded(d, box);
  }

  lemma SquareHalfBound(d: real, L: real)
    requires L > 0.0 && -L / 2.0 <= d <= L / 2.0
    ensures Square(d) <= Square(L) / 4.0
  {
    var e := Abs(d);
    assert Square(d) == e * e;
    assert Square(L) / 4.0 == (L / 2.0) * (L / 2.0);
    MulMonotone(L / 2.0, e, L / 2.0);
    if e > 0.0 {
      MulMonotone(e, e, L / 2.0);
    }
  }
}
