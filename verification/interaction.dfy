/** The force-shifted Lennard-Jones pair force `LJ_force`, with the Lorentz-Berthelot
    combining rules and the cutoff at `2.5 sigma`. The law is kept as written in the
    simulation: the combined `sigma` enters to the first power in both terms. */
module Interaction {
  import opened Vectors
  import opened Outcomes
  import opened Periodic
  import opened Particles

  /** Lorentz rule: the arithmetic mean of the two `sigma`s. */
  function CombinedSigma(s1: real, s2: real): (sigma: real)
    ensures s1 <= s2 ==> s1 <= sigma <= s2
    ensures s2 <= s1 ==> s2 <= sigma <= s1
  {
    0.5 * (s1 + s2)
  }

  /** Berthelot rule: the geometric mean of the two `epsilon`s. */
  function CombinedEpsilon(e1: real, e2: real, sqrt: real -> real): real
  {
    sqrt(e1 * e2)
  }

  function Cutoff(sigma: real): real
  {
    2.5 * sigma
  }

  /** The scalar factor of the law at distance `r`:
      `((-12 sigma / r^13) - (-6 sigma / r^7)) * 4 epsilon`. */
  function LjScalar(epsilon: real, sigma: real, r: real): real
    requires r != 0.0
  {
    ((-12.0 * sigma / Pow(r, 13)) - (-6.0 * sigma / Pow(r, 7))) * 4.0 * epsilon
  }

  /** The shifted law `g(r) - g(rc)`: the scalar law less its value at the cutoff. */
  function ShiftedLaw(epsilon: real, sigma: real, r: real): real
    requires r != 0.0 && Cutoff(sigma) != 0.0
  {
    LjScalar(epsilon, sigma, r) - LjScalar(epsilon, sigma, Cutoff(sigma))
  }

  function PairSigma(p1: Particle, p2: Particle): real
  {
    CombinedSigma(p1.ljSigma, p2.ljSigma)
  }

  function PairEpsilon(p1: Particle, p2: Particle, sqrt: real -> real): real
  {
    CombinedEpsilon(p1.ljEpsilon, p2.ljEpsilon, sqrt)
  }

  /** The product under the root of the Berthelot rule is negative, so `np.sqrt` of it
      is NaN: the two `epsilon`s are non-zero and of opposite signs. */
  predicate NanEpsilon(p1: Particle, p2: Particle)
  {
    (p1.ljEpsilon < 0.0 && p2.ljEpsilon > 0.0) || (p1.ljEpsilon > 0.0 && p2.ljEpsilon < 0.0)
  }

  function PairCutoff(p1: Particle, p2: Particle): real
  {
    Cutoff(PairSigma(p1, p2))
  }

  /** The minimum-image displacement from `p1` to `p2` (`distv`). */
  function Separation(p1: Particle, p2: Particle, box: Vec3): Vec3
    requires ValidBox(box)
  {
    MinImageVector(p1.pos, p2.pos, box)
  }

  function PairDistance(p1: Particle, p2: Particle, box: Vec3, sqrt: real -> real): real
    requires ValidBox(box)
  {
    RadialDist(p1.pos, p2.pos, box, sqrt)
  }

  /** `F_r - F_cutoff`: both laws applied along the same unit direction `(1/r) d`. */
  function ShiftedForce(g: real, gc: real, r: real, d: Vec3): (f: Vec3)
    requires r != 0.0
    ensures f == Scale((g - gc) / r, d)
  {
    ShiftedComponent(g, gc, r, d.x);
    ShiftedComponent(g, gc, r, d.y);
    ShiftedComponent(g, gc, r, d.z);
    Sub(Scale(g, Scale(1.0 / r, d)), Scale(gc, Scale(1.0 / r, d)))
  }

  lemma ShiftedComponent(g: real, gc: real, r: real, x: real)
    requires r != 0.0
    ensures g * ((1.0 / r) * x) - gc * ((1.0 / r) * x) == ((g - gc) / r) * x
  {
    var q := 1.0 / r;
    assert (g - gc) / r == (g - gc) * q;
    assert g * (q * x) - gc * (q * x) == ((g - gc) * q) * x;
  }

  /** The force-shifted law for the combined parameters `epsilon` and `sigma` along the
      displacement `d` (`distv`), with `r` its length. A zero cutoff fails whatever the
      distance: `F_cutoff` is computed before the branch and divides by `cutoff**13`.
      Inside the cutoff `F_r - F_cutoff` is not finite when `r == 0`, or when
      `nanEpsilon` says that the combined `epsilon` is the NaN root of a negative
      product. At or beyond the cutoff the zero vector is returned, even when `F_r`
      itself is not finite. */
  function ForceAlong(epsilon: real, sigma: real, nanEpsilon: bool, d: Vec3, sqrt: real -> real): (f: Result<Vec3>)
    ensures
      f.Failure? <==>
        || Cutoff(sigma) == 0.0
        || (Norm(d, sqrt) < Cutoff(sigma) && (Norm(d, sqrt) == 0.0 || nanEpsilon))
    ensures f.Failure? ==> f.error == NumericInstability
    ensures f.Success? && Norm(d, sqrt) >= Cutoff(sigma) ==> f.value == Zero
    ensures
      f.Success? && Norm(d, sqrt) < Cutoff(sigma) ==>
        f.value == Scale(ShiftedLaw(epsilon, sigma, Norm(d, sqrt)) / Norm(d, sqrt), d)
  {
    var r := Norm(d, sqrt);
    var cutoff := Cutoff(sigma);
    if cutoff == 0.0 then
      Failure(NumericInstability)
    else if r < cutoff then
      if r == 0.0 || nanEpsilon then
        Failure(NumericInstability)
      else
        Success(ShiftedForce(LjScalar(epsilon, sigma, r), LjScalar(epsilon, sigma, cutoff), r, d))
    else
      Success(Zero)
  }

  /** `LJ_force(particle1, particle2, boxlengths)`: the force on `particle1` from
      `particle2`, the shifted law with the combined parameters along the
      minimum-image displacement from `particle1` to `particle2`. */
  function LjForce(p1: Particle, p2: Particle, box: Vec3, sqrt: real -> real): (f: Result<Vec3>)
    requires ValidBox(box)
    ensures
      f.Failure? <==>
        || PairCutoff(p1, p2) == 0.0
        || (PairDistance(p1, p2, box, sqrt) < PairCutoff(p1, p2)
            && (PairDistance(p1, p2, box, sqrt) == 0.0 || NanEpsilon(p1, p2)))
    ensures f.Failure? ==> f.error == NumericInstability
    ensures
      f.Success? && PairDistance(p1, p2, box, sqrt) >= PairCutoff(p1, p2) ==> f.value == Zero
    ensures
      f.Success? && PairDistance(p1, p2, box, sqrt) < PairCutoff(p1, p2) ==>
        f.value == Scale(ShiftedLaw(PairEpsilon(p1, p2, sqrt), PairSigma(p1, p2), PairDistance(p1, p2, box, sqrt))
                         / PairDistance(p1, p2, box, sqrt),
                         Separation(p1, p2, box))
  {
    ForceAlong(PairEpsilon(p1, p2, sqrt), PairSigma(p1, p2), NanEpsilon(p1, p2), Separation(p1, p2, box), sqrt)
  }

  /** `LJ_force` in a fixed box, as a function of the two particles. */
  function LjLaw(box: Vec3, sqrt: real -> real): (law: (Particle, Particle) -> Result<Vec3>)
    requires ValidBox(box)
    ensures forall p1, p2 :: law(p1, p2) == LjForce(p1, p2, box, sqrt)
  {
    (p1, p2) => LjForce(p1, p2, box, sqrt)
  }

  /** Both combining rules are symmetric in the two particles. */
  lemma CombiningSymmetric(p1: Particle, p2: Particle, sqrt: real -> real)
    ensures PairSigma(p1, p2) == PairSigma(p2, p1)
    ensures PairEpsilon(p1, p2, sqrt) == PairEpsilon(p2, p1, sqrt)
    ensures PairCutoff(p1, p2) == PairCutoff(p2, p1)
    ensures NanEpsilon(p1, p2) == NanEpsilon(p2, p1)
  {
    assert p1.ljEpsilon * p2.ljEpsilon == p2.ljEpsilon * p1.ljEpsilon;
  }

  /** Like particles interact with their own parameters. */
  lemma CombiningLike(e: real, s: real, sqrt: real -> real)
    requires IsSqrt(sqrt) && e >= 0.0
    ensures CombinedSigma(s, s) == s
    ensures CombinedEpsilon(e, e, sqrt) == e
  {
    assert Square(e) == e * e;
    SquareNonNegative(e);
    RootOf(sqrt, Square(e));
    SquareInjective(sqrt(Square(e)), e);
  }

  /** Two non-negative numbers with the same square are equal. */
  lemma SquareInjective(a: real, b: real)
    requires a >= 0.0 && b >= 0.0 && Square(a) == Square(b)
    ensures a == b
  {
    if a < b {
      SquareIncreasing(a, b);
    } else if b < a {
      SquareIncreasing(b, a);
    }
  }

  lemma SquareIncreasing(a: real, b: real)
    requires 0.0 <= a < b
    ensures Square(a) < Square(b)
  {
    ProductIncreasing(a, b);
  }

  lemma ProductIncreasing(a: real, b: real)
    requires 0.0 <= a < b
    ensures a * a < b * b
  {
    MulPositive(b - a, b + a);
  }

  /** At or beyond a non-zero cutoff the pair does not interact. */
  lemma ForceVanishesBeyondCutoff(p1: Particle, p2: Particle, box: Vec3, sqrt: real -> real)
    requires ValidBox(box) && PairCutoff(p1, p2) != 0.0
    requires PairDistance(p1, p2, box, sqrt) >= PairCutoff(p1, p2)
    ensures LjForce(p1, p2, box, sqrt) == Success(Zero)
  {}

  lemma CrossScaled(c: real, d: Vec3)
    ensures Cross(Scale(c, d), d) == Zero
  {
    assert (c * d.y) * d.z == (c * d.z) * d.y;
    assert (c * d.z) * d.x == (c * d.x) * d.z;
    assert (c * d.x) * d.y == (c * d.y) * d.x;
  }

  /** The force acts along the minimum-image displacement: it is parallel to `distv`. */
  lemma ForceParallel(p1: Particle, p2: Particle, box: Vec3, sqrt: real -> real)
    requires ValidBox(box) && LjForce(p1, p2, box, sqrt).Success?
    ensures Cross(LjForce(p1, p2, box, sqrt).value, Separation(p1, p2, box)) == Zero
  {
    var d := Separation(p1, p2, box);
    if PairDistance(p1, p2, box, sqrt) < PairCutoff(p1, p2) {
      var r := PairDistance(p1, p2, box, sqrt);
      var c := ShiftedLaw(PairEpsilon(p1, p2, sqrt), PairSigma(p1, p2), r) / r;
      CrossScaled(c, d);
    }
  }

  /** With a true square root and a positive cutoff the force fails exactly for
      coincident (minimum-image) positions, or for a pair inside the cutoff whose
      `epsilon`s have a negative product. */
  lemma ForceFailsIffCoincident(p1: Particle, p2: Particle, box: Vec3, sqrt: real -> real)
    requires ValidBox(box) && IsSqrt(sqrt) && PairCutoff(p1, p2) > 0.0
    ensures
      LjForce(p1, p2, box, sqrt).Failure? <==>
        || Separation(p1, p2, box) == Zero
        || (PairDistance(p1, p2, box, sqrt) < PairCutoff(p1, p2) && NanEpsilon(p1, p2))
  {
    NormProperties(Separation(p1, p2, box), sqrt);
  }

  lemma NormOfNeg(d: Vec3, sqrt: real -> real)
    ensures Norm(Neg(d), sqrt) == Norm(d, sqrt)
  {
    assert Dot(Neg(d), Neg(d)) == Dot(d, d);
  }

  lemma ScaleNeg(c: real, d: Vec3)
    ensures Scale(c, Neg(d)) == Neg(Scale(c, d))
  {}

  /** Reversing the displacement reverses the law: the same case applies and a force
      changes sign. */
  lemma ForceAlongNeg(epsilon: real, sigma: real, nanEpsilon: bool, d: Vec3, sqrt: real -> real)
    ensures ForceAlong(epsilon, sigma, nanEpsilon, Neg(d), sqrt).Success?
            == ForceAlong(epsilon, sigma, nanEpsilon, d, sqrt).Success?
    ensures
      ForceAlong(epsilon, sigma, nanEpsilon, d, sqrt).Success? ==>
        ForceAlong(epsilon, sigma, nanEpsilon, Neg(d), sqrt).value
        == Neg(ForceAlong(epsilon, sigma, nanEpsilon, d, sqrt).value)
  {
    NormOfNeg(d, sqrt);
    var r := Norm(d, sqrt);
    if ForceAlong(epsilon, sigma, nanEpsilon, d, sqrt).Success? && r < Cutoff(sigma) {
      ScaleNeg(ShiftedLaw(epsilon, sigma, r) / r, d);
    }
  }

  /** Newton's third law, away from the half-box tie: swapping the particles negates
      the force, and one order fails exactly when the other does. */
  lemma ForceAntisymmetric(p1: Particle, p2: Particle, box: Vec3, sqrt: real -> real)
    requires ValidBox(box) && NoHalfBoxTie(p1.pos, p2.pos, box)
    ensures LjForce(p2, p1, box, sqrt).Success? == LjForce(p1, p2, box, sqrt).Success?
    ensures
      LjForce(p1, p2, box, sqrt).Success? ==>
        LjForce(p2, p1, box, sqrt).value == Neg(LjForce(p1, p2, box, sqrt).value)
  {
    var d := Separation(p1, p2, box);
    MinImageVectorAntisymmetric(p1.pos, p2.pos, box);
    LjForceSwapped(p1, p2, box, sqrt);
    ForceAlongNeg(PairEpsilon(p1, p2, sqrt), PairSigma(p1, p2), NanEpsilon(p1, p2), d, sqrt);
  }

  /** The swapped pair has the same combined parameters and the reversed separation. */
  lemma LjForceSwapped(p1: Particle, p2: Particle, box: Vec3, sqrt: real -> real)
    requires ValidBox(box)
    ensures
      LjForce(p2, p1, box, sqrt)
      == ForceAlong(PairEpsilon(p1, p2, sqrt), PairSigma(p1, p2), NanEpsilon(p1, p2), Separation(p2, p1, box), sqrt)
  {
    CombiningSymmetric(p1, p2, sqrt);
  }

  /** Along two displacements of the same length the law fails together and does the
      same work `F . d`. */
  lemma ForceAlongWork(epsilon: real, sigma: real, nanEpsilon: bool, d: Vec3, e: Vec3, sqrt: real -> real)
    requires Dot(e, e) == Dot(d, d)
    ensures ForceAlong(epsilon, sigma, nanEpsilon, e, sqrt).Success?
            == ForceAlong(epsilon, sigma, nanEpsilon, d, sqrt).Success?
    ensures
      ForceAlong(epsilon, sigma, nanEpsilon, d, sqrt).Success? ==>
        Dot(ForceAlong(epsilon, sigma, nanEpsilon, e, sqrt).value, e)
        == Dot(ForceAlong(epsilon, sigma, nanEpsilon, d, sqrt).value, d)
  {
    var r := Norm(d, sqrt);
    assert Norm(e, sqrt) == r;
    if ForceAlong(epsilon, sigma, nanEpsilon, d, sqrt).Success? && r < Cutoff(sigma) {
      var c := ShiftedLaw(epsilon, sigma, r) / r;
      DotScaled(c, d);
      DotScaled(c, e);
      ScaledEqual(c, Dot(e, e), Dot(d, d));
    }
  }

  lemma ScaledEqual(c: real, x: real, y: real)
    requires x == y
    ensures c * x == c * y
  {}

  lemma DotScaled(c: real, d: Vec3)
    ensures Dot(Scale(c, d), d) == c * Dot(d, d)
  {
    assert (c * d.x) * d.x + (c * d.y) * d.y + (c * d.z) * d.z == c * (d.x * d.x + d.y * d.y + d.z * d.z);
  }

  lemma QuotientTimesSquare(k: real, r: real, q: real, m: real)
    requires m * r == k && q == Square(r)
    ensures m * q == k * r
  {
    assert m * (r * r) == (m * r) * r;
  }

  /** The pair's contribution to the virial inside the cutoff: `F . d` is
      `(g(r) - g(rc)) * r`, with `g` the scalar law. */
  lemma PairVirialForm(p1: Particle, p2: Particle, box: Vec3, sqrt: real -> real)
    requires ValidBox(box) && IsSqrt(sqrt) && LjForce(p1, p2, box, sqrt).Success?
    requires PairDistance(p1, p2, box, sqrt) < PairCutoff(p1, p2)
    ensures
      Dot(LjForce(p1, p2, box, sqrt).value, Separation(p1, p2, box))
      == ShiftedLaw(PairEpsilon(p1, p2, sqrt), PairSigma(p1, p2), PairDistance(p1, p2, box, sqrt))
         * PairDistance(p1, p2, box, sqrt)
  {
    var d := Separation(p1, p2, box);
    var r := PairDistance(p1, p2, box, sqrt);
    var k := ShiftedLaw(PairEpsilon(p1, p2, sqrt), PairSigma(p1, p2), r);
    NormProperties(d, sqrt);
    VirialOfScaled(k, r, d, LjForce(p1, p2, box, sqrt).value);
  }

  lemma VirialOfScaled(k: real, r: real, d: Vec3, f: Vec3)
    requires r != 0.0 && f == Scale(k / r, d) && Dot(d, d) == Square(r)
    ensures Dot(f, d) == k * r
  {
    var m := k / r;
    DotScaled(m, d);
    QuotientTimesSquare(k, r, Dot(d, d), m);
  }
}
