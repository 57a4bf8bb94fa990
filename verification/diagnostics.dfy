/** The virial pressure `calc_microscopic_pressure`: the ideal-gas term `N T / V` plus
    `1/(3V)` times the accumulated `-F_ij . d_ij` over the pairs `j < i`. */
module Diagnostics {
  import opened Vectors
  import opened Outcomes
  import opened Periodic
  import opened Particles
  import opened Interaction

  /** `(LJ_force(p1, p2) * dist_vect(p1.pos, p2.pos)).sum()`: one pair's `F . d`. */
  function PairVirial(p1: Particle, p2: Particle, box: Vec3, sqrt: real -> real): (v: Result<real>)
    requires ValidBox(box)
    ensures v.Failure? <==> LjForce(p1, p2, box, sqrt).Failure?
    ensures v.Failure? ==> v.error == NumericInstability
    ensures
      v.Success? && PairDistance(p1, p2, box, sqrt) >= PairCutoff(p1, p2) ==> v.value == 0.0
  {
    match LjForce(p1, p2, box, sqrt)
    case Failure(e) => Failure(e)
    case Success(f) => Success(Dot(f, Separation(p1, p2, box)))
  }

  /** Inside the cutoff, with a true square root, the pair term is `(g(r) - g(rc)) r`. */
  lemma PairVirialInsideCutoff(p1: Particle, p2: Particle, box: Vec3, sqrt: real -> real)
    requires ValidBox(box) && IsSqrt(sqrt) && PairVirial(p1, p2, box, sqrt).Success?
    requires PairDistance(p1, p2, box, sqrt) < PairCutoff(p1, p2)
    ensures
      PairVirial(p1, p2, box, sqrt).value
      == ShiftedLaw(PairEpsilon(p1, p2, sqrt), PairSigma(p1, p2), PairDistance(p1, p2, box, sqrt))
         * PairDistance(p1, p2, box, sqrt)
  {
    PairVirialForm(p1, p2, box, sqrt);
  }

  /** The pair term does not depend on the order of the pair, even at the half-box tie:
      it is `c d.d` with `c` fixed by the distance and the combining rules, and the two
      orders give displacements with the same squared components. */
  lemma PairVirialSymmetric(p1: Particle, p2: Particle, box: Vec3, sqrt: real -> real)
    requires ValidBox(box)
    ensures PairVirial(p2, p1, box, sqrt) == PairVirial(p1, p2, box, sqrt)
  {
    var d := Separation(p1, p2, box);
    var e := Separation(p2, p1, box);
    MinImageDotSymmetric(p1.pos, p2.pos, box);
    LjForceSwapped(p1, p2, box, sqrt);
    ForceAlongWork(PairEpsilon(p1, p2, sqrt), PairSigma(p1, p2), NanEpsilon(p1, p2), d, e, sqrt);
  }

  /** A position of the double loop: row `i`, with the columns `j' < j` done. Row
      `|s|` is the end of the loop. */
  predicate LoopPoint(s: seq<Particle>, i: nat, j: nat)
  {
    j <= i <= |s| && (i == |s| ==> j == 0)
  }

  /** The accumulator `Fij_rij` at a loop position: every earlier pair subtracted its
      `F . d` in loop order. A non-finite pair term spoils the sum from there on. */
  function Virial(s: seq<Particle>, i: nat, j: nat, box: Vec3, sqrt: real -> real): (w: Result<real>)
    requires ValidBox(box) && LoopPoint(s, i, j)
    ensures w.Failure? ==> w.error == NumericInstability
    decreases i, j
  {
    if j > 0 then
      match Virial(s, i, j - 1, box, sqrt)
      case Failure(e) => Failure(e)
      case Success(acc) =>
        match PairVirial(s[i], s[j - 1], box, sqrt)
        case Failure(e) => Failure(e)
        case Success(v) => Success(acc - v)
    else if i == 0 then
      Success(0.0)
    else
      Virial(s, i - 1, i - 1, box, sqrt)
  }

  function Volume(box: Vec3): (v: real)
    ensures ValidBox(box) ==> v > 0.0
  {
    MulPositiveIf(box.x, box.y);
    MulPositiveIf(box.x * box.y, box.z);
    box.x * box.y * box.z
  }

  lemma MulPositiveIf(a: real, b: real)
    ensures a > 0.0 && b > 0.0 ==> a * b > 0.0
  {
    if a > 0.0 && b > 0.0 {
      MulPositive(a, b);
    }
  }

  /** `p = N T / V + 1/(3V) * Fij_rij` for `n` particles. */
  function PressureFrom(n: nat, t: real, box: Vec3, w: real): real
    requires ValidBox(box)
  {
    n as real * t / Volume(box) + 1.0 / (3.0 * Volume(box)) * w
  }

  /** `calc_microscopic_pressure` on values: the pressure of the particle set at temperature `t`.
      It fails only with a non-finite pair term; with fewer than two particles there is
      no pair and it is the ideal-gas term. */
  function PressureOf(s: seq<Particle>, t: real, box: Vec3, sqrt: real -> real): (p: Result<real>)
    requires ValidBox(box)
    ensures p.Failure? ==> p.error == NumericInstability
    ensures |s| <= 1 ==> p == Success(|s| as real * t / Volume(box))
  {
    match Virial(s, |s|, 0, box, sqrt)
    case Failure(e) => Failure(e)
    case Success(w) => Success(PressureFrom(|s|, t, box, w))
  }

  /** Some pair visited before the loop position `(i, j)` has a non-finite force. */
  ghost predicate FailedBefore(s: seq<Particle>, i: nat, j: nat, box: Vec3, sqrt: real -> real)
    requires ValidBox(box)
  {
    exists a, b :: 0 <= b < a < |s| && (a < i || (a == i && b < j)) && LjForce(s[a], s[b], box, sqrt).Failure?
  }

  /** The accumulator is spoilt exactly when some pair visited so far has a non-finite
      force. */
  lemma {:induction false} VirialFailsIff(s: seq<Particle>, i: nat, j: nat, box: Vec3, sqrt: real -> real)
    requires ValidBox(box) && LoopPoint(s, i, j)
    ensures Virial(s, i, j, box, sqrt).Failure? <==> FailedBefore(s, i, j, box, sqrt)
    decreases i, j
  {
    if j > 0 {
      VirialFailsIff(s, i, j - 1, box, sqrt);
      VirialStepIff(s, i, j - 1, box, sqrt);
      FailedBeforeStep(s, i, j - 1, box, sqrt);
    } else if i > 0 {
      VirialFailsIff(s, i - 1, i - 1, box, sqrt);
      RowEnd(s, i - 1, box, sqrt);
      FailedBeforeRow(s, i - 1, box, sqrt);
    }
  }

  lemma VirialStepIff(s: seq<Particle>, i: nat, j: nat, box: Vec3, sqrt: real -> real)
    requires ValidBox(box) && j < i < |s|
    ensures
      Virial(s, i, j + 1, box, sqrt).Failure? <==>
        Virial(s, i, j, box, sqrt).Failure? || LjForce(s[i], s[j], box, sqrt).Failure?
  {}

  lemma FailedBeforeStep(s: seq<Particle>, i: nat, j: nat, box: Vec3, sqrt: real -> real)
    requires ValidBox(box) && j < i < |s|
    ensures
      FailedBefore(s, i, j + 1, box, sqrt) <==>
        FailedBefore(s, i, j, box, sqrt) || LjForce(s[i], s[j], box, sqrt).Failure?
  {
    if LjForce(s[i], s[j], box, sqrt).Failure? {
      assert 0 <= j < i < |s| && (i == i && j < j + 1);
    }
    if FailedBefore(s, i, j + 1, box, sqrt) && !FailedBefore(s, i, j, box, sqrt) {
      var a, b :| 0 <= b < a < |s| && (a < i || (a == i && b < j + 1)) && LjForce(s[a], s[b], box, sqrt).Failure?;
      assert a == i && b == j;
    }
  }

  lemma FailedBeforeRow(s: seq<Particle>, i: nat, box: Vec3, sqrt: real -> real)
    requires ValidBox(box) && i < |s|
    ensures FailedBefore(s, i + 1, 0, box, sqrt) <==> FailedBefore(s, i, i, box, sqrt)
  {
    if FailedBefore(s, i + 1, 0, box, sqrt) {
      var a, b :| 0 <= b < a < |s| && a < i + 1 && LjForce(s[a], s[b], box, sqrt).Failure?;
      assert a < i || (a == i && b < i);
    }
  }

  /** The pressure fails exactly when some pair `j < i` has a non-finite force. */
  lemma PressureOfFails(s: seq<Particle>, t: real, box: Vec3, sqrt: real -> real)
    requires ValidBox(box)
    ensures
      PressureOf(s, t, box, sqrt).Failure? <==>
        exists a, b :: 0 <= b < a < |s| && LjForce(s[a], s[b], box, sqrt).Failure?
  {
    VirialFailsIff(s, |s|, 0, box, sqrt);
  }

  /** Loop positions in the order the double loop visits them. */
  predicate NotAfter(i: nat, j: nat, i2: nat, j2: nat)
  {
    i < i2 || (i == i2 && j <= j2)
  }

  /** Once the accumulator is spoilt it stays spoilt. */
  lemma {:induction false} VirialFailureSticks(s: seq<Particle>, i: nat, j: nat, i2: nat, j2: nat, box: Vec3, sqrt: real -> real)
    requires ValidBox(box) && LoopPoint(s, i, j) && LoopPoint(s, i2, j2) && NotAfter(i, j, i2, j2)
    requires Virial(s, i, j, box, sqrt).Failure?
    ensures Virial(s, i2, j2, box, sqrt).Failure?
    decreases i2, j2
  {
    if i == i2 && j == j2 {
    } else if j2 > 0 {
      VirialFailureSticks(s, i, j, i2, j2 - 1, box, sqrt);
    } else {
      VirialFailureSticks(s, i, j, i2 - 1, i2 - 1, box, sqrt);
    }
  }

  /** `calc_microscopic_pressure(particleset, T, boxlengths)`: the double loop over
      `j < i` with the accumulator, then the ideal and virial terms. */
  method Pressure(ps: array<Particle>, t: real, box: Vec3, sqrt: real -> real) returns (p: Result<real>)
    requires ValidBox(box)
    ensures p == PressureOf(ps[..], t, box, sqrt)
  {
    ghost var s := ps[..];
    var fijRij := 0.0;
    for i := 0 to ps.Length
      invariant Virial(s, i, 0, box, sqrt) == Success(fijRij)
    {
      for j := 0 to i
        invariant Virial(s, i, j, box, sqrt) == Success(fijRij)
      {
        var f := LjForce(ps[i], ps[j], box, sqrt);
        if f.Failure? {
          PairFailureIsFinal(s, i, j, box, sqrt);
          return Failure(f.error);
        }
        var d := DistVect(ps[i].pos, ps[j].pos, box);
        VirialStep(s, i, j, box, sqrt, fijRij, Dot(f.value, d));
        fijRij := fijRij - Dot(f.value, d);
      }
      RowEnd(s, i, box, sqrt);
    }
    p := Success(PressureFrom(ps.Length, t, box, fijRij));
  }

  /** A pair whose force is not finite spoils the whole sum. */
  lemma PairFailureIsFinal(s: seq<Particle>, i: nat, j: nat, box: Vec3, sqrt: real -> real)
    requires ValidBox(box) && j < i < |s|
    requires Virial(s, i, j, box, sqrt).Success?
    requires PairVirial(s[i], s[j], box, sqrt).Failure?
    ensures Virial(s, |s|, 0, box, sqrt).Failure?
  {
    VirialStepFails(s, i, j, box, sqrt);
    VirialFailureSticks(s, i, j + 1, |s|, 0, box, sqrt);
  }

  lemma VirialStepFails(s: seq<Particle>, i: nat, j: nat, box: Vec3, sqrt: real -> real)
    requires ValidBox(box) && j < i < |s|
    requires Virial(s, i, j, box, sqrt).Success?
    requires PairVirial(s[i], s[j], box, sqrt).Failure?
    ensures Virial(s, i, j + 1, box, sqrt).Failure?
  {}

  lemma RowEnd(s: seq<Particle>, i: nat, box: Vec3, sqrt: real -> real)
    requires ValidBox(box) && i < |s|
    ensures Virial(s, i + 1, 0, box, sqrt) == Virial(s, i, i, box, sqrt)
  {}

  lemma VirialStep(s: seq<Particle>, i: nat, j: nat, box: Vec3, sqrt: real -> real, acc: real, v: real)
    requires ValidBox(box) && j < i < |s|
    requires Virial(s, i, j, box, sqrt) == Success(acc)
    requires PairVirial(s[i], s[j], box, sqrt) == Success(v)
    ensures Virial(s, i, j + 1, box, sqrt) == Success(acc - v)
  {}

  /** Every pair `j < i` of the set is at or beyond its (non-zero) cutoff. */
  predicate AllBeyondCutoff(s: seq<Particle>, box: Vec3, sqrt: real -> real)
    requires ValidBox(box)
  {
    forall a, b :: 0 <= b < a < |s| ==>
      PairCutoff(s[a], s[b]) != 0.0 && PairDistance(s[a], s[b], box, sqrt) >= PairCutoff(s[a], s[b])
  }

  /** Every pair at or beyond the cutoff contributes nothing to the accumulator. */
  lemma {:induction false} VirialVanishes(s: seq<Particle>, i: nat, j: nat, box: Vec3, sqrt: real -> real)
    requires ValidBox(box) && LoopPoint(s, i, j)
    requires AllBeyondCutoff(s, box, sqrt)
    ensures Virial(s, i, j, box, sqrt) == Success(0.0)
    decreases i, j
  {
    if j > 0 {
      VirialVanishes(s, i, j - 1, box, sqrt);
      VanishingStep(s, i, j - 1, box, sqrt);
    } else if i > 0 {
      VirialVanishes(s, i - 1, i - 1, box, sqrt);
    }
  }

  lemma VanishingStep(s: seq<Particle>, i: nat, j: nat, box: Vec3, sqrt: real -> real)
    requires ValidBox(box) && j < i < |s| && Virial(s, i, j, box, sqrt) == Success(0.0)
    requires PairCutoff(s[i], s[j]) != 0.0 && PairDistance(s[i], s[j], box, sqrt) >= PairCutoff(s[i], s[j])
    ensures Virial(s, i, j + 1, box, sqrt) == Success(0.0)
  {
    PairVirialVanishes(s[i], s[j], box, sqrt);
  }

  lemma PairVirialVanishes(p1: Particle, p2: Particle, box: Vec3, sqrt: real -> real)
    requires ValidBox(box) && PairCutoff(p1, p2) != 0.0
    requires PairDistance(p1, p2, box, sqrt) >= PairCutoff(p1, p2)
    ensures PairVirial(p1, p2, box, sqrt) == Success(0.0)
  {}

  /** With every pair at or beyond the cutoff the pressure is the ideal-gas value. */
  lemma IdealGasLimit(s: seq<Particle>, t: real, box: Vec3, sqrt: real -> real)
    requires ValidBox(box)
    requires AllBeyondCutoff(s, box, sqrt)
    ensures PressureOf(s, t, box, sqrt) == Success(|s| as real * t / Volume(box))
  {
    VirialVanishes(s, |s|, 0, box, sqrt);
    NoVirialTerm(|s|, t, box);
  }

  lemma NoVirialTerm(n: nat, t: real, box: Vec3)
    requires ValidBox(box)
    ensures PressureFrom(n, t, box, 0.0) == n as real * t / Volume(box)
  {}
}
