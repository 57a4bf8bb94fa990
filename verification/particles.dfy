/** Lennard-Jones particles and the thermodynamic read-outs over a particle set: kinetic
    energy (`calc_kinetic_energy`), the microscopic temperature
    (`calc_microscopic_temperature`) and the velocity-rescaling thermostat
    (`set_microscopic_temperature`). Temperatures are in units where `kB == 1`. */
module Particles {
  import opened Vectors
  import opened Outcomes
  import opened Sums

  /** `LJ_Particle`: position, velocity, acceleration, the two Lennard-Jones parameters
      and the mass, in the order of its constructor. */
  datatype Particle = Particle(pos: Vec3, velo: Vec3, acc: Vec3, ljEpsilon: real, ljSigma: real, mass: real)

  /** Every particle carries a positive mass. */
  predicate PositiveMasses(s: seq<Particle>)
  {
    forall i :: 0 <= i < |s| ==> s[i].mass > 0.0
  }

  predicate AtRest(s: seq<Particle>)
  {
    forall i :: 0 <= i < |s| ==> s[i].velo == Zero
  }

  /** `mass*0.5*(velo*velo).sum()` for one particle. */
  function KineticTerm(p: Particle): real
  {
    p.mass * 0.5 * Dot(p.velo, p.velo)
  }

  lemma KineticTermSign(p: Particle)
    requires p.mass > 0.0
    ensures KineticTerm(p) >= 0.0
    ensures KineticTerm(p) == 0.0 <==> p.velo == Zero
  {
    var m, d := p.mass * 0.5, Dot(p.velo, p.velo);
    DotSelf(p.velo);
    WeightedSign(m, d);
    assert KineticTerm(p) == m * d;
  }

  /** A positive weight times a non-negative amount is non-negative, and zero only with it. */
  lemma WeightedSign(m: real, d: real)
    requires m > 0.0 && d >= 0.0
    ensures m * d >= 0.0
    ensures m * d == 0.0 <==> d == 0.0
  {
    if d > 0.0 {
      MulPositive(m, d);
    }
  }

  /** The per-particle kinetic energies, in list order. */
  function Energies(s: seq<Particle>): (r: seq<real>)
    ensures |r| == |s|
    ensures forall i :: 0 <= i < |s| ==> r[i] == KineticTerm(s[i])
  {
    seq(|s|, i requires 0 <= i < |s| => KineticTerm(s[i]))
  }

  /** The kinetic energy of the particle set, summed from the first particle on. */
  function KineticEnergy(s: seq<Particle>): real
  {
    Sum(Energies(s))
  }

  /** For massive particles the kinetic energy is non-negative and vanishes exactly
      when every particle is at rest. */
  lemma KineticEnergySign(s: seq<Particle>)
    requires PositiveMasses(s)
    ensures KineticEnergy(s) >= 0.0
    ensures KineticEnergy(s) == 0.0 <==> AtRest(s)
  {
    var es := Energies(s);
    forall i | 0 <= i < |s|
      ensures es[i] >= 0.0 && (es[i] == 0.0 <==> s[i].velo == Zero)
    {
      KineticTermSign(s[i]);
    }
    SumNonNegative(es);
  }

  /** `calc_kinetic_energy`: the accumulator loop over the particle list. */
  method SumKineticEnergy(ps: array<Particle>) returns (ekin: real)
    ensures ekin == KineticEnergy(ps[..])
  {
    ekin := 0.0;
    for i := 0 to ps.Length
      invariant ekin == KineticEnergy(ps[..i])
    {
      assert Energies(ps[..i + 1]) == Energies(ps[..i]) + [KineticTerm(ps[i])];
      SumAppend(Energies(ps[..i]), KineticTerm(ps[i]));
      ekin := ekin + ps[i].mass * 0.5 * Dot(ps[i].velo, ps[i].velo);
    }
    assert ps[..ps.Length] == ps[..];
  }

  /** `calc_microscopic_temperature`: `KE/(1.5*N)`. Python raises `ZeroDivisionError`
      for an empty set. */
  function Temperature(s: seq<Particle>): (t: Result<real>)
    ensures t.Failure? <==> |s| == 0
    ensures t.Failure? ==> t.error == EmptySystem
    ensures t.Success? ==> t.value * (1.5 * |s| as real) == KineticEnergy(s)
    ensures t.Success? && PositiveMasses(s) ==> t.value >= 0.0
  {
    if |s| == 0 then
      Failure(EmptySystem)
    else
      var n := 1.5 * |s| as real;
      var e := KineticEnergy(s);
      QuotientTimesDivisor(e, n);
      if PositiveMasses(s) then
        KineticEnergySign(s);
        QuotientSign(e, n);
        Success(e / n)
      else
        Success(e / n)
  }

  lemma QuotientTimesDivisor(e: real, n: real)
    requires n > 0.0
    ensures (e / n) * n == e
  {}

  /** Every velocity multiplied by the same `factor`; nothing else changes. */
  function ScaleVelocities(s: seq<Particle>, factor: real): (r: seq<Particle>)
    ensures |r| == |s|
    ensures forall i :: 0 <= i < |s| ==> r[i].velo == Scale(factor, s[i].velo)
    ensures forall i :: 0 <= i < |s| ==> r[i].(velo := s[i].velo) == s[i]
  {
    seq(|s|, i requires 0 <= i < |s| => s[i].(velo := Scale(factor, s[i].velo)))
  }

  lemma KineticTermScales(p: Particle, c: real)
    ensures KineticTerm(p.(velo := Scale(c, p.velo))) == Square(c) * KineticTerm(p)
  {}

  /** Scaling every velocity by `c` scales the kinetic energy by `c*c`. */
  lemma KineticEnergyScales(s: seq<Particle>, c: real)
    ensures KineticEnergy(ScaleVelocities(s, c)) == Square(c) * KineticEnergy(s)
  {
    EnergiesScale(s, c);
    SumScale(Energies(s), Square(c));
  }

  lemma EnergiesScale(s: seq<Particle>, c: real)
    ensures Energies(ScaleVelocities(s, c)) == ScaleAll(Energies(s), Square(c))
  {
    var r := ScaleVelocities(s, c);
    forall i | 0 <= i < |s|
      ensures Energies(r)[i] == ScaleAll(Energies(s), Square(c))[i]
    {
      KineticTermScales(s[i], c);
    }
  }

  /** `set_microscopic_temperature` on values: the factor `sqrt(T/T0)` applied to every
      velocity. An empty set fails as the temperature does; a set at rest (`T0 == 0`)
      divides by zero, and a negative ratio has no real root. */
  function Rescaled(s: seq<Particle>, target: real, sqrt: real -> real): (r: Result<seq<Particle>>)
    ensures r.Success? ==> |r.value| == |s|
  {
    match Temperature(s)
    case Failure(e) => Failure(e)
    case Success(t0) =>
      if t0 == 0.0 then Failure(DegenerateTemperature)
      else if target / t0 < 0.0 then Failure(NumericInstability)
      else Success(ScaleVelocities(s, sqrt(target / t0)))
  }

  /** A rescale changes velocities only. */
  lemma RescaledKeepsRest(s: seq<Particle>, target: real, sqrt: real -> real)
    requires Rescaled(s, target, sqrt).Success?
    ensures
      var r := Rescaled(s, target, sqrt).value;
      forall i :: 0 <= i < |s| ==> r[i].(velo := s[i].velo) == s[i]
  {
    var t0 := Temperature(s).value;
    var r := Rescaled(s, target, sqrt).value;
    assert r == ScaleVelocities(s, sqrt(target / t0));
  }

  /** After a successful rescale the temperature is the requested one. */
  lemma RescaledTemperature(s: seq<Particle>, target: real, sqrt: real -> real)
    requires IsSqrt(sqrt)
    requires Rescaled(s, target, sqrt).Success?
    ensures Temperature(Rescaled(s, target, sqrt).value) == Success(target)
  {
    var t0 := Temperature(s).value;
    var r := Rescaled(s, target, sqrt).value;
    var n, m := 1.5 * |s| as real, 1.5 * |r| as real;
    var e, e2 := KineticEnergy(s), KineticEnergy(r);
    RescaledEnergy(s, target, sqrt);
    assert t0 != 0.0 && |r| == |s|;
    var t := Temperature(r).value;
    TemperatureTimesCount(s);
    TemperatureTimesCount(r);
    RatioRestores(t0, n, m, target, e, e2, t);
  }

  /** The rescale multiplies the kinetic energy by the ratio of the temperatures. */
  lemma RescaledEnergy(s: seq<Particle>, target: real, sqrt: real -> real)
    requires IsSqrt(sqrt)
    requires Rescaled(s, target, sqrt).Success?
    ensures
      KineticEnergy(Rescaled(s, target, sqrt).value) == (target / Temperature(s).value) * KineticEnergy(s)
  {
    var ratio := target / Temperature(s).value;
    var c := sqrt(ratio);
    assert Rescaled(s, target, sqrt).value == ScaleVelocities(s, c);
    RootOf(sqrt, ratio);
    KineticEnergyScales(s, c);
  }

  /** `t * n == e`, kept as one fact. */
  predicate Balanced(t: real, n: real, e: real)
  {
    t * n == e
  }

  lemma TemperatureTimesCount(s: seq<Particle>)
    requires |s| > 0
    ensures Balanced(Temperature(s).value, 1.5 * |s| as real, KineticEnergy(s))
  {}

  /** With `t0 * n == e`, `t * n == e2` and `e2 == (target/t0) * e`, `t` is `target`. */
  lemma RatioRestores(t0: real, n: real, m: real, target: real, e: real, e2: real, t: real)
    requires t0 != 0.0 && n > 0.0 && m == n
    requires Balanced(t0, n, e) && Balanced(t, m, e2) && e2 == (target / t0) * e
    ensures t == target
  {
    var ratio := target / t0;
    assert ratio * t0 == target;
    assert e2 == ratio * (t0 * n);
    assert t * n == (ratio * t0) * n;
    if t < target {
      MulPositive(target - t, n);
    } else if t > target {
      MulPositive(t - target, n);
    }
  }

  /** When the rescale fails, and why: an empty set, a set at rest, or a negative
      ratio of target to current temperature. */
  lemma RescaledFailure(s: seq<Particle>, target: real, sqrt: real -> real)
    requires PositiveMasses(s)
    ensures Rescaled(s, target, sqrt).Failure? <==> |s| == 0 || AtRest(s) || target < 0.0
    ensures |s| == 0 ==> Rescaled(s, target, sqrt) == Failure(EmptySystem)
    ensures |s| > 0 && AtRest(s) ==> Rescaled(s, target, sqrt) == Failure(DegenerateTemperature)
    ensures
      |s| > 0 && !AtRest(s) && target < 0.0 ==> Rescaled(s, target, sqrt) == Failure(NumericInstability)
  {
    if |s| > 0 {
      KineticEnergySign(s);
      var t0 := Temperature(s).value;
      var n := 1.5 * |s| as real;
      if t0 == 0.0 {
        ZeroProduct(t0, n);
      } else {
        NonZeroProduct(t0, n);
        assert t0 > 0.0;
        QuotientSign(target, t0);
      }
    }
  }

  lemma ZeroProduct(a: real, b: real)
    requires a == 0.0
    ensures a * b == 0.0
  {}

  lemma NonZeroProduct(a: real, b: real)
    requires a > 0.0 && b > 0.0
    ensures a * b != 0.0
  {
    MulPositive(a, b);
  }

  lemma QuotientSign(x: real, y: real)
    requires y > 0.0
    ensures x / y < 0.0 <==> x < 0.0
  {
    var q := x / y;
    assert q * y == x;
    if q < 0.0 {
      MulPositive(-q, y);
    } else {
      MulNonNegative(q, y);
    }
  }

  /** `set_microscopic_temperature(particleset, temperature)`: read the current
      temperature with the accumulator loop, then rewrite every velocity in place. */
  method SetTemperature(ps: array<Particle>, target: real, sqrt: real -> real) returns (outcome: Outcome)
    modifies ps
    ensures Rescaled(old(ps[..]), target, sqrt).Success? ==>
              outcome == Pass && ps[..] == Rescaled(old(ps[..]), target, sqrt).value
    ensures Rescaled(old(ps[..]), target, sqrt).Failure? ==>
              outcome == Fail(Rescaled(old(ps[..]), target, sqrt).error) && ps[..] == old(ps[..])
  {
    if ps.Length == 0 {
      return Fail(EmptySystem);
    }
    var ekin := SumKineticEnergy(ps);
    var t0 := ekin / (1.5 * ps.Length as real);
    if t0 == 0.0 {
      return Fail(DegenerateTemperature);
    }
    if target / t0 < 0.0 {
      return Fail(NumericInstability);
    }
    var factor := sqrt(target / t0);
    ghost var before := ps[..];
    for i := 0 to ps.Length
      invariant forall k :: 0 <= k < i ==> ps[k] == before[k].(velo := Scale(factor, before[k].velo))
      invariant forall k :: i <= k < ps.Length ==> ps[k] == before[k]
    {
      ps[i] := ps[i].(velo := Scale(factor, ps[i].velo));
    }
    assert ps[..] == ScaleVelocities(before, factor);
    return Pass;
  }
}
