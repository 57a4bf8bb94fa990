/** The initial configuration: rejection sampling of positions so that no two particles
    are closer than `sigma` under the minimum-image convention, a drawn velocity and a
    zero acceleration for each accepted particle, and the thermostat applied once at the
    end. The uniform draws of `random.random()` are inputs: `draws` holds one
    `[0, 1)` triple per position attempt and `velocityDraw(i)` the triple drawn for the
    velocity of particle `i`. */
module Placement {
  import opened Vectors
  import opened Outcomes
  import opened Periodic
  import opened Particles

  /** A uniform triple stretched over the box, axis by axis. */
  function Candidate(u: Vec3, box: Vec3): Vec3
  {
    Vec3(u.x * box.x, u.y * box.y, u.z * box.z)
  }

  predicate UnitDraw(u: Vec3)
  {
    0.0 <= u.x < 1.0 && 0.0 <= u.y < 1.0 && 0.0 <= u.z < 1.0
  }

  /** A draw in the unit cube gives a position inside the box. */
  lemma CandidateInBox(u: Vec3, box: Vec3)
    requires ValidBox(box) && UnitDraw(u)
    ensures InBox(Candidate(u, box), box)
  {
    ScaledBelow(u.x, box.x);
    ScaledBelow(u.y, box.y);
    ScaledBelow(u.z, box.z);
  }

  lemma ScaledBelow(u: real, L: real)
    requires 0.0 <= u < 1.0 && L > 0.0
    ensures 0.0 <= u * L < L
  {
    MulNonNegative(u, L);
    MulPositive(1.0 - u, L);
  }

  /** `random.random()*1-0.5` on each axis. */
  function InitialVelocity(u: Vec3): Vec3
  {
    Sub(u, Vec3(0.5, 0.5, 0.5))
  }

  /** `LJ_Particle(pos, velo, acc, sigma, epsilon, mass)`: the call passes `sigma` into the
      `lj_epsilon` slot and `epsilon` into the `lj_sigma` slot, and the model keeps that. */
  function NewParticle(pos: Vec3, velo: Vec3, sigma: real, epsilon: real, mass: real): (p: Particle)
    ensures p.pos == pos && p.velo == velo && p.acc == Zero
    ensures p.ljEpsilon == sigma && p.ljSigma == epsilon && p.mass == mass
  {
    Particle(pos, velo, Zero, sigma, epsilon, mass)
  }

  /** Some particle already placed is closer to `pos` than `sigma`. */
  predicate Overlapping(pos: Vec3, placed: seq<Particle>, box: Vec3, sigma: real, sqrt: real -> real)
    requires ValidBox(box)
  {
    exists j :: 0 <= j < |placed| && RadialDist(pos, placed[j].pos, box, sqrt) < sigma
  }

  /** Every later particle is at least `sigma` away from every earlier one. */
  predicate Separated(s: seq<Particle>, box: Vec3, sigma: real, sqrt: real -> real)
    requires ValidBox(box)
  {
    forall j, k :: 0 <= j < k < |s| ==> RadialDist(s[k].pos, s[j].pos, box, sqrt) >= sigma
  }

  /** The overlap test against the particles placed so far, stopping at the first hit. */
  method CheckOverlap(pos: Vec3, placed: seq<Particle>, box: Vec3, sigma: real, sqrt: real -> real)
    returns (overlap: bool)
    requires ValidBox(box)
    ensures overlap <==> Overlapping(pos, placed, box, sigma, sqrt)
  {
    overlap := false;
    for j := 0 to |placed|
      invariant forall k :: 0 <= k < j ==> RadialDist(pos, placed[k].pos, box, sqrt) >= sigma
    {
      if RadialDist(pos, placed[j].pos, box, sqrt) < sigma {
        overlap := true;
        break;
      }
    }
  }

  /** Appending a particle that overlaps none of a separated list keeps it separated. */
  lemma SeparatedAppend(s: seq<Particle>, p: Particle, box: Vec3, sigma: real, sqrt: real -> real)
    requires ValidBox(box) && Separated(s, box, sigma, sqrt) && !Overlapping(p.pos, s, box, sigma, sqrt)
    ensures Separated(s + [p], box, sigma, sqrt)
  {
    var t := s + [p];
    forall j, k | 0 <= j < k < |t|
      ensures RadialDist(t[k].pos, t[j].pos, box, sqrt) >= sigma
    {
      if k < |s| {
        assert t[k] == s[k] && t[j] == s[j];
      } else {
        assert t[j] == s[j];
      }
    }
  }

  /** The placement loop on values: starting from the list `placed`, fill it up to `n`
      particles from the remaining position draws. A rejected draw is discarded; running
      out of draws before the list is full is a failure. */
  function Fill(placed: seq<Particle>, n: nat, draws: seq<Vec3>, velocityDraw: nat -> Vec3,
                box: Vec3, sigma: real, epsilon: real, mass: real, sqrt: real -> real): (r: Result<seq<Particle>>)
    requires ValidBox(box) && |placed| <= n
    ensures r.Failure? ==> r.error == PackingInfeasible
    ensures r.Success? ==> |r.value| == n && r.value[..|placed|] == placed
    decreases |draws|
  {
    if |placed| == n then
      Success(placed)
    else if |draws| == 0 then
      Failure(PackingInfeasible)
    else
      var pos := Candidate(draws[0], box);
      if Overlapping(pos, placed, box, sigma, sqrt) then
        Fill(placed, n, draws[1..], velocityDraw, box, sigma, epsilon, mass, sqrt)
      else
        var p := NewParticle(pos, InitialVelocity(velocityDraw(|placed|)), sigma, epsilon, mass);
        var r := Fill(placed + [p], n, draws[1..], velocityDraw, box, sigma, epsilon, mass, sqrt);
        assert r.Success? ==> r.value[..|placed| + 1][..|placed|] == r.value[..|placed|];
        r
  }

  /** Placement keeps the list overlap-free: every accepted particle is at least `sigma`
      from every particle accepted before it. */
  lemma {:induction false} FillSeparated(placed: seq<Particle>, n: nat, draws: seq<Vec3>, velocityDraw: nat -> Vec3,
                                         box: Vec3, sigma: real, epsilon: real, mass: real, sqrt: real -> real)
    requires ValidBox(box) && |placed| <= n && Separated(placed, box, sigma, sqrt)
    requires Fill(placed, n, draws, velocityDraw, box, sigma, epsilon, mass, sqrt).Success?
    ensures Separated(Fill(placed, n, draws, velocityDraw, box, sigma, epsilon, mass, sqrt).value, box, sigma, sqrt)
    decreases |draws|
  {
    if |placed| < n {
      var pos := Candidate(draws[0], box);
      if Overlapping(pos, placed, box, sigma, sqrt) {
        FillSeparated(placed, n, draws[1..], velocityDraw, box, sigma, epsilon, mass, sqrt);
      } else {
        var p := NewParticle(pos, InitialVelocity(velocityDraw(|placed|)), sigma, epsilon, mass);
        SeparatedAppend(placed, p, box, sigma, sqrt);
        FillSeparated(placed + [p], n, draws[1..], velocityDraw, box, sigma, epsilon, mass, sqrt);
      }
    }
  }

  /** Particle `k` of the list is accepted with velocity draw `k`, a zero acceleration,
      the swapped parameters and the common mass. */
  lemma {:induction false} FillNewParticles(placed: seq<Particle>, n: nat, draws: seq<Vec3>, velocityDraw: nat -> Vec3,
                                            box: Vec3, sigma: real, epsilon: real, mass: real, sqrt: real -> real)
    requires ValidBox(box) && |placed| <= n
    requires Fill(placed, n, draws, velocityDraw, box, sigma, epsilon, mass, sqrt).Success?
    ensures
      var s := Fill(placed, n, draws, velocityDraw, box, sigma, epsilon, mass, sqrt).value;
      forall k :: |placed| <= k < n ==>
        s[k] == NewParticle(s[k].pos, InitialVelocity(velocityDraw(k)), sigma, epsilon, mass)
    decreases |draws|
  {
    if |placed| < n {
      var pos := Candidate(draws[0], box);
      if Overlapping(pos, placed, box, sigma, sqrt) {
        FillNewParticles(placed, n, draws[1..], velocityDraw, box, sigma, epsilon, mass, sqrt);
      } else {
        var p := NewParticle(pos, InitialVelocity(velocityDraw(|placed|)), sigma, epsilon, mass);
        var s := Fill(placed + [p], n, draws[1..], velocityDraw, box, sigma, epsilon, mass, sqrt).value;
        FillNewParticles(placed + [p], n, draws[1..], velocityDraw, box, sigma, epsilon, mass, sqrt);
        assert s[..|placed| + 1][|placed|] == p;
      }
    }
  }

  /** Every position the placement accepts comes from one of the draws, so with draws in
      the unit cube every particle starts inside the box. */
  lemma {:induction false} FillInBox(placed: seq<Particle>, n: nat, draws: seq<Vec3>, velocityDraw: nat -> Vec3,
                                     box: Vec3, sigma: real, epsilon: real, mass: real, sqrt: real -> real)
    requires ValidBox(box) && |placed| <= n
    requires forall k :: 0 <= k < |placed| ==> InBox(placed[k].pos, box)
    requires forall k :: 0 <= k < |draws| ==> UnitDraw(draws[k])
    requires Fill(placed, n, draws, velocityDraw, box, sigma, epsilon, mass, sqrt).Success?
    ensures
      var s := Fill(placed, n, draws, velocityDraw, box, sigma, epsilon, mass, sqrt).value;
      forall k :: 0 <= k < |s| ==> InBox(s[k].pos, box)
    decreases |draws|
  {
    if |placed| < n {
      var pos := Candidate(draws[0], box);
      CandidateInBox(draws[0], box);
      if Overlapping(pos, placed, box, sigma, sqrt) {
        FillInBox(placed, n, draws[1..], velocityDraw, box, sigma, epsilon, mass, sqrt);
      } else {
        var p := NewParticle(pos, InitialVelocity(velocityDraw(|placed|)), sigma, epsilon, mass);
        FillInBox(placed + [p], n, draws[1..], velocityDraw, box, sigma, epsilon, mass, sqrt);
      }
    }
  }

  /** The placement loop of the script, from an empty list: one accepted particle per
      outer iteration, each after as many rejected draws as it takes. */
  method PlaceParticles(n: nat, draws: seq<Vec3>, velocityDraw: nat -> Vec3,
                        box: Vec3, sigma: real, epsilon: real, mass: real, sqrt: real -> real)
    returns (r: Result<seq<Particle>>)
    requires ValidBox(box)
    ensures r == Fill([], n, draws, velocityDraw, box, sigma, epsilon, mass, sqrt)
  {
    var particleset: seq<Particle> := [];
    var next := 0;
    for i := 0 to n
      invariant |particleset| == i && next <= |draws|
      invariant Fill(particleset, n, draws[next..], velocityDraw, box, sigma, epsilon, mass, sqrt)
                == Fill([], n, draws, velocityDraw, box, sigma, epsilon, mass, sqrt)
    {
      var pos: Vec3;
      while true
        invariant next <= |draws|
        invariant Fill(particleset, n, draws[next..], velocityDraw, box, sigma, epsilon, mass, sqrt)
                  == Fill([], n, draws, velocityDraw, box, sigma, epsilon, mass, sqrt)
        decreases |draws| - next
      {
        if next == |draws| {
          return Failure(PackingInfeasible);
        }
        pos := Candidate(draws[next], box);
        assert draws[next..][1..] == draws[next + 1..];
        next := next + 1;
        var overlap := CheckOverlap(pos, particleset, box, sigma, sqrt);
        if !overlap {
          break;
        }
      }
      var velo := InitialVelocity(velocityDraw(i));
      particleset := particleset + [NewParticle(pos, velo, sigma, epsilon, mass)];
    }
    return Success(particleset);
  }

  /** The whole initial configuration on values: placement, then the thermostat. */
  function Initial(n: nat, draws: seq<Vec3>, velocityDraw: nat -> Vec3, box: Vec3, sigma: real,
                   epsilon: real, mass: real, temperature: real, sqrt: real -> real): (r: Result<seq<Particle>>)
    requires ValidBox(box)
    ensures r.Success? ==> |r.value| == n
  {
    match Fill([], n, draws, velocityDraw, box, sigma, epsilon, mass, sqrt)
    case Failure(e) => Failure(e)
    case Success(s) => Rescaled(s, temperature, sqrt)
  }

  /** Placement followed by `set_microscopic_temperature` on the new list. */
  method InitialConfiguration(n: nat, draws: seq<Vec3>, velocityDraw: nat -> Vec3, box: Vec3, sigma: real,
                              epsilon: real, mass: real, temperature: real, sqrt: real -> real)
    returns (r: Result<seq<Particle>>)
    requires ValidBox(box)
    ensures r == Initial(n, draws, velocityDraw, box, sigma, epsilon, mass, temperature, sqrt)
  {
    var placed := PlaceParticles(n, draws, velocityDraw, box, sigma, epsilon, mass, sqrt);
    if placed.Failure? {
      return Failure(placed.error);
    }
    var ps := new Particle[n](k requires 0 <= k < n reads {} => placed.value[k]);
    assert ps[..] == placed.value;
    var outcome := SetTemperature(ps, temperature, sqrt);
    if outcome.Fail? {
      return Failure(outcome.error);
    }
    return Success(ps[..]);
  }

  /** What a successful start guarantees: `n` particles, pairwise at least `sigma` apart,
      at rest in acceleration, with the swapped parameters and the common mass, inside the
      box when the draws lie in the unit cube, and at the requested temperature. */
  lemma InitialProperties(n: nat, draws: seq<Vec3>, velocityDraw: nat -> Vec3, box: Vec3, sigma: real,
                          epsilon: real, mass: real, temperature: real, sqrt: real -> real)
    requires ValidBox(box) && IsSqrt(sqrt)
    requires Initial(n, draws, velocityDraw, box, sigma, epsilon, mass, temperature, sqrt).Success?
    ensures
      var s := Initial(n, draws, velocityDraw, box, sigma, epsilon, mass, temperature, sqrt).value;
      && Separated(s, box, sigma, sqrt)
      && (forall k :: 0 <= k < n ==>
            s[k].acc == Zero && s[k].ljEpsilon == sigma && s[k].ljSigma == epsilon && s[k].mass == mass)
      && ((forall k :: 0 <= k < |draws| ==> UnitDraw(draws[k])) ==> forall k :: 0 <= k < n ==> InBox(s[k].pos, box))
      && Temperature(s) == Success(temperature)
  {
    var placed := Fill([], n, draws, velocityDraw, box, sigma, epsilon, mass, sqrt).value;
    var s := Initial(n, draws, velocityDraw, box, sigma, epsilon, mass, temperature, sqrt).value;
    assert s == Rescaled(placed, temperature, sqrt).value;
    FillSeparated([], n, draws, velocityDraw, box, sigma, epsilon, mass, sqrt);
    FillNewParticles([], n, draws, velocityDraw, box, sigma, epsilon, mass, sqrt);
    RescaledKeepsRest(placed, temperature, sqrt);
    RescaledTemperature(placed, temperature, sqrt);
    forall k | 0 <= k < n
      ensures s[k].pos == placed[k].pos && s[k].acc == placed[k].acc
      ensures s[k].ljEpsilon == placed[k].ljEpsilon && s[k].ljSigma == placed[k].ljSigma
      ensures s[k].mass == placed[k].mass
    {
      assert s[k].(velo := placed[k].velo) == placed[k];
    }
    if forall k :: 0 <= k < |draws| ==> UnitDraw(draws[k]) {
      FillInBox([], n, draws, velocityDraw, box, sigma, epsilon, mass, sqrt);
    }
  }
}
