/** One step of the velocity-Verlet integrator with the velocity-rescaling thermostat:
    a half kick with the old accelerations and a wrapped drift for every particle, then
    the pair loop over `i < j` that accumulates the accelerations Newton-pair-wise and
    finishes each particle's velocity with a second half kick, then the rescale. */
module Integrator {
  import opened Vectors
  import opened Outcomes
  import opened Periodic
  import opened Particles
  import opened Interaction

  /** First pass, one particle: half kick with the old acceleration, acceleration
      cleared, drift with the new velocity and wrap into the box. */
  function HalfKickDrift(p: Particle, dt: real, box: Vec3): (q: Particle)
    requires ValidBox(box)
    ensures q.acc == Zero && InBox(q.pos, box)
    ensures q.velo == Add(p.velo, Scale(0.5 * dt, p.acc))
    ensures q.ljEpsilon == p.ljEpsilon && q.ljSigma == p.ljSigma && q.mass == p.mass
  {
    var velo := Add(p.velo, Scale(0.5 * dt, p.acc));
    p.(velo := velo, acc := Zero, pos := Wrap(Add(p.pos, Scale(dt, velo)), box))
  }

  /** The first pass over the whole set. */
  function Drifted(s: seq<Particle>, dt: real, box: Vec3): (r: seq<Particle>)
    requires ValidBox(box)
    ensures |r| == |s|
    ensures forall k :: 0 <= k < |s| ==> r[k] == HalfKickDrift(s[k], dt, box)
  {
    seq(|s|, k requires 0 <= k < |s| => HalfKickDrift(s[k], dt, box))
  }

  /** The first loop of the tick, in place. */
  method HalfKickAndDrift(ps: array<Particle>, dt: real, box: Vec3)
    requires ValidBox(box)
    modifies ps
    ensures ps[..] == Drifted(old(ps[..]), dt, box)
  {
    for i := 0 to ps.Length
      invariant forall k :: 0 <= k < i ==> ps[k] == HalfKickDrift(old(ps[k]), dt, box)
      invariant forall k :: i <= k < ps.Length ==> ps[k] == old(ps[k])
    {
      var velo := Add(ps[i].velo, Scale(0.5 * dt, ps[i].acc));
      ps[i] := ps[i].(velo := velo);
      ps[i] := ps[i].(acc := Zero);
      ps[i] := ps[i].(pos := Wrap(Add(ps[i].pos, Scale(dt, ps[i].velo)), box));
    }
  }

  /** The pair force `F_ij` on `i` from `j`, as the pair loop applies it. The tick uses
      `LjLaw`; the pair loop and its properties hold for any such law. */
  type Law = (Particle, Particle) -> Result<Vec3>

  /** A law whose only failure is a non-finite force, as `LjLaw`'s is. */
  ghost predicate FailsAsInstability(law: Law)
  {
    forall p1, p2 :: law(p1, p2).Failure? ==> law(p1, p2).error == NumericInstability
  }

  /** One pair `i < j` of the second loop: `accadd = F_ij / m_i` is added to the
      acceleration of `i` and subtracted from that of `j`. A failed force, or a zero
      mass to divide by, spoils the step. */
  function PairUpdate(t: seq<Particle>, i: nat, j: nat, law: Law): (r: Result<seq<Particle>>)
    requires i < j < |t|
    ensures r.Success? ==> |r.value| == |t|
    ensures r.Failure? <==> law(t[i], t[j]).Failure? || t[i].mass == 0.0
    ensures r.Failure? && FailsAsInstability(law) ==> r.error == NumericInstability
  {
    match law(t[i], t[j])
    case Failure(e) => Failure(e)
    case Success(f) =>
      if t[i].mass == 0.0 then
        Failure(NumericInstability)
      else
        var accadd := Div(f, t[i].mass);
        Success(t[i := t[i].(acc := Add(t[i].acc, accadd))][j := t[j].(acc := Sub(t[j].acc, accadd))])
  }

  /** The second half kick of particle `i`, with the acceleration it has now. */
  function Kick(t: seq<Particle>, i: nat, dt: real): (r: seq<Particle>)
    requires i < |t|
    ensures |r| == |t|
  {
    t[i := t[i].(velo := Add(t[i].velo, Scale(0.5 * dt, t[i].acc)))]
  }

  /** The set at the start of row `i` of the pair loop, starting from `s0`. */
  function RowStart(s0: seq<Particle>, i: nat, dt: real, law: Law): (r: Result<seq<Particle>>)
    requires i <= |s0|
    ensures r.Success? ==> |r.value| == |s0|
    ensures r.Failure? && FailsAsInstability(law) ==> r.error == NumericInstability
    decreases i, 0
  {
    if i == 0 then
      Success(s0)
    else
      match Partial(s0, i - 1, |s0|, dt, law)
      case Failure(e) => Failure(e)
      case Success(t) => Success(Kick(t, i - 1, dt))
  }

  /** The set in row `i` once the columns `i < j' < j` are done. */
  function Partial(s0: seq<Particle>, i: nat, j: nat, dt: real, law: Law): (r: Result<seq<Particle>>)
    requires i < j <= |s0|
    ensures r.Success? ==> |r.value| == |s0|
    ensures r.Failure? && FailsAsInstability(law) ==> r.error == NumericInstability
    decreases i, j
  {
    if j == i + 1 then
      RowStart(s0, i, dt, law)
    else
      match Partial(s0, i, j - 1, dt, law)
      case Failure(e) => Failure(e)
      case Success(t) => PairUpdate(t, i, j - 1, law)
  }

  /** The whole tick on values: the first pass, the pair loop, then the thermostat. */
  function Tick(s: seq<Particle>, dt: real, box: Vec3, target: real, sqrt: real -> real): (r: Result<seq<Particle>>)
    requires ValidBox(box)
    ensures r.Success? ==> |r.value| == |s|
  {
    var s0 := Drifted(s, dt, box);
    match RowStart(s0, |s0|, dt, LjLaw(box, sqrt))
    case Failure(e) => Failure(e)
    case Success(t) => Rescaled(t, target, sqrt)
  }

  lemma {:induction false} PartialFailsOnward(s0: seq<Particle>, i: nat, j: nat, j2: nat, dt: real, law: Law)
    requires i < j <= j2 <= |s0|
    requires Partial(s0, i, j, dt, law).Failure?
    ensures Partial(s0, i, j2, dt, law).Failure?
    decreases j2
  {
    if j2 > j {
      PartialFailsOnward(s0, i, j, j2 - 1, dt, law);
    }
  }

  lemma {:induction false} RowFailsOnward(s0: seq<Particle>, i: nat, i2: nat, dt: real, law: Law)
    requires i <= i2 <= |s0|
    requires RowStart(s0, i, dt, law).Failure?
    ensures RowStart(s0, i2, dt, law).Failure?
    decreases i2
  {
    if i2 > i {
      RowFailsOnward(s0, i, i2 - 1, dt, law);
      PartialFailsOnward(s0, i2 - 1, i2, |s0|, dt, law);
    }
  }

  /** A pair step that fails makes the whole pair loop fail. */
  lemma PairFailureIsFinal(s0: seq<Particle>, i: nat, j: nat, dt: real, law: Law)
    requires i < j < |s0|
    requires Partial(s0, i, j + 1, dt, law).Failure?
    ensures RowStart(s0, |s0|, dt, law).Failure?
  {
    PartialFailsOnward(s0, i, j + 1, |s0|, dt, law);
    RowFailsOnward(s0, i + 1, |s0|, dt, law);
  }

  lemma PartialStep(s0: seq<Particle>, i: nat, j: nat, dt: real, law: Law, t: seq<Particle>)
    requires i < j < |s0|
    requires Partial(s0, i, j, dt, law) == Success(t)
    ensures Partial(s0, i, j + 1, dt, law) == PairUpdate(t, i, j, law)
  {}

  lemma RowStep(s0: seq<Particle>, i: nat, dt: real, law: Law, t: seq<Particle>)
    requires i < |s0|
    requires Partial(s0, i, |s0|, dt, law) == Success(t)
    ensures RowStart(s0, i + 1, dt, law) == Success(Kick(t, i, dt))
  {}

  /** The body of the inner loop for the pair `i < j`, in place: the pair loop that
      started from `s0` moves from column `j` to column `j + 1` of row `i`, or the pair
      fails and so does the rest of the row. */
  method AccumulatePair(ps: array<Particle>, ghost s0: seq<Particle>, i: nat, j: nat, dt: real, law: Law)
    returns (ok: bool)
    requires i < j < ps.Length == |s0|
    requires Partial(s0, i, j, dt, law) == Success(ps[..])
    modifies ps
    ensures ok ==> Partial(s0, i, j + 1, dt, law) == Success(ps[..])
    ensures !ok ==> Partial(s0, i, |s0|, dt, law).Failure?
  {
    PartialStep(s0, i, j, dt, law, ps[..]);
    var f := law(ps[i], ps[j]);
    if f.Failure? || ps[i].mass == 0.0 {
      PartialFailsOnward(s0, i, j + 1, |s0|, dt, law);
      return false;
    }
    var accadd := Div(f.value, ps[i].mass);
    ps[i] := ps[i].(acc := Add(ps[i].acc, accadd));
    ps[j] := ps[j].(acc := Sub(ps[j].acc, accadd));
    return true;
  }

  /** Row `i` of the pair loop, in place: the pairs `(i, j)` for `j > i`, stopping at
      the first pair that fails. `s0` is the set the whole pair loop started from. */
  method AccumulateRow(ps: array<Particle>, ghost s0: seq<Particle>, i: nat, dt: real, law: Law)
    returns (ok: bool)
    requires i < ps.Length == |s0|
    requires RowStart(s0, i, dt, law) == Success(ps[..])
    modifies ps
    ensures ok ==> Partial(s0, i, |s0|, dt, law) == Success(ps[..])
    ensures !ok ==> Partial(s0, i, |s0|, dt, law).Failure?
  {
    assert Partial(s0, i, i + 1, dt, law) == RowStart(s0, i, dt, law);
    for j := i + 1 to ps.Length
      invariant Partial(s0, i, j, dt, law) == Success(ps[..])
    {
      ok := AccumulatePair(ps, s0, i, j, dt, law);
      if !ok {
        return false;
      }
    }
    return true;
  }

  /** `velo += 0.5*dt*acc` for particle `i`, in place. */
  method SecondHalfKick(ps: array<Particle>, i: nat, dt: real)
    requires i < ps.Length
    modifies ps
    ensures ps[..] == Kick(old(ps[..]), i, dt)
  {
    ps[i] := ps[i].(velo := Add(ps[i].velo, Scale(0.5 * dt, ps[i].acc)));
  }

  /** The pair loop with the second half kick at the end of each row, in place. */
  method AccumulateForces(ps: array<Particle>, dt: real, law: Law) returns (outcome: Outcome)
    modifies ps
    ensures
      RowStart(old(ps[..]), ps.Length, dt, law).Success? ==>
        outcome == Pass && ps[..] == RowStart(old(ps[..]), ps.Length, dt, law).value
    ensures RowStart(old(ps[..]), ps.Length, dt, law).Failure? ==> outcome == Fail(NumericInstability)
  {
    ghost var s0 := ps[..];
    for i := 0 to ps.Length
      invariant RowStart(s0, i, dt, law) == Success(ps[..])
    {
      var ok := AccumulateRow(ps, s0, i, dt, law);
      if !ok {
        RowFailsOnward(s0, i + 1, |s0|, dt, law);
        return Fail(NumericInstability);
      }
      RowStep(s0, i, dt, law, ps[..]);
      SecondHalfKick(ps, i, dt);
    }
    return Pass;
  }

  /** One tick of the main loop, in place: the first pass, the pair loop with its
      per-row second half kick, then `set_microscopic_temperature`. */
  method VerletTick(ps: array<Particle>, dt: real, box: Vec3, target: real, sqrt: real -> real) returns (outcome: Outcome)
    requires ValidBox(box)
    modifies ps
    ensures
      Tick(old(ps[..]), dt, box, target, sqrt).Success? ==>
        outcome == Pass && ps[..] == Tick(old(ps[..]), dt, box, target, sqrt).value
    ensures
      Tick(old(ps[..]), dt, box, target, sqrt).Failure? ==>
        outcome == Fail(Tick(old(ps[..]), dt, box, target, sqrt).error)
  {
    HalfKickAndDrift(ps, dt, box);
    outcome := AccumulateForces(ps, dt, LjLaw(box, sqrt));
    if outcome.Pass? {
      outcome := SetTemperature(ps, target, sqrt);
    }
  }

  /** The accelerations of the set, in list order. */
  function Accelerations(t: seq<Particle>): (r: seq<Vec3>)
    ensures |r| == |t|
    ensures forall k :: 0 <= k < |t| ==> r[k] == t[k].acc
  {
    seq(|t|, k requires 0 <= k < |t| => t[k].acc)
  }

  /** Particle `q` sits where `p` does and has its parameters. */
  predicate SameFrame(q: Particle, p: Particle)
  {
    q.pos == p.pos && q.ljEpsilon == p.ljEpsilon && q.ljSigma == p.ljSigma && q.mass == p.mass
  }

  /** What the pair loop keeps of its starting set `s0` in the set `t`, once the rows
      before `i` are finished: positions and parameters, the total acceleration, the
      second half kick of every finished row with its final acceleration, and the
      untouched velocities of the rows still to come. */
  predicate PairLoopInvariant(s0: seq<Particle>, t: seq<Particle>, i: nat, dt: real)
  {
    |t| == |s0|
    && (forall k :: 0 <= k < |t| ==> SameFrame(t[k], s0[k]))
    && VecSum(Accelerations(t)) == VecSum(Accelerations(s0))
    && (forall k :: 0 <= k < i && k < |t| ==> t[k].velo == Add(s0[k].velo, Scale(0.5 * dt, t[k].acc)))
    && (forall k :: i <= k < |t| ==> t[k].velo == s0[k].velo)
  }

  /** Adding `v` to one acceleration and subtracting it from another keeps the total. */
  lemma NewtonPairKeepsTotal(accs: seq<Vec3>, i: nat, j: nat, v: Vec3)
    requires i < |accs| && j < |accs| && i != j
    ensures VecSum(accs[i := Add(accs[i], v)][j := Sub(accs[j], v)]) == VecSum(accs)
  {
    var once := accs[i := Add(accs[i], v)];
    VecSumUpdate(accs, i, Add(accs[i], v));
    VecSumUpdate(once, j, Sub(accs[j], v));
  }

  lemma PairUpdateKeeps(s0: seq<Particle>, t: seq<Particle>, i: nat, j: nat, dt: real, law: Law)
    requires i < j < |t| && PairLoopInvariant(s0, t, i, dt)
    requires PairUpdate(t, i, j, law).Success?
    ensures PairLoopInvariant(s0, PairUpdate(t, i, j, law).value, i, dt)
  {
    var f := law(t[i], t[j]).value;
    var accadd := Div(f, t[i].mass);
    var u := PairUpdate(t, i, j, law).value;
    assert Accelerations(u) == Accelerations(t)[i := Add(t[i].acc, accadd)][j := Sub(t[j].acc, accadd)];
    NewtonPairKeepsTotal(Accelerations(t), i, j, accadd);
  }

  lemma KickKeeps(s0: seq<Particle>, t: seq<Particle>, i: nat, dt: real)
    requires i < |t| && PairLoopInvariant(s0, t, i, dt)
    ensures PairLoopInvariant(s0, Kick(t, i, dt), i + 1, dt)
  {
    assert Accelerations(Kick(t, i, dt)) == Accelerations(t);
  }

  lemma {:induction false} RowStartKeeps(s0: seq<Particle>, i: nat, dt: real, law: Law)
    requires i <= |s0| && RowStart(s0, i, dt, law).Success?
    ensures PairLoopInvariant(s0, RowStart(s0, i, dt, law).value, i, dt)
    decreases i, 0
  {
    if i > 0 {
      var t := Partial(s0, i - 1, |s0|, dt, law).value;
      PartialKeeps(s0, i - 1, |s0|, dt, law);
      RowStep(s0, i - 1, dt, law, t);
      KickKeeps(s0, t, i - 1, dt);
    }
  }

  lemma {:induction false} PartialKeeps(s0: seq<Particle>, i: nat, j: nat, dt: real, law: Law)
    requires i < j <= |s0| && Partial(s0, i, j, dt, law).Success?
    ensures PairLoopInvariant(s0, Partial(s0, i, j, dt, law).value, i, dt)
    decreases i, j
  {
    if j == i + 1 {
      RowStartKeeps(s0, i, dt, law);
    } else {
      var t := Partial(s0, i, j - 1, dt, law).value;
      PartialKeeps(s0, i, j - 1, dt, law);
      PartialStep(s0, i, j - 1, dt, law, t);
      PairUpdateKeeps(s0, t, i, j - 1, dt, law);
    }
  }

  /** After the pair loop: positions and parameters are those it started from, the
      accelerations still sum to what they summed to before, and every velocity got
      its second half kick with the particle's final acceleration. */
  lemma PairLoopResult(s0: seq<Particle>, dt: real, law: Law)
    requires RowStart(s0, |s0|, dt, law).Success?
    ensures
      var t := RowStart(s0, |s0|, dt, law).value;
      && (forall k :: 0 <= k < |t| ==> SameFrame(t[k], s0[k]))
      && VecSum(Accelerations(t)) == VecSum(Accelerations(s0))
      && (forall k :: 0 <= k < |t| ==> t[k].velo == Add(s0[k].velo, Scale(0.5 * dt, t[k].acc)))
  {
    RowStartKeeps(s0, |s0|, dt, law);
  }

  /** The first pass clears every acceleration, so the pair loop starts from zero. */
  lemma DriftClearsAccelerations(s: seq<Particle>, dt: real, box: Vec3)
    requires ValidBox(box)
    ensures VecSum(Accelerations(Drifted(s, dt, box))) == Zero
  {
    VecSumZero(Accelerations(Drifted(s, dt, box)));
  }

  /** What one successful tick does: the count is kept, every particle has drifted with
      its half-kicked velocity and been wrapped into the box and stays there, the
      parameters are unchanged, and the accelerations sum to the zero vector. */
  lemma TickProperties(s: seq<Particle>, dt: real, box: Vec3, target: real, sqrt: real -> real)
    requires ValidBox(box) && Tick(s, dt, box, target, sqrt).Success?
    ensures
      var r := Tick(s, dt, box, target, sqrt).value;
      forall k :: 0 <= k < |r| ==>
        && r[k].pos == Wrap(Add(s[k].pos, Scale(dt, Add(s[k].velo, Scale(0.5 * dt, s[k].acc)))), box)
        && InBox(r[k].pos, box)
        && r[k].ljEpsilon == s[k].ljEpsilon && r[k].ljSigma == s[k].ljSigma && r[k].mass == s[k].mass
    ensures VecSum(Accelerations(Tick(s, dt, box, target, sqrt).value)) == Zero
  {
    var s0 := Drifted(s, dt, box);
    var t := RowStart(s0, |s0|, dt, LjLaw(box, sqrt)).value;
    var r := Tick(s, dt, box, target, sqrt).value;
    assert r == Rescaled(t, target, sqrt).value;
    PairLoopResult(s0, dt, LjLaw(box, sqrt));
    DriftClearsAccelerations(s, dt, box);
    RescaledKeepsRest(t, target, sqrt);
    forall k | 0 <= k < |r|
      ensures SameFrame(r[k], s0[k]) && r[k].acc == t[k].acc
    {
      assert r[k].(velo := t[k].velo) == t[k];
    }
    assert Accelerations(r) == Accelerations(t);
  }

  /** The thermostat at the end of a successful tick leaves the set at the target
      temperature. */
  lemma TickTemperature(s: seq<Particle>, dt: real, box: Vec3, target: real, sqrt: real -> real)
    requires ValidBox(box) && IsSqrt(sqrt) && Tick(s, dt, box, target, sqrt).Success?
    ensures Temperature(Tick(s, dt, box, target, sqrt).value) == Success(target)
  {
    var s0 := Drifted(s, dt, box);
    RescaledTemperature(RowStart(s0, |s0|, dt, LjLaw(box, sqrt)).value, target, sqrt);
  }

  /** A law that reads only the positions and parameters of its two particles, as
      `LjLaw` does: velocities and accelerations do not change the force. */
  ghost predicate FrameLaw(law: Law)
  {
    forall p1, p2, q1, q2 :: SameFrame(q1, p1) && SameFrame(q2, p2) ==> law(q1, q2) == law(p1, p2)
  }

  /** The Lennard-Jones law reads only positions and parameters. */
  lemma LjLawFrame(box: Vec3, sqrt: real -> real)
    requires ValidBox(box)
    ensures FrameLaw(LjLaw(box, sqrt))
  {}

  /** The pair `(a, b)` goes through: its force is finite and `a` has a mass to divide by. */
  predicate PairOk(s0: seq<Particle>, a: nat, b: nat, law: Law)
    requires a < |s0| && b < |s0|
  {
    law(s0[a], s0[b]).Success? && s0[a].mass != 0.0
  }

  /** Every pair of the rows before `i` goes through. */
  predicate PairsOkBefore(s0: seq<Particle>, i: nat, law: Law)
  {
    forall a, b :: 0 <= a < i && a < b < |s0| ==> PairOk(s0, a, b, law)
  }

  /** Every pair of row `i` before column `j` goes through. */
  predicate ColumnsOk(s0: seq<Particle>, i: nat, j: nat, law: Law)
    requires i < |s0| && j <= |s0|
  {
    forall b :: i < b < j ==> PairOk(s0, i, b, law)
  }

  /** `accadd` of the pair `(a, b)` on the starting set, `F_ab / m_a`; a failed force or
      a zero mass, which stop the loop, contribute nothing. */
  function PairAcc(s0: seq<Particle>, a: nat, b: nat, law: Law): Vec3
    requires a < |s0| && b < |s0|
  {
    match law(s0[a], s0[b])
    case Failure(_) => Zero
    case Success(f) => if s0[a].mass == 0.0 then Zero else Div(f, s0[a].mass)
  }

  /** What `k` receives as the first particle of its pairs: `F_kj / m_k` summed over
      `k < j < hi`. */
  function Gained(s0: seq<Particle>, k: nat, hi: nat, law: Law): Vec3
    requires k < |s0| && hi <= |s0|
    decreases hi
  {
    if hi <= k + 1 then Zero else Add(Gained(s0, k, hi - 1, law), PairAcc(s0, k, hi - 1, law))
  }

  /** What `k` gives up as the second particle of its pairs: `F_ik / m_i` summed over
      `i < lo`. */
  function Lost(s0: seq<Particle>, k: nat, lo: nat, law: Law): Vec3
    requires k < |s0| && lo <= |s0|
  {
    if lo == 0 then Zero else Add(Lost(s0, k, lo - 1, law), PairAcc(s0, lo - 1, k, law))
  }

  /** The starting acceleration of `k` with what it has gained below `hi` and lost
      below `lo`. */
  function Net(s0: seq<Particle>, k: nat, hi: nat, lo: nat, law: Law): Vec3
    requires k < |s0| && hi <= |s0| && lo <= |s0|
  {
    Add(s0[k].acc, Sub(Gained(s0, k, hi, law), Lost(s0, k, lo, law)))
  }

  /** The acceleration of `k` at the start of row `i`: a finished row has all its
      pairs, a row to come only the pairs of the rows before `i`. */
  function RowAcc(s0: seq<Particle>, k: nat, i: nat, law: Law): Vec3
    requires k < |s0| && i <= |s0|
  {
    if k < i then Net(s0, k, |s0|, k, law) else Net(s0, k, k + 1, i, law)
  }

  /** The acceleration of `k` in row `i` once the columns before `j` are done. */
  function PartialAcc(s0: seq<Particle>, k: nat, i: nat, j: nat, law: Law): Vec3
    requires k < |s0| && i < j <= |s0|
  {
    if k == i then Net(s0, k, j, k, law)
    else if i < k < j then Net(s0, k, k + 1, i + 1, law)
    else RowAcc(s0, k, i, law)
  }

  /** One pair step, on accelerations: `i` gains `F_ij / m_i` and `j` loses it. */
  lemma PairUpdateAccs(s0: seq<Particle>, t: seq<Particle>, i: nat, j: nat, law: Law)
    requires i < j < |t| == |s0| && FrameLaw(law)
    requires forall k :: 0 <= k < |t| ==> SameFrame(t[k], s0[k])
    requires forall k :: 0 <= k < |t| ==> t[k].acc == PartialAcc(s0, k, i, j, law)
    ensures PairUpdate(t, i, j, law).Success? <==> PairOk(s0, i, j, law)
    ensures
      PairUpdate(t, i, j, law).Success? ==>
        forall k :: 0 <= k < |t| ==> PairUpdate(t, i, j, law).value[k].acc == PartialAcc(s0, k, i, j + 1, law)
  {}

  lemma PairsOkStep(s0: seq<Particle>, i: nat, law: Law)
    requires i < |s0|
    ensures PairsOkBefore(s0, i + 1, law) <==> PairsOkBefore(s0, i, law) && ColumnsOk(s0, i, |s0|, law)
  {}

  lemma ColumnsOkStep(s0: seq<Particle>, i: nat, j: nat, law: Law)
    requires i < j < |s0|
    ensures ColumnsOk(s0, i, j + 1, law) <==> ColumnsOk(s0, i, j, law) && PairOk(s0, i, j, law)
  {}

  lemma {:induction false} RowStartAccs(s0: seq<Particle>, i: nat, dt: real, law: Law)
    requires i <= |s0| && FrameLaw(law)
    ensures RowStart(s0, i, dt, law).Success? <==> PairsOkBefore(s0, i, law)
    ensures
      RowStart(s0, i, dt, law).Success? ==>
        forall k :: 0 <= k < |s0| ==> RowStart(s0, i, dt, law).value[k].acc == RowAcc(s0, k, i, law)
    decreases i, 0
  {
    if i > 0 {
      PartialAccs(s0, i - 1, |s0|, dt, law);
      PairsOkStep(s0, i - 1, law);
      if Partial(s0, i - 1, |s0|, dt, law).Success? {
        var t := Partial(s0, i - 1, |s0|, dt, law).value;
        RowStep(s0, i - 1, dt, law, t);
      }
    }
  }

  lemma {:induction false} PartialAccs(s0: seq<Particle>, i: nat, j: nat, dt: real, law: Law)
    requires i < j <= |s0| && FrameLaw(law)
    ensures Partial(s0, i, j, dt, law).Success? <==> PairsOkBefore(s0, i, law) && ColumnsOk(s0, i, j, law)
    ensures
      Partial(s0, i, j, dt, law).Success? ==>
        forall k :: 0 <= k < |s0| ==> Partial(s0, i, j, dt, law).value[k].acc == PartialAcc(s0, k, i, j, law)
    decreases i, j
  {
    if j == i + 1 {
      RowStartAccs(s0, i, dt, law);
    } else {
      PartialAccs(s0, i, j - 1, dt, law);
      ColumnsOkStep(s0, i, j - 1, law);
      if Partial(s0, i, j - 1, dt, law).Success? {
        var t := Partial(s0, i, j - 1, dt, law).value;
        PartialStep(s0, i, j - 1, dt, law, t);
        PartialKeeps(s0, i, j - 1, dt, law);
        PairUpdateAccs(s0, t, i, j - 1, law);
      }
    }
  }

  /** The pair loop, for a law that reads only positions and parameters: it goes through
      exactly when every pair `i < j` has a finite force and a non-zero `m_i`, and then
      particle `k` ends with its starting acceleration plus `F_kj / m_k` for every
      `j > k`, minus `F_ik / m_i` for every `i < k`. */
  lemma PairLoopAccelerations(s0: seq<Particle>, dt: real, law: Law)
    requires FrameLaw(law)
    ensures
      RowStart(s0, |s0|, dt, law).Success? <==>
        forall a, b :: 0 <= a < b < |s0| ==> PairOk(s0, a, b, law)
    ensures
      RowStart(s0, |s0|, dt, law).Success? ==>
        forall k :: 0 <= k < |s0| ==>
          RowStart(s0, |s0|, dt, law).value[k].acc
            == Add(s0[k].acc, Sub(Gained(s0, k, |s0|, law), Lost(s0, k, k, law)))
  {
    RowStartAccs(s0, |s0|, dt, law);
  }

  /** Two particles, for any law: `i` gains `F/m_i`, `j` loses the same `F/m_i`. */
  lemma PairLoopTwoParticles(s0: seq<Particle>, dt: real, law: Law)
    requires |s0| == 2
    ensures RowStart(s0, 2, dt, law).Success? <==> law(s0[0], s0[1]).Success? && s0[0].mass != 0.0
    ensures
      RowStart(s0, 2, dt, law).Success? ==>
        var t := RowStart(s0, 2, dt, law).value;
        var accadd := Div(law(s0[0], s0[1]).value, s0[0].mass);
        t[0].acc == Add(s0[0].acc, accadd) && t[1].acc == Sub(s0[1].acc, accadd)
  {}

  /** The pair loop from cleared accelerations: each one ends as what the particle
      gained minus what it lost. */
  lemma PairLoopFromRest(s0: seq<Particle>, dt: real, law: Law)
    requires FrameLaw(law) && RowStart(s0, |s0|, dt, law).Success?
    requires forall k :: 0 <= k < |s0| ==> s0[k].acc == Zero
    ensures
      forall k :: 0 <= k < |s0| ==>
        RowStart(s0, |s0|, dt, law).value[k].acc == Sub(Gained(s0, k, |s0|, law), Lost(s0, k, k, law))
  {
    PairLoopAccelerations(s0, dt, law);
  }

  /** The accelerations a successful tick leaves: the pair loop starts from the cleared
      accelerations of the drifted set, so particle `k` ends with exactly `F_kj / m_k`
      summed over `j > k` minus `F_ik / m_i` summed over `i < k`, all on the drifted
      positions; and every pair of the drifted set had a finite force and a non-zero
      first mass. */
  lemma TickAccelerations(s: seq<Particle>, dt: real, box: Vec3, target: real, sqrt: real -> real)
    requires ValidBox(box) && Tick(s, dt, box, target, sqrt).Success?
    ensures
      var s0 := Drifted(s, dt, box);
      var r := Tick(s, dt, box, target, sqrt).value;
      forall k :: 0 <= k < |r| ==>
        r[k].acc == Sub(Gained(s0, k, |s0|, LjLaw(box, sqrt)), Lost(s0, k, k, LjLaw(box, sqrt)))
    ensures
      forall a, b :: 0 <= a < b < |s| ==> PairOk(Drifted(s, dt, box), a, b, LjLaw(box, sqrt))
  {
    var s0 := Drifted(s, dt, box);
    var law := LjLaw(box, sqrt);
    var t := RowStart(s0, |s0|, dt, law).value;
    var r := Tick(s, dt, box, target, sqrt).value;
    assert r == Rescaled(t, target, sqrt).value;
    LjLawFrame(box, sqrt);
    PairLoopAccelerations(s0, dt, law);
    PairLoopFromRest(s0, dt, law);
    RescaledKeepsRest(t, target, sqrt);
    forall k | 0 <= k < |r|
      ensures r[k].acc == t[k].acc
    {
      assert r[k].(velo := t[k].velo) == t[k];
    }
  }
}
