# Lennard-Jones molecular dynamics sandbox: the physics core in Dafny

This project models the physics core of `3d_lj_mdsim_sandbox_v1.0.0.py`. The script is a
three-dimensional molecular-dynamics sandbox for Lennard-Jones particles in a periodic box.
The model covers:

- periodic wrapping of positions and the minimum-image convention for displacements and
  distances;
- the force-shifted Lennard-Jones pair force, with the Lorentz-Berthelot combining rules and a
  cutoff at `2.5 sigma`;
- the kinetic energy, the microscopic temperature and the velocity-rescaling thermostat;
- the virial pressure;
- the rejection-sampling placement of the initial configuration;
- one step of the velocity-Verlet integrator, ending with the rescale to the target temperature.

Numbers are Dafny `real`s. `np.sqrt` is a parameter `sqrt: real -> real`. Where a proof needs a
true square root, it requires the predicate `Vectors.IsSqrt` about that parameter.

An `LJ_Particle` (3d_lj_mdsim_sandbox_v1.0.0.py:63-70) is the record `Particles.Particle`. It
holds a position, a velocity, an acceleration, `lj_epsilon`, `lj_sigma` and a mass. The particle
list that the script mutates in place is an `array<Particle>`.

- `SumKineticEnergy`, `SetTemperature`, `Pressure`, `HalfKickAndDrift` and `AccumulateForces`
  are loops over that array. Each is proved equal to a function on sequences: `KineticEnergy`,
  `Rescaled`, `PressureOf`, `Drifted` and `RowStart`.
- `VerletTick` runs three of those loops in turn: `HalfKickAndDrift`, `AccumulateForces`,
  then `SetTemperature`. It is proved equal to `Tick`.
- `PlaceParticles` is the placement loop. It builds the list as a sequence and is proved
  equal to `Fill`.
- `InitialConfiguration` runs `PlaceParticles`, copies the list into a new array, and calls
  `SetTemperature` on it. It is proved equal to `Initial`.

The lemmas state the properties of those functions.

Some failures are Python exceptions and some are numpy infinities or NaNs. Where the value
would be non-finite, the model returns an error (`Outcomes.Error`), because it uses exact reals
and cannot carry such a value on:

- A zero cutoff makes `2.5*sigma` a Python float zero, so the script raises
  `ZeroDivisionError`. The model gives `NumericInstability`.
- Inside the cutoff, a zero distance gives `NumericInstability`. It is a division by a numpy
  zero, so the force is non-finite.
- Inside the cutoff, a pair whose `epsilon`s have a negative product also gives
  `NumericInstability`. The combined `epsilon` is then `np.sqrt` of a negative number, which
  is NaN.
- A zero mass `m_i` in the pair step gives `NumericInstability`.
- A negative temperature ratio in the rescale gives `NumericInstability`: `np.sqrt` of it is
  NaN.
- The temperature of an empty set gives `EmptySystem`. It is a Python `ZeroDivisionError`.
- Rescaling a set at rest divides by a numpy zero. The factor is infinite and every velocity
  becomes NaN. The model gives `DegenerateTemperature`.
- Running out of candidate positions during placement gives `PackingInfeasible`.

At or beyond the cutoff the script returns the zero vector even when the distance is zero or
the `epsilon` is NaN, and so does the model.

Two quirks of the script are kept exactly as written:

- The pair loop divides the force by the mass of particle `i` only. It then adds that
  acceleration to `i` and subtracts it from `j`. So with unequal masses `j` receives `-F/m_i`:
  the loop cancels accelerations, not forces. The model proves that the accelerations keep
  their sum. It also proves the acceleration each particle ends with.
- The particle constructor call of the initial placement passes `sigma, epsilon` into the
  parameters `lj_epsilon, lj_sigma`, so the two are swapped.

The force law also keeps `sigma` to the first power, as the script has it. Both the force at
`r` and the shift at the cutoff use the direction `distv / r`.

Three further modelling choices:

- The placement loop `while True` retries a candidate position for as long as it takes. The
  model draws candidate positions from one finite sequence shared by all particles. It fails
  when that sequence runs out.
- The minimum-image displacement is signed. From 1 to 9 in a box of 10 it is `-2`, and the
  distance is 2.
- The script never checks the box lengths. The model requires `ValidBox` of its callers: every
  box length is positive.

## Model

| member | source | states |
|---|---|---|
| Vectors.NormProperties | 3d_lj_mdsim_sandbox_v1.0.0.py:57-58 | `Norm` is `vlength_simple`, `sqrt((a*a).sum())`; with a true square root it is non-negative, its square is `(a*a).sum()`, and it is zero exactly for the zero vector |
| Periodic.FloorMod | 3d_lj_mdsim_sandbox_v1.0.0.py:107 | Python's `x % L` for `L > 0` lies in `[0, L)` and differs from `x` by a whole multiple of `L` |
| Periodic.FloorModIdempotent | 3d_lj_mdsim_sandbox_v1.0.0.py:107 | taking the residue twice is the same as taking it once |
| Periodic.Wrap | 3d_lj_mdsim_sandbox_v1.0.0.py:106-107 | a wrapped position is inside the box and congruent to the input on every axis |
| Periodic.WrapIdempotent | 3d_lj_mdsim_sandbox_v1.0.0.py:106-107 | wrapping twice equals wrapping once |
| Periodic.WrapInside | 3d_lj_mdsim_sandbox_v1.0.0.py:106-107 | a position already inside the box is unchanged by wrapping |
| Periodic.MinImageDelta | 3d_lj_mdsim_sandbox_v1.0.0.py:113-118 | the signed minimum-image displacement is congruent to `b-a` modulo `L` and lies in `[-L/2, L/2]` |
| Periodic.MinImageTie | 3d_lj_mdsim_sandbox_v1.0.0.py:113-118 | the two residues tie exactly when `(b-a)%L` is `0` or `L/2`; on a tie `argmin` picks index 0, giving the non-negative forward residue |
| Periodic.MinImageAntisymmetric | 3d_lj_mdsim_sandbox_v1.0.0.py:113-118 | swapping the points negates the displacement if and only if it is not the half-box tie |
| Periodic.MinImageIsNearest | 3d_lj_mdsim_sandbox_v1.0.0.py:113-118 | no periodic image `b-a+kL` is closer to zero than the minimum-image displacement |
| Periodic.MinImageExamples | 3d_lj_mdsim_sandbox_v1.0.0.py:113-118 | in a box of 10, from 1 to 9 the displacement is `-2`; between 0 and 5 it is `+5` in both orders |
| Periodic.FloorModCongruent | 3d_lj_mdsim_sandbox_v1.0.0.py:107 | congruent numbers have the same residue |
| Periodic.MinImageVector | 3d_lj_mdsim_sandbox_v1.0.0.py:120-124 | every axis of the displacement vector lies within half the box length |
| Periodic.MinImageVectorAntisymmetric | 3d_lj_mdsim_sandbox_v1.0.0.py:120-124 | the reversed displacement vector is the negated one if and only if no axis sits at the half-box tie |
| Periodic.DistVect | 3d_lj_mdsim_sandbox_v1.0.0.py:120-124 | the loop that fills `newv` axis by axis returns the minimum-image displacement vector |
| Periodic.MinImageDotSymmetric | 3d_lj_mdsim_sandbox_v1.0.0.py:120-124 | the displacement and the reversed displacement have the same square, tie or not |
| Periodic.RadialDistSymmetric | 3d_lj_mdsim_sandbox_v1.0.0.py:109-111 | `RadialDist`, the length of the minimum-image displacement, is symmetric in its two points, tie or not |
| Periodic.RadialDistBound | 3d_lj_mdsim_sandbox_v1.0.0.py:109-111 | the squared periodic distance is at most a quarter of the squared box diagonal |
| Interaction.CombinedSigma | 3d_lj_mdsim_sandbox_v1.0.0.py:75 | the Lorentz `sigma` lies between the two particles' `sigma`s |
| Interaction.CombiningSymmetric | 3d_lj_mdsim_sandbox_v1.0.0.py:74-80 | the combined `sigma`, the combined `epsilon` and the cutoff do not depend on the order of the pair |
| Interaction.CombiningLike | 3d_lj_mdsim_sandbox_v1.0.0.py:74-75 | two like particles interact with their own `sigma` and (non-negative) `epsilon` |
| Interaction.ShiftedForce | 3d_lj_mdsim_sandbox_v1.0.0.py:81-84 | `F_r - F_cutoff`, with both terms along `distv/r`, is the difference of the two scalar laws times `distv/r`; the scalar law `LjScalar` is `((-12 sigma / r^13) - (-6 sigma / r^7)) * 4 epsilon` |
| Interaction.LjForce | 3d_lj_mdsim_sandbox_v1.0.0.py:72-86 | the force fails, always as `NumericInstability`, exactly when the cutoff is zero, or when the pair is inside the cutoff and either the distance is zero or the two `epsilon`s have a negative product; otherwise it is the zero vector at or beyond the cutoff, and `(g(r) - g(rc)) distv / r` inside it |
| Interaction.ForceVanishesBeyondCutoff | 3d_lj_mdsim_sandbox_v1.0.0.py:83-86 | with a non-zero cutoff, a pair at or beyond it feels exactly zero force, even a coincident pair or one with a NaN `epsilon` |
| Interaction.ForceParallel | 3d_lj_mdsim_sandbox_v1.0.0.py:77-84 | the force is parallel to the minimum-image displacement (zero cross product) |
| Interaction.ForceFailsIffCoincident | 3d_lj_mdsim_sandbox_v1.0.0.py:74-86 | with a true square root and a positive cutoff, the force fails if and only if the minimum-image displacement is the zero vector, or the pair is inside the cutoff with a negative product of `epsilon`s |
| Interaction.ForceAntisymmetric | 3d_lj_mdsim_sandbox_v1.0.0.py:72-86 | away from the half-box tie, swapping the pair negates the force, and the two orders fail together |
| Interaction.ForceAlong | 3d_lj_mdsim_sandbox_v1.0.0.py:77-86 | the body of `LJ_force` for given combined parameters and displacement `d`: it fails exactly for a zero cutoff, or inside the cutoff for a zero `d` or a NaN `epsilon`; it is zero at or beyond the cutoff and `(g(r) - g(rc)) d / r` inside |
| Interaction.ForceAlongNeg | 3d_lj_mdsim_sandbox_v1.0.0.py:77-86 | reversing the displacement keeps the case that applies and negates a finite force |
| Interaction.ForceAlongWork | 3d_lj_mdsim_sandbox_v1.0.0.py:77-86 | two displacements of the same length give the same failure and the same `F . d` |
| Interaction.LjForceSwapped | 3d_lj_mdsim_sandbox_v1.0.0.py:74-80 | the swapped pair uses the same combined `epsilon`, `sigma` and NaN condition, along the reversed minimum-image displacement |
| Interaction.PairVirialForm | 3d_lj_mdsim_sandbox_v1.0.0.py:81-84 | inside the cutoff, `F . distv` equals `(g(r) - g(rc)) r` |
| Particles.KineticEnergySign | 3d_lj_mdsim_sandbox_v1.0.0.py:130-134 | `KineticEnergy`, the sum of `m v.v / 2` in list order, has no contract of its own; for positive masses the kinetic energy is non-negative, and it is zero exactly when every particle is at rest |
| Particles.SumKineticEnergy | 3d_lj_mdsim_sandbox_v1.0.0.py:130-134 | the accumulator loop returns the sum of `m v.v / 2` over the set |
| Particles.Temperature | 3d_lj_mdsim_sandbox_v1.0.0.py:136-137 | the temperature fails exactly for an empty set; otherwise `T * 1.5 N` is the kinetic energy, and `T` is non-negative for positive masses |
| Particles.ScaleVelocities | 3d_lj_mdsim_sandbox_v1.0.0.py:142-143 | every velocity is multiplied by the same factor and nothing else of any particle changes |
| Particles.KineticEnergyScales | 3d_lj_mdsim_sandbox_v1.0.0.py:139-144 | scaling all velocities by `c` scales the kinetic energy by `c^2` |
| Particles.Rescaled | 3d_lj_mdsim_sandbox_v1.0.0.py:139-144 | `set_microscopic_temperature` on values multiplies every velocity by `sqrt(T/T0)`; the count is kept, and the lemmas below state its result and its failures |
| Particles.RescaledTemperature | 3d_lj_mdsim_sandbox_v1.0.0.py:139-144 | after a successful rescale, the temperature equals the target |
| Particles.RescaledKeepsRest | 3d_lj_mdsim_sandbox_v1.0.0.py:139-144 | a rescale changes velocities only |
| Particles.RescaledFailure | 3d_lj_mdsim_sandbox_v1.0.0.py:139-144 | for positive masses the rescale fails if and only if the set is empty, at rest, or the target is negative, and each case has its own error |
| Particles.SetTemperature | 3d_lj_mdsim_sandbox_v1.0.0.py:139-144 | the in-place rescale leaves the array equal to the rescaled set on success, and untouched with the matching error on failure |
| Diagnostics.PairVirial | 3d_lj_mdsim_sandbox_v1.0.0.py:152 | a pair's `F . d` fails exactly when its force does, and is zero at or beyond the cutoff |
| Diagnostics.PairVirialInsideCutoff | 3d_lj_mdsim_sandbox_v1.0.0.py:152 | inside the cutoff a pair's term is `(g(r) - g(rc)) r` |
| Diagnostics.PairVirialSymmetric | 3d_lj_mdsim_sandbox_v1.0.0.py:152 | a pair's term, or its failure, does not depend on the order of the pair, tie or not |
| Diagnostics.VirialFailureSticks | 3d_lj_mdsim_sandbox_v1.0.0.py:150-152 | once a pair term is not finite, the accumulated sum stays spoilt for the rest of the loop |
| Diagnostics.VirialVanishes | 3d_lj_mdsim_sandbox_v1.0.0.py:150-152 | with every pair at or beyond its non-zero cutoff the accumulator stays zero |
| Diagnostics.Virial | 3d_lj_mdsim_sandbox_v1.0.0.py:150-152 | the accumulator `Fij_rij` after every pair visited before a loop position, subtracted in loop order; it fails only as `NumericInstability` |
| Diagnostics.PressureOf | 3d_lj_mdsim_sandbox_v1.0.0.py:147-155 | `calc_microscopic_pressure` on values fails only as `NumericInstability`, and with fewer than two particles it is `N T / V`, where `V` is `Volume`, the product of the three box lengths (line 153), positive for a valid box |
| Diagnostics.VirialFailsIff | 3d_lj_mdsim_sandbox_v1.0.0.py:150-152 | the accumulator is spoilt exactly when some pair visited before the loop position has a non-finite force |
| Diagnostics.PressureOfFails | 3d_lj_mdsim_sandbox_v1.0.0.py:147-155 | the pressure fails exactly when some pair `j < i` has a non-finite force |
| Diagnostics.IdealGasLimit | 3d_lj_mdsim_sandbox_v1.0.0.py:147-155 | with every pair at or beyond its non-zero cutoff the pressure is the ideal-gas term `N T / V` |
| Diagnostics.Pressure | 3d_lj_mdsim_sandbox_v1.0.0.py:147-155 | the double loop over `j < i` returns `N T / V + 1/(3V)` times the sum of `-F.d`, or the failure of the first non-finite pair |
| Placement.CandidateInBox | 3d_lj_mdsim_sandbox_v1.0.0.py:220 | a candidate built from draws in `[0, 1)` lies inside the box |
| Placement.NewParticle | 3d_lj_mdsim_sandbox_v1.0.0.py:230-232 | a new particle has zero acceleration, and `sigma` and `epsilon` land swapped in `lj_epsilon` and `lj_sigma` |
| Placement.CheckOverlap | 3d_lj_mdsim_sandbox_v1.0.0.py:221-226 | the loop with `break` reports an overlap if and only if some placed particle is closer than `sigma` |
| Placement.SeparatedAppend | 3d_lj_mdsim_sandbox_v1.0.0.py:223-232 | appending a non-overlapping particle keeps the list overlap-free |
| Placement.Fill | 3d_lj_mdsim_sandbox_v1.0.0.py:216-232 | placement either fails with `PackingInfeasible`, or returns exactly `n` particles that extend the list already placed |
| Placement.FillSeparated | 3d_lj_mdsim_sandbox_v1.0.0.py:218-232 | every pair in the placed list is at least `sigma` apart under the minimum image |
| Placement.FillNewParticles | 3d_lj_mdsim_sandbox_v1.0.0.py:218-232 | the `k`-th particle placed has zero acceleration, the velocity `InitialVelocity` of the `k`-th draw (each unit draw less `0.5` per axis, as `random.random()*1-0.5` at line 230), and the swapped parameters |
| Placement.FillInBox | 3d_lj_mdsim_sandbox_v1.0.0.py:218-232 | with draws in the unit cube every placed particle starts inside the box |
| Placement.PlaceParticles | 3d_lj_mdsim_sandbox_v1.0.0.py:216-232 | the nested `for`/`while` loop computes the same list or failure as the placement specification |
| Placement.Initial | 3d_lj_mdsim_sandbox_v1.0.0.py:216-233 | placement then the rescale, on values; on success it has exactly `n` particles |
| Placement.InitialConfiguration | 3d_lj_mdsim_sandbox_v1.0.0.py:216-233 | placement followed by the in-place rescale yields the initial configuration specified by `Initial` |
| Placement.InitialProperties | 3d_lj_mdsim_sandbox_v1.0.0.py:216-233 | an initial configuration is overlap-free, with zero accelerations, the swapped parameters, positions in the box for unit draws, and the target temperature |
| Integrator.HalfKickDrift | 3d_lj_mdsim_sandbox_v1.0.0.py:271-276 | the first pass half-kicks the velocity with the old acceleration, clears the acceleration, puts the position in the box, and keeps the parameters |
| Integrator.Drifted | 3d_lj_mdsim_sandbox_v1.0.0.py:270-276 | the first pass applies `HalfKickDrift` to every particle and keeps the count |
| Integrator.HalfKickAndDrift | 3d_lj_mdsim_sandbox_v1.0.0.py:270-276 | the first loop applies that update to every particle of the array |
| Integrator.DriftClearsAccelerations | 3d_lj_mdsim_sandbox_v1.0.0.py:274 | after the first pass the accelerations sum to zero |
| Integrator.PairUpdate | 3d_lj_mdsim_sandbox_v1.0.0.py:283-285 | a pair step fails exactly when its force fails or the mass of `i` is zero; for a law whose failures are all `NumericInstability` (`FailsAsInstability`, as `LjLaw`'s are) the step then fails only as an instability |
| Integrator.Kick | 3d_lj_mdsim_sandbox_v1.0.0.py:287 | the second half kick of particle `i` keeps the count |
| Integrator.RowStart | 3d_lj_mdsim_sandbox_v1.0.0.py:280-287 | the set at the start of row `i` of the pair loop; it keeps the count and fails only as an instability when the law does |
| Integrator.Partial | 3d_lj_mdsim_sandbox_v1.0.0.py:281-285 | the set in row `i` once the columns before `j` are done; it keeps the count and fails only as an instability when the law does |
| Integrator.NewtonPairKeepsTotal | 3d_lj_mdsim_sandbox_v1.0.0.py:284-285 | adding `accadd` to `i` and subtracting it from `j` leaves the sum of accelerations unchanged |
| Integrator.PairUpdateKeeps | 3d_lj_mdsim_sandbox_v1.0.0.py:283-285 | a pair step preserves the pair-loop invariant: positions and parameters fixed, total acceleration fixed, rows before `i` finished |
| Integrator.KickKeeps | 3d_lj_mdsim_sandbox_v1.0.0.py:287 | the second half kick of row `i` completes that row and keeps the invariant |
| Integrator.AccumulatePair | 3d_lj_mdsim_sandbox_v1.0.0.py:283-285 | one in-place pair step advances the loop specification, or reports a failure that is final |
| Integrator.AccumulateRow | 3d_lj_mdsim_sandbox_v1.0.0.py:281-285 | the inner loop over `j > i` runs the row of the specification, or reports its failure |
| Integrator.SecondHalfKick | 3d_lj_mdsim_sandbox_v1.0.0.py:287 | particle `i`'s velocity gets the half kick with its new acceleration, and nothing else changes |
| Integrator.RowFailsOnward | 3d_lj_mdsim_sandbox_v1.0.0.py:280-287 | once a row fails, the whole pair loop fails |
| Integrator.AccumulateForces | 3d_lj_mdsim_sandbox_v1.0.0.py:280-287 | the pair loop leaves the array equal to the loop specification on success, or reports `NumericInstability` |
| Integrator.PairLoopResult | 3d_lj_mdsim_sandbox_v1.0.0.py:280-287 | after the pair loop, positions and parameters are unchanged, the sum of accelerations is the one before, and every velocity has the half kick with its final acceleration |
| Integrator.LjLawFrame | 3d_lj_mdsim_sandbox_v1.0.0.py:72-86 | `LJ_force` reads only the positions and parameters of the pair, not velocities or accelerations |
| Integrator.PairUpdateAccs | 3d_lj_mdsim_sandbox_v1.0.0.py:283-285 | a pair step goes through exactly when its force is finite and `m_i` is non-zero, and then `i` gains `F_ij / m_i` and `j` loses it |
| Integrator.RowStartAccs | 3d_lj_mdsim_sandbox_v1.0.0.py:280-287 | at the start of row `i` the loop has gone through exactly when every pair of the earlier rows did, and every acceleration is its start plus what it gained minus what it lost in those rows |
| Integrator.PartialAccs | 3d_lj_mdsim_sandbox_v1.0.0.py:281-285 | the same within a row, for the columns done so far |
| Integrator.PairLoopAccelerations | 3d_lj_mdsim_sandbox_v1.0.0.py:280-287 | for a law that reads only positions and parameters, the pair loop goes through exactly when every pair `i < j` has a finite force and a non-zero `m_i`; then particle `k` ends with its starting acceleration plus `F_kj / m_k` for every `j > k`, minus `F_ik / m_i` for every `i < k` |
| Integrator.PairLoopFromRest | 3d_lj_mdsim_sandbox_v1.0.0.py:280-287 | from cleared accelerations, each final acceleration is exactly what the particle gained minus what it lost |
| Integrator.PairLoopTwoParticles | 3d_lj_mdsim_sandbox_v1.0.0.py:280-287 | with two particles and any law, the loop goes through exactly when the force is finite and `m_0` is non-zero, and then particle 0 gains `F/m_0` and particle 1 loses the same `F/m_0` |
| Integrator.Tick | 3d_lj_mdsim_sandbox_v1.0.0.py:270-288 | one tick on values: the first pass, the pair loop with the Lennard-Jones law, then the rescale; the count is kept |
| Integrator.VerletTick | 3d_lj_mdsim_sandbox_v1.0.0.py:270-288 | one in-place tick leaves the array equal to the tick specification on success, or reports its error |
| Integrator.TickProperties | 3d_lj_mdsim_sandbox_v1.0.0.py:270-288 | after a tick every particle has drifted with its half-kicked velocity, wrapped into the box, kept its parameters and mass; the count is kept and the accelerations sum to zero |
| Integrator.TickAccelerations | 3d_lj_mdsim_sandbox_v1.0.0.py:270-287 | after a tick every pair of the drifted set had a finite force and a non-zero `m_i`, and particle `k` holds exactly `F_kj / m_k` summed over `j > k` minus `F_ik / m_i` summed over `i < k`, on the drifted positions |
| Integrator.TickTemperature | 3d_lj_mdsim_sandbox_v1.0.0.py:270-288 | after a tick the temperature is the target |

## Left out

- Rendering with pygame and OpenGL, window events, `save_system` with its CSV output, and the
  console prints are input and output. They are not part of this model.
- `random.random()`: position draws are a finite input sequence `draws`; velocity draws are an
  input function `velocityDraw`. The unbounded `while True` retry is bounded by the length of
  `draws`, and running out gives `PackingInfeasible`. The model does not relate the draws to a
  uniform distribution.
- IEEE-754 arithmetic: the model uses exact reals. Rounding, overflow, and numpy's propagation
  of infinities and NaNs through later steps are not modelled. A non-finite result ends the
  operation with an error instead.
- `np.sqrt` and `pow`: `sqrt` is an abstract parameter, and `Pow` is the exact integer power.
  No property of the actual Lennard-Jones magnitudes, energies or energy drift is proved.
- The module-level constants, the derived box length, and the 300000-step main loop are left
  out. One tick is modelled, with the configuration passed as parameters. The global `N` of
  the loops is the length of the particle array.
- `LJ_Particle` objects are records in an array, so aliasing between particle objects is not
  modelled. The script has none.
- Integrator.AccumulateForces: on a failure the contents of the array are not specified. The
  method stops at the first failed pair, whereas numpy would carry non-finite values on.
- Integrator.VerletTick: on a failure the array contents are not specified either, for the
  same reason.
- Interaction.ForceAntisymmetric: states antisymmetry only away from the half-box tie. On an
  axis at the tie, both orders measure `+L/2`. The reversed displacement is then the negation
  on the other axes only, so the two forces are in general neither equal nor opposite.
  `Diagnostics.PairVirialSymmetric` covers the tie: both orders still give the same `F . d`.
- Placement.Fill: does not characterise when placement succeeds. That depends on the draws.
- The temperature and pressure computed and printed at the start of every step are
  `Particles.Temperature` and `Diagnostics.Pressure`. The sequence of these values over many
  ticks is not modelled.
