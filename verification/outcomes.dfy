/** The conditions under which the physics core cannot produce a meaningful state. */
module Outcomes {

  datatype Error =
    | EmptySystem            // the temperature of an empty particle set divides by zero
    | DegenerateTemperature  // rescaling a system at rest divides by a zero temperature
    | NumericInstability     // a division by zero in the force step (coincident particles, a zero
                             // cutoff or a zero mass), or the root of a negative temperature ratio
    | PackingInfeasible      // the candidate positions ran out before every particle was placed

  datatype Result<T> = Success(value: T) | Failure(error: Error)

  datatype Outcome = Pass | Fail(error: Error)
}
