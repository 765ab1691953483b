/** Result types shared by the modules of the model.

    Python's exceptions become `Failure` values, and the `StopIteration`
    that a callback raises to end a run becomes the `Stop` signal. */
module Outcomes {

  datatype Option<+T> = None | Some(value: T)

  datatype Result<+T, +E> = Success(value: T) | Failure(error: E)

  /** What a callback tells the iteration loop: carry on, or stop the run. */
  datatype Signal = Continue | Stop

  /** A count that may be infinite, as with `np.inf` for `max_iteration`
      and `update_objective_interval`. */
  datatype Bound = Finite(n: nat) | Infinite
}

/** Arithmetic on vectors of reals shared by the modules of the model. */
module Reals {

  /** The sum of a vector, as `numpy.sum` computes it on exact reals. */
  function Sum(v: seq<real>): real
  {
    if v == [] then 0.0 else Sum(v[..|v| - 1]) + v[|v| - 1]
  }
}
