/** Failure-carrying values shared by every component of the prior pool model.
    Python raises exceptions; here each raising path returns `Err` with the kind
    of exception it would have raised. */
module Results {

  datatype Option<+T> = None | Some(value: T)

  /** The exceptions the modelled code can raise, plus the one outcome that only
      the model has: running out of random draws (the source loops forever). */
  datatype Error =
    | ZeroDivision      // `//` by zero
    | ZeroRangeStep     // `range(...)` with step 0 raises ValueError
    | EmptyRandRange    // `np.random.randint(low, high)` with high <= low
    | ShapeMismatch     // a tensor assignment whose shapes do not broadcast
    | OutOfDraws        // the finite stream of random draws is exhausted
    | InvalidKey        // `int(k)` on a pool key that is not an integer literal
    | EmptyPool         // `argmin` of an empty array
    | MissingKey        // `pool[str(k)]` on a key the pool does not hold

  datatype Result<+T> = Ok(value: T) | Err(error: Error)
}
