/** The `Result<T, E>` of the Rust standard library: a value or an error. */
module Results {

  datatype Result<+T, +E> = Ok(value: T) | Err(error: E) {

    /** Rust's `map_err`: keeps a success value, rewraps an error. */
    function MapErr<F>(f: E -> F): (r: Result<T, F>)
      ensures Ok? <==> r.Ok?
      ensures Ok? ==> r.value == value
      ensures Err? ==> r.error == f(error)
    {
      match this
      case Ok(v) => Ok(v)
      case Err(e) => Err(f(e))
    }
  }

  /** An injective error conversion (such as wrapping in a single-field variant) loses
      nothing: two results convert to the same result exactly when they were equal. */
  lemma MapErrInjective<T, E, F>(a: Result<T, E>, b: Result<T, E>, f: E -> F)
    requires forall x, y :: f(x) == f(y) ==> x == y
    ensures a.MapErr(f) == b.MapErr(f) <==> a == b
  {
  }
}
