/**
  Rust's `Option` and `Result`, with the three `Result` combinators the
  identifier's parse entry point is built from: `or_else`, `map` and `map_err`.
 */
module Results {

  /** `Option<T>`: `None`, or `Some` value. */
  datatype Option<T> = None | Some(value: T)

  /** `Result<T, E>`: a success value or an error value. */
  datatype Result<T, E> = Ok(value: T) | Err(error: E) {

    /** `Result::or_else`: a success passes through untouched; an error is
        handed to `f`, whose answer becomes the result. */
    function OrElse<F>(f: E -> Result<T, F>): (r: Result<T, F>)
      ensures Ok? ==> r.Ok? && r.value == value
      ensures Err? ==> r == f(error)
    {
      match this
      case Ok(v) => Ok(v)
      case Err(e) => f(e)
    }

    /** `Result::map`: transforms a success value, keeps the error. */
    function Map<U>(f: T -> U): (r: Result<U, E>)
      ensures r.Ok? <==> Ok?
      ensures Ok? ==> r.value == f(value)
      ensures Err? ==> r.error == error
    {
      match this
      case Ok(v) => Ok(f(v))
      case Err(e) => Err(e)
    }

    /** `Result::map_err`: transforms an error value, keeps the success. */
    function MapErr<F>(f: E -> F): (r: Result<T, F>)
      ensures r.Ok? <==> Ok?
      ensures Ok? ==> r.value == value
      ensures Err? ==> r.error == f(error)
    {
      match this
      case Ok(v) => Ok(v)
      case Err(e) => Err(f(e))
    }
  }
}
