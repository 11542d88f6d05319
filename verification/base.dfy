/** Result shapes shared by the other modules. */
module Base {

  datatype Option<+T> = None | Some(value: T)

  /** A Python call that either returns or raises. */
  datatype Result<+T, +E> = Ok(value: T) | Err(error: E)

  /** abs(x) */
  function Abs(x: real): real { if x < 0.0 then -x else x }
}
