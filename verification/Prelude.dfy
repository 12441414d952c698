/** The two result types every other module uses. */
module Prelude {
  datatype Option<+T> = None | Some(value: T)

  datatype Result<+T, +E> = Ok(value: T) | Err(error: E)

  /** UUIDs, ordered as PostgreSQL orders them: by their 128-bit number. */
  type Id = nat
}
