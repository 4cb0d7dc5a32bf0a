/** Failure-carrying return values. A Rust `panic!`, a failed `unwrap()` or a
    failed `assert!` in the modelled code becomes an `Err`/`Fail` here, so
    that the failing inputs are visible in the contracts. */
module Wrappers {

  datatype Option<+T> = None | Some(value: T)

  datatype Result<+R, +E> = Ok(value: R) | Err(error: E)

  datatype Outcome<+E> = Pass | Fail(error: E)
}
