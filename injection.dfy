/**
 * The crate-root types the utilities rely on: the two-kind error taxonomy of
 * the injector and the Rust `Option` / `Result<T, InjectionError>` wrappers.
 */
module Injection {

  /** The only failure kinds of the staging pipeline. */
  datatype InjectionError = FileError | CommandError

  /** Rust's `Result<T, InjectionError>`. */
  datatype Result<T> = Ok(value: T) | Err(error: InjectionError)

  /** Rust's `Option<T>`. */
  datatype Option<T> = None | Some(value: T)
}
