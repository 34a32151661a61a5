/** Outcomes shared by every day: an optional value, and a value or the panic the Rust code would raise. */
module Wrappers {
  datatype Option<T> = None | Some(value: T)

  /** `Panic` stands for a Rust `panic!`, a failed `unwrap` or an out-of-range index: the program aborts. */
  datatype Result<T> = Ok(value: T) | Panic(msg: string)

  /** How a computation of the source ends: with a value, by looping forever, or in a panic. */
  datatype Run<T> = Ends(value: T) | Spins | Panics(msg: string)
}
