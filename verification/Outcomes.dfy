// Results of operations that can trap, and optional values.
module Outcomes {
  datatype Option<+T> = None | Some(value: T)

  /** A WebAssembly operation either returns or traps (`unreachable`). */
  datatype Outcome<+T> = Trap | Done(value: T)
}
