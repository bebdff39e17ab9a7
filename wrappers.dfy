/** Failure-carrying wrappers shared by the modules of this model. */
module Wrappers {

  /** A value that may be absent (a NULL pointer, a missing argument, a failed parse). */
  datatype Option<+T> = None | Some(value: T)

  /** The outcome of an operation that the source ends with `exit(1)`, `assert` or `throw`. */
  datatype Result<+T, +E> = Ok(value: T) | Err(error: E)
}

/** The command line as the programs see it after `atoi`/`std::stoi`. */
module CommandLine {

  /**
   * One element of `argv[1..]`: its text, and the integer that `atoi`
   * (or `std::stoi`) makes of it. Parsing itself is not modelled.
   */
  datatype Arg = Arg(text: string, asInt: int)
}
