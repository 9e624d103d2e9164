/** Failure-carrying results shared by every stage of the compiler.
    `9cc.c` aborts the process on the first error; here an error is a value
    that names what went wrong and where. */
module Results {

  datatype Option<+T> = None | Some(value: T)

  /** The three diagnostics the compiler can raise. */
  datatype ErrorKind =
    | Untokenizable          // a character no token can start with
    | MissingCloseParen      // `(` expr not followed by `)`
    | ExpectedNumberOrParen  // a primary position holds something else

  /** `at` is a character offset for the scanner and for the whole compiler,
      and a token index inside the parser. */
  datatype Error = Error(kind: ErrorKind, at: nat)

  datatype Result<+T> = Ok(value: T) | Err(error: Error)
}
