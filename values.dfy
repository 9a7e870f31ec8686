/** The runtime values of the language and the evaluator's error results. */
module Values {
  import opened Lexer

  /**
   * A host function registered under a name. Host functions are identified
   * by name only; the single one the runtime registers is the printer.
   */
  datatype NativeFn = Stdio

  /** A runtime value. A lambda keeps its parameters and body, and no environment. */
  datatype Variable =
    | Lamda(params: seq<string>, body: seq<Lex>)
    | Rusty(native: NativeFn)
    | Int(n: i32)
    | Str(s: string)
    | Void

  /**
   * The conditions under which the evaluator aborts, each an explicit result
   * here. `OutOfFuel` is the model's bound on call depth and has no
   * counterpart in the evaluator itself.
   */
  datatype Error =
    | UnboundName(name: string)
    | NotCallable(name: string)
    | TypeMismatch
    | Overflow
    | IndexOutOfRange
    | OutOfFuel

  datatype Option<T> = None | Some(value: T)

  datatype Result<T> = Ok(value: T) | Err(error: Error)
}
