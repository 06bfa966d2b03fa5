/** The failures the translator can meet. In the program each is an exception
    (a `ValueError` from the evaluator, a `TypeError` from Python's own `+`, a
    `ValueError` from `float(...)` or `chr(...)`); `parse_config` catches them
    all and raises a single configuration syntax error carrying the message. */
module Errors {
  import opened Values

  datatype Fault =
      /** A `|name|` whose name was never declared; the message names it. */
    | UndefinedVariable(name: string)
      /** An operator applied to operand types it does not support; the
          message names the operator and both operand types. */
    | UnsupportedOperands(op: string, left: TypeName, right: TypeName)
    | DivisionByZero
      /** `chr` given something that is not an `int`. */
    | ChrExpectsInt(got: TypeName)
      /** `chr` given an `int` outside `range(0x110000)`. */
    | CodePointOutOfRange(code: int)
      /** `chr` given a surrogate code point, which has no `char` here. */
    | SurrogateCodePoint(code: int)
    | UnknownFunction(name: string)
      /** A number token that is neither an `int` nor a `float` literal. */
    | MalformedNumber(text: string)

  /** What `parse_config` raises: every failure, whatever its origin. */
  datatype ConfigSyntaxError = ConfigSyntaxError(cause: Fault)
}
