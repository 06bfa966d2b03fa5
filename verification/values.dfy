/** The values the translator produces: what the transformer callbacks return
    and what the evaluator computes. They mirror the Python objects involved:
    `None`, `bool`, `int`, `float`, `str`, `list` and an insertion-ordered
    `dict` with string keys. */
module Values {

  datatype Value =
    | Null
    | Bool(b: bool)
    | Int(i: int)
      /** A Python float, kept as an exact rational (no IEEE-754 rounding). */
    | Float(x: real)
    | Str(s: string)
    | List(items: seq<Value>)
      /** A dict as its entries in insertion order; keys are kept unique by
          every operation that builds one (see module Tables). */
    | Dict(entries: seq<(string, Value)>)

  /** The runtime type names that the evaluator's error messages report. */
  datatype TypeName = NoneType | BoolType | IntType | FloatType | StrType | ListType | DictType

  function TypeOf(v: Value): TypeName
  {
    match v
    case Null => NoneType
    case Bool(_) => BoolType
    case Int(_) => IntType
    case Float(_) => FloatType
    case Str(_) => StrType
    case List(_) => ListType
    case Dict(_) => DictType
  }

  /** Python's `isinstance(v, int)`: `bool` is a subclass of `int`. */
  predicate IsInt(v: Value)
  {
    v.Int? || v.Bool?
  }

  /** Python's `isinstance(v, (int, float))`, again accepting booleans. */
  predicate IsNumber(v: Value)
  {
    IsInt(v) || v.Float?
  }

  /** The integer a Python `int` or `bool` stands for (`True` is 1). */
  function IntOf(v: Value): int
    requires IsInt(v)
  {
    if v.Int? then v.i else if v.b then 1 else 0
  }

  /** The exact number a numeric value stands for. */
  function RealOf(v: Value): real
    requires IsNumber(v)
  {
    if v.Float? then v.x else IntOf(v) as real
  }
}
