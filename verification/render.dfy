/** Python's `str(...)` and `repr(...)` of a value, which the evaluator uses
    for string coercion in `+` and for `print`. */
module Render {
  import opened Results
  import opened Values
  import opened Numerals

  /** The parts separated by `sep`, as Python's `sep.join(parts)`. */
  function Join(parts: seq<string>, sep: string): string
  {
    if |parts| == 0 then ""
    else if |parts| == 1 then parts[0]
    else parts[0] + sep + Join(parts[1..], sep)
  }

  /** Python's `repr(v)`: strings are quoted; lists and dicts show their
      elements' `repr`, in order. */
  function Repr(v: Value): string
  {
    match v
    case Null => "None"
    case Bool(b) => if b then "True" else "False"
    case Int(i) => IntText(i)
    case Float(x) => FloatText(x)
    case Str(s) => "'" + s + "'"
    case List(items) =>
      "[" + Join(seq(|items|, k requires 0 <= k < |items| => Repr(items[k])), ", ") + "]"
    case Dict(entries) =>
      "{" + Join(seq(|entries|, k requires 0 <= k < |entries| =>
                       "'" + entries[k].0 + "': " + Repr(entries[k].1)), ", ") + "}"
  }

  /** Python's `str(v)`: a string is its own text; every other value is
      rendered as by `repr`. */
  function Text(v: Value): string
  {
    if v.Str? then v.s else Repr(v)
  }

  /** What `str` prints for an `int` reads back as that int. */
  lemma IntTextReadsBack(i: int)
    ensures ParseInt(Text(Int(i))) == Some(i)
  {
    IntTextRoundTrip(i);
  }

  /** A float holding a whole number below 10^16 in magnitude prints as the
      int's text plus ".0" and reads back as that float; so `print(10 / 2)`
      is "5.0". */
  lemma WholeFloatReadsBack(n: int)
    requires (if n < 0 then -n else n) < PositionalLimit
    ensures Text(Float(n as real)) == Text(Int(n)) + ".0"
    ensures ParseFloat(Text(Float(n as real))) == Some(n as real)
  {
    WholeFloatText(n);
    WholeFloatParse(n);
  }
}
