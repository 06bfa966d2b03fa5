/** Failure-compatible wrappers shared by the whole model: the translator
    fails fast on its first error, which `Result` and `:-` express directly. */
module Results {

  /** Absent-or-present value, used for lookups and partial parsers. */
  datatype Option<+T> = None | Some(value: T)

  /** Either a value or the first error encountered. */
  datatype Result<+T, +E> = Ok(value: T) | Err(error: E) {

    predicate IsFailure() {
      Err?
    }

    function PropagateFailure<U>(): Result<U, E>
      requires Err?
    {
      Err(error)
    }

    function Extract(): T
      requires Ok?
    {
      value
    }

    /** Re-wraps the error, keeping a success untouched. */
    function MapFailure<F>(wrap: E -> F): Result<T, F>
    {
      match this
      case Ok(v) => Ok(v)
      case Err(e) => Err(wrap(e))
    }
  }

  /** Runs a sequence of independent results in order and stops at the first
      failure: either every result succeeded and their values are returned in
      the same order, or the earliest failure is returned. */
  function Collect<T, E>(rs: seq<Result<T, E>>): (r: Result<seq<T>, E>)
    ensures r.Ok? <==> forall i :: 0 <= i < |rs| ==> rs[i].Ok?
    ensures r.Ok? ==> |r.value| == |rs|
    ensures r.Ok? ==> forall i :: 0 <= i < |rs| ==> r.value[i] == rs[i].value
    ensures r.Err? ==> exists k :: 0 <= k < |rs| && rs[k] == Err(r.error)
                                   && forall j :: 0 <= j < k ==> rs[j].Ok?
  {
    if rs == [] then Ok([])
    else if rs[0].Err? then Err(rs[0].error)
    else
      var rest :- Collect(rs[1..]);
      Ok([rs[0].value] + rest)
  }
}
