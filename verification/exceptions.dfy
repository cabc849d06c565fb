/** The exceptions the analysis core raises, and the failure-compatible
    `Result` that carries them out of a pure function instead of unwinding. */
module Exceptions {

  datatype Option<+T> = None | Some(value: T)

  /** The exception classes of exceptions.py that the core raises, together
      with the Python built-in exceptions raised by its indexing, parsing and
      arithmetic. */
  datatype Exception =
    | InvalidDataSetException(message: string)
    | NegativeNumberException(message: string)
    | IndexError   // a list or column position out of range
    | KeyError     // a column label the table does not have
    | ValueError   // float() of a malformed numeral
    | TypeError    // abs() of a text cell; a label slice whose bound is absent

  datatype Result<+T> = Ok(value: T) | Err(error: Exception) {

    predicate IsFailure() {
      Err?
    }

    function PropagateFailure<U>(): Result<U>
      requires Err?
    {
      Err(error)
    }

    function Extract(): T
      requires Ok?
    {
      value
    }
  }

  /** A loop over steps that may raise: the first error ends it, otherwise
      it yields every step's value in order. */
  function Sequence<T>(rs: seq<Result<T>>): (r: Result<seq<T>>)
    ensures r.Ok? <==> forall k :: 0 <= k < |rs| ==> rs[k].Ok?
    ensures r.Ok? ==> |r.value| == |rs| && forall k :: 0 <= k < |rs| ==> rs[k] == Ok(r.value[k])
    ensures r.Err? ==> exists k :: 0 <= k < |rs| && rs[k] == Err(r.error)
                          && forall m :: 0 <= m < k ==> rs[m].Ok?
  {
    if |rs| == 0 then Ok([])
    else
      match rs[0]
      case Err(x) => Err(x)
      case Ok(first) =>
        var rest := Sequence(rs[1..]);
        assert forall k :: 1 <= k < |rs| ==> rs[k] == rs[1..][k - 1];
        match rest
        case Err(x) =>
          var k :| 0 <= k < |rs[1..]| && rs[1..][k] == Err(x) && forall m :: 0 <= m < k ==> rs[1..][m].Ok?;
          assert rs[k + 1] == Err(x);
          Err(x)
        case Ok(values) => Ok([first] + values)
  }
}
