/**
 Python exceptions, as values. Every operation of the exporter that can raise
 returns a `Result`; an `Err` is "the call raised this exception".
 */
module Outcomes {

  /** The exceptions the exporter's own code can raise or let through. */
  datatype Exception =
    | IndexError                               // list index out of range (also `del xs[i]`)
    | AttributeError                           // `.startswith` on a header cell that is not a str
    | ValueError                               // tuple unpacking of a split with the wrong arity
    | TypeError                                // an unhashable value used as a dict key
    | IllegalFile(path: string, root: string)  // a workbook outside the input root
    | Raised(reason: string)                   // anything raised by a collaborator

  datatype Result<+T> = Ok(value: T) | Err(error: Exception) {

    predicate IsFailure() {
      Err?
    }

    function PropagateFailure<U>(): Result<U>
      requires Err?
    {
      Err(error)
    }

    function Extract(): T
      requires Ok?
    {
      value
    }
  }

  /** What a call into code outside the model (type parser, converter,
      generator) did: returned a value or raised. */
  datatype Attempt<+T> = Returned(value: T) | Threw(reason: string)

  /** A collaborator's outcome, seen from the exporter's code. */
  function Lift<T>(a: Attempt<T>): Result<T>
  {
    match a
    case Returned(v) => Ok(v)
    case Threw(why) => Err(Raised(why))
  }

  datatype Option<+T> = None | Some(value: T)

  /** A loop over `rs` that stops at the first raise: it fails with the
      first failure, and otherwise yields every value, in order. */
  function Collect<T>(rs: seq<Result<T>>): (r: Result<seq<T>>)
    ensures r.Ok? <==> forall i :: 0 <= i < |rs| ==> rs[i].Ok?
    ensures r.Ok? ==> |r.value| == |rs| && forall i :: 0 <= i < |rs| ==> r.value[i] == rs[i].value
    ensures r.Err? ==> exists i :: 0 <= i < |rs| && rs[i] == Err(r.error) && forall j :: 0 <= j < i ==> rs[j].Ok?
  {
    if rs == [] then Ok([])
    else
      match rs[0]
      case Err(e) => Err(e)
      case Ok(x) =>
        var rest := Collect(rs[1..]);
        assert forall i :: 1 <= i < |rs| ==> rs[1..][i - 1] == rs[i];
        match rest
        case Err(e) =>
          var i :| 0 <= i < |rs[1..]| && rs[1..][i] == Err(e) && forall j :: 0 <= j < i ==> rs[1..][j].Ok?;
          assert rs[i + 1] == Err(e);
          Err(e)
        case Ok(xs) => Ok([x] + xs)
  }

  /** One step of the loop: the first raise stops it, a value is put in
      front of what the rest yields. */
  lemma CollectStep<T>(rs: seq<Result<T>>)
    requires rs != []
    ensures Collect(rs) ==
      if rs[0].Err? then Err(rs[0].error)
      else if Collect(rs[1..]).Err? then Err(Collect(rs[1..]).error)
      else Ok([rs[0].value] + Collect(rs[1..]).value)
  {
  }
}
