/** Failure-compatible datatypes shared by every module of the model.

  Python exceptions are modelled as values: a `Result<T>` is either `Ok(value)`
  or `Raise(exc)`, where `exc` records the exception's class name (what
  `type(e).__name__` prints) and its message (what `str(e)` prints).
 */
module Wrappers {

  datatype Option<+T> = None | Some(value: T) {
    predicate IsFailure() { None? }

    function PropagateFailure<U>(): Option<U>
      requires None?
    {
      None
    }

    function Extract(): T
      requires Some?
    {
      value
    }

    function GetOr(default: T): T {
      match this
      case Some(v) => v
      case None => default
    }
  }

  /** A raised Python exception: class name and message. */
  datatype Exc = Exc(kind: string, message: string)

  datatype Result<+T> = Ok(value: T) | Raise(exc: Exc) {
    predicate IsFailure() { Raise? }

    function PropagateFailure<U>(): Result<U>
      requires Raise?
    {
      Raise(exc)
    }

    function Extract(): T
      requires Ok?
    {
      value
    }
  }

  /** The one-element unit type, for operations that return nothing. */
  datatype Unit = Unit

  function ValueError<T>(message: string): Result<T> { Raise(Exc("ValueError", message)) }
  function KeyError<T>(key: string): Result<T> { Raise(Exc("KeyError", "'" + key + "'")) }
  function TypeError<T>(message: string): Result<T> { Raise(Exc("TypeError", message)) }
  function AttributeError<T>(message: string): Result<T> { Raise(Exc("AttributeError", message)) }

  /** A per-element computation applied in order, stopping at the first
      element that raises (a Python loop or `apply` over the elements). */
  function Collect<T, U>(xs: seq<T>, f: T -> Result<U>): (r: Result<seq<U>>)
    ensures r.Ok? <==> forall i | 0 <= i < |xs| :: f(xs[i]).Ok?
    ensures r.Ok? ==> |r.value| == |xs| && forall i | 0 <= i < |xs| :: f(xs[i]) == Ok(r.value[i])
    ensures r.Raise? ==> exists i | 0 <= i < |xs| :: f(xs[i]) == Raise(r.exc) && forall j | 0 <= j < i :: f(xs[j]).Ok?
  {
    if xs == [] then Ok([])
    else
      var y :- f(xs[0]);
      var rest :- Collect(xs[1..], f);
      assert forall i | 1 <= i < |xs| :: xs[i] == xs[1..][i - 1];
      Ok([y] + rest)
  }

  /** True when the result is an exception of class `kind`. */
  predicate Raises<T>(r: Result<T>, kind: string) {
    r.Raise? && r.exc.kind == kind
  }
}
