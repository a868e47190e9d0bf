/** Failure-compatible wrappers shared by the whole model, and the Python
    exceptions the modelled code can raise. */
module Wrappers {

  /** Python's `None`-or-value, as returned by `dict.get`. */
  datatype Option<+T> = None | Some(value: T) {

    /** The value, or `default` when there is none. */
    function GetOr(default: T): T {
      match this
      case Some(v) => v
      case None => default
    }
  }

  /** A value, or the exception the Python code would raise instead. */
  datatype Result<+T, +E> = Success(value: T) | Failure(error: E) {

    predicate IsFailure() {
      Failure?
    }

    function PropagateFailure<U>(): Result<U, E>
      requires Failure?
    {
      Failure(error)
    }

    function Extract(): T
      requires Success?
    {
      value
    }
  }

  /** The exceptions that escape the modelled functions. */
  datatype Exception =
    | AttributeError   // a dataclass whose single statement has no `.body`
    | SignatureError   // `inspect.signature` cannot introspect the callable

  /** `d.get(k)` (or `d.get(k, None)`) on a Python dict. */
  function Lookup<K, V>(m: map<K, V>, k: K): (r: Option<V>)
    ensures r.Some? <==> k in m
    ensures r.Some? ==> r.value == m[k]
  {
    if k in m then Some(m[k]) else None
  }

  /** Every value of `rs`, or the failure met first when the last is
      evaluated first (recursion into the tail before the head). */
  function AllOrFirstFailure<T, E>(rs: seq<Result<T, E>>): (r: Result<seq<T>, E>)
    ensures r.Failure? <==> exists i :: 0 <= i < |rs| && rs[i].Failure?
    ensures r.Success? ==> |r.value| == |rs|
    ensures r.Success? ==> forall i :: 0 <= i < |rs| ==> r.value[i] == rs[i].value
  {
    if |rs| == 0 then Success([])
    else
      var rest := rs[1..];
      assert forall i :: 1 <= i < |rs| ==> rest[i - 1] == rs[i];
      match AllOrFirstFailure(rest)
      case Failure(e) =>
        var j :| 0 <= j < |rest| && rest[j].Failure?;
        assert rs[j + 1].Failure?;
        Failure(e)
      case Success(tail) =>
        match rs[0]
        case Failure(e) => Failure(e)
        case Success(head) => Success([head] + tail)
  }
}
