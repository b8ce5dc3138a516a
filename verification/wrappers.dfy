/** Failure-compatible wrappers shared by the whole model. */
module Wrappers {

  /** A value that may be absent; `None` stands for a JavaScript `undefined` (or any falsy value
      where the code only tests truthiness). */
  datatype Option<+T> = None | Some(value: T)

  /** A computation that produced a value or failed with an error. */
  datatype Result<+T, +E> = Success(value: T) | Failure(error: E)

  /** Gathers the values of a sequence of results in order, or yields the failure of the first
      result, in sequence order, that failed. It stands for two things in the program: mapping a
      callback that may throw over a list (the first throw aborts the map), and `Promise.all`
      (which rejects as soon as one of its promises does). */
  function Collect<T, E>(rs: seq<Result<T, E>>): (r: Result<seq<T>, E>)
    ensures r.Success? <==> forall i :: 0 <= i < |rs| ==> rs[i].Success?
    ensures r.Success? ==> |r.value| == |rs| && forall i :: 0 <= i < |rs| ==> rs[i] == Success(r.value[i])
    ensures r.Failure? ==>
              exists i :: 0 <= i < |rs| && rs[i] == Failure(r.error) && forall k :: 0 <= k < i ==> rs[k].Success?
    decreases |rs|
  {
    if |rs| == 0 then Success([])
    else
      match rs[0]
      case Failure(e) => Failure(e)
      case Success(v) =>
        match Collect(rs[1..])
        case Failure(e) =>
          assert forall i :: 0 <= i < |rs[1..]| ==> rs[1..][i] == rs[i + 1];
          Failure(e)
        case Success(vs) =>
          assert forall i :: 1 <= i < |rs| ==> rs[i] == rs[1..][i - 1];
          Success([v] + vs)
  }
}
