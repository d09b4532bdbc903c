/** The two failure-compatible wrappers of the model.
    - Option<T> stands for a value that may be absent: pandas' NaN, a missing
      season part, an integer that does not parse.
    - Result<T, E> stands for a computation that either yields a value or
      raises; the error value names the exception that would escape. */
module Wrappers {

  datatype Option<+T> = None | Some(value: T)

  datatype Result<+T, +E> = Ok(value: T) | Err(error: E) {

    predicate IsFailure() {
      Err?
    }

    function PropagateFailure<U>(): Result<U, E>
      requires Err?
    {
      Err(error)
    }

    function Extract(): T
      requires Ok?
    {
      value
    }
  }

  /** Index of the first failure among `rs`, if any. */
  function FirstFailure<T, E>(rs: seq<Result<T, E>>): (r: Option<nat>)
    ensures r.None? <==> forall i | 0 <= i < |rs| :: rs[i].Ok?
    ensures r.Some? ==> r.value < |rs| && rs[r.value].Err?
    ensures r.Some? ==> forall j | 0 <= j < r.value :: rs[j].Ok?
  {
    if |rs| == 0 then None
    else
      var init := rs[..|rs| - 1];
      assert forall i | 0 <= i < |rs| - 1 :: init[i] == rs[i];
      match FirstFailure(init)
      case Some(i) => Some(i)
      case None => if rs[|rs| - 1].Err? then Some(|rs| - 1) else None
  }

  /** Steps run in order, the first failure aborting the rest: every value
      when all succeed, otherwise the first error. */
  function Collect<T, E>(rs: seq<Result<T, E>>): (r: Result<seq<T>, E>)
    ensures r.Ok? <==> FirstFailure(rs).None?
    ensures r.Ok? ==> |r.value| == |rs| && forall i | 0 <= i < |rs| :: rs[i] == Ok(r.value[i])
    ensures r.Err? ==> r.error == rs[FirstFailure(rs).value].error
  {
    if |rs| == 0 then Ok([])
    else
      var init := rs[..|rs| - 1];
      assert forall i | 0 <= i < |rs| - 1 :: init[i] == rs[i];
      var vs :- Collect(init);
      var v :- rs[|rs| - 1];
      Ok(vs + [v])
  }
}
