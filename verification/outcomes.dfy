/** Failure-carrying return types used instead of the exceptions the C# code throws. */
module Outcomes {

  /** An optional value: `None` where the C# code would throw or return nothing. */
  datatype Option<+T> = None | Some(value: T)

  /** A value or the error that stopped the computation. */
  datatype Result<+T, +E> = Ok(value: T) | Err(error: E)

  /** A check that either passes or reports why it failed. */
  datatype Outcome<+E> = Pass | Fail(error: E)

  /** Every value, in order, when none is missing; `None` as soon as one is. */
  function AllSome<T>(xs: seq<Option<T>>): (r: Option<seq<T>>)
    ensures r.Some? <==> forall i :: 0 <= i < |xs| ==> xs[i].Some?
    ensures r.Some? ==> |r.value| == |xs| && forall i :: 0 <= i < |xs| ==> xs[i] == Some(r.value[i])
  {
    if |xs| == 0 then Some([])
    else
      var rest := AllSome(xs[1..]);
      assert forall i :: 1 <= i < |xs| ==> xs[1..][i - 1] == xs[i];
      if xs[0].None? || rest.None? then None else Some([xs[0].value] + rest.value)
  }
}
