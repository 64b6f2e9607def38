/** Failure-carrying datatypes used throughout the model: an optional value, a
    value-or-error result, and a pass-or-error outcome for checks that return
    nothing. A Python function that raises is modelled by the error side. */
module Wrappers {

  datatype Option<+T> = None | Some(value: T)

  datatype Result<+T, +E> = Success(value: T) | Failure(error: E)

  datatype Outcome<+E> = Pass | Fail(error: E)

  /** The outcome of running `checks` left to right and stopping at the first
      failure: the way a Python function that calls several validators in a row
      reports the first one that raised. */
  function FirstFailure<E>(checks: seq<Outcome<E>>): (r: Outcome<E>)
    ensures r.Pass? <==> forall k :: 0 <= k < |checks| ==> checks[k].Pass?
    ensures r.Fail? ==> exists k :: 0 <= k < |checks| && checks[k] == r
                                   && forall j :: 0 <= j < k ==> checks[j].Pass?
  {
    if |checks| == 0 then Pass
    else if checks[0].Fail? then checks[0]
    else
      var rest := FirstFailure(checks[1..]);
      assert forall k :: 1 <= k < |checks| ==> checks[k] == checks[1..][k - 1];
      rest
  }

  /** Running a check and then the rest is running all of them. */
  lemma FirstFailureCons<E>(first: Outcome<E>, rest: seq<Outcome<E>>)
    ensures FirstFailure([first] + rest) == if first.Fail? then first else FirstFailure(rest)
  {
    assert ([first] + rest)[1..] == rest;
  }
}
