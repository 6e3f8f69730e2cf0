/** Optional values and failure-carrying results, standing for Swift optionals
    and for functions that `throw`. */
module Results {

  datatype Option<+T> = None | Some(value: T) {
    /** Swift's `??`: the wrapped value, or `default` when there is none. */
    function GetOr(default: T): T {
      match this
      case Some(v) => v
      case None => default
    }
  }

  datatype Result<+R, +E> = Success(value: R) | Failure(error: E)

  /** A loop that runs a throwing `step` on each element in order and
      appends its results: the results of all steps, or the error of the
      first step that threw (the later steps do not run). */
  function Traverse<A, B, E>(xs: seq<A>, step: A -> Result<B, E>): (r: Result<seq<B>, E>)
    ensures r.Success? ==> |r.value| == |xs|
  {
    if xs == [] then Success([])
    else
      match Traverse(xs[..|xs| - 1], step)
      case Failure(e) => Failure(e)
      case Success(done) =>
        match step(xs[|xs| - 1])
        case Failure(e) => Failure(e)
        case Success(y) => Success(done + [y])
  }

  /** All or nothing: the loop succeeds exactly when every step succeeds,
      and result `i` is then the result of step `i`. */
  lemma {:induction false} TraverseSuccess<A, B, E>(xs: seq<A>, step: A -> Result<B, E>)
    ensures Traverse(xs, step).Success? <==> forall i :: 0 <= i < |xs| ==> step(xs[i]).Success?
    ensures Traverse(xs, step).Success? ==>
              forall i :: 0 <= i < |xs| ==> step(xs[i]) == Success(Traverse(xs, step).value[i])
  {
    if xs != [] {
      var n := |xs| - 1;
      var init := xs[..n];
      TraverseSuccess(init, step);
      assert forall i :: 0 <= i < n ==> init[i] == xs[i];
      match Traverse(init, step)
      case Failure(e) =>
        var i :| 0 <= i < n && !step(init[i]).Success?;
        assert !step(xs[i]).Success?;
      case Success(done) =>
        match step(xs[n])
        case Failure(e) =>
        case Success(y) =>
          assert Traverse(xs, step) == Success(done + [y]);
    }
  }

  /** A failed loop carries the error of the first step that threw. */
  lemma {:induction false} TraverseFirstFailure<A, B, E>(xs: seq<A>, step: A -> Result<B, E>)
    requires Traverse(xs, step).Failure?
    ensures exists i :: 0 <= i < |xs| && step(xs[i]) == Failure(Traverse(xs, step).error) &&
                        forall j :: 0 <= j < i ==> step(xs[j]).Success?
  {
    var n := |xs| - 1;
    var init := xs[..n];
    assert forall i :: 0 <= i < n ==> init[i] == xs[i];
    if Traverse(init, step).Failure? {
      TraverseFirstFailure(init, step);
      var i :| 0 <= i < n && step(init[i]) == Failure(Traverse(init, step).error) &&
               forall j :: 0 <= j < i ==> step(init[j]).Success?;
      assert step(xs[i]) == Failure(Traverse(xs, step).error);
    } else {
      TraverseSuccess(init, step);
      assert step(xs[n]) == Failure(Traverse(xs, step).error);
    }
  }

  /** One more iteration of the loop: the step on element `i` either throws
      or appends its result. */
  lemma TraverseStep<A, B, E>(xs: seq<A>, i: nat, step: A -> Result<B, E>)
    requires i < |xs|
    requires Traverse(xs[..i], step).Success?
    ensures step(xs[i]).Failure? ==> Traverse(xs[..i + 1], step) == Failure(step(xs[i]).error)
    ensures step(xs[i]).Success? ==>
              Traverse(xs[..i + 1], step) == Success(Traverse(xs[..i], step).value + [step(xs[i]).value])
  {
    assert xs[..i + 1][..i] == xs[..i];
  }

  /** The loop ends with the error of step `k` when the steps before it
      succeeded and step `k` throws: the later elements play no part. */
  lemma {:induction false} TraverseStopsAt<A, B, E>(xs: seq<A>, k: nat, step: A -> Result<B, E>)
    requires k < |xs|
    requires Traverse(xs[..k], step).Success?
    requires step(xs[k]).Failure?
    ensures Traverse(xs, step) == Failure(step(xs[k]).error)
  {
    var init := xs[..|xs| - 1];
    if k == |xs| - 1 {
      assert init == xs[..k];
    } else {
      assert init[..k] == xs[..k] && init[k] == xs[k];
      TraverseStopsAt(init, k, step);
    }
  }
}
