/** Failure-compatible wrappers shared by the modules of this project. */
module Wrappers {

  /** A value that may be absent; the model uses `None` where the source yields
      `None`, `null` or a JavaScript `NaN`. */
  datatype Option<+T> = None | Some(value: T) {
    predicate IsFailure() { None? }

    function PropagateFailure<U>(): Option<U>
      requires None?
    {
      None
    }

    function Extract(): T
      requires Some?
    {
      value
    }
  }

  /** Either a computed value or the error the source raises instead. */
  datatype Result<+R, +E> = Ok(value: R) | Err(error: E) {
    predicate IsFailure() { Err? }

    function PropagateFailure<U>(): Result<U, E>
      requires Err?
    {
      Err(error)
    }

    function Extract(): R
      requires Ok?
    {
      value
    }
  }

  /** Runs through `rs` in order and stops at the first error, the way a
      loop whose body raises does; otherwise collects every value. */
  function AllOk<R, E>(rs: seq<Result<R, E>>): (r: Result<seq<R>, E>)
    ensures r.Ok? <==> forall i :: 0 <= i < |rs| ==> rs[i].Ok?
    ensures r.Ok? ==> |r.value| == |rs| && forall i :: 0 <= i < |rs| ==> rs[i] == Ok(r.value[i])
    ensures r.Err? ==> exists i :: 0 <= i < |rs| && rs[i] == Err(r.error) && forall j :: 0 <= j < i ==> rs[j].Ok?
  {
    if |rs| == 0 then Ok([])
    else if rs[0].Err? then Err(rs[0].error)
    else
      var rest := AllOk(rs[1..]);
      assert forall i :: 1 <= i < |rs| ==> rs[1..][i - 1] == rs[i];
      if rest.Err? then
        assert exists i :: 0 <= i < |rs| && rs[i] == Err(rest.error) && forall j :: 0 <= j < i ==> rs[j].Ok? by {
          var k :| 0 <= k < |rs| - 1 && rs[1..][k] == Err(rest.error) && forall j :: 0 <= j < k ==> rs[1..][j].Ok?;
          assert rs[k + 1] == Err(rest.error);
        }
        Err(rest.error)
      else
        var all := [rs[0].value] + rest.value;
        assert forall i :: 1 <= i < |rs| ==> all[i] == rest.value[i - 1];
        Ok(all)
  }
}
