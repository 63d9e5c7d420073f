/** Failure-compatible results for the Python exceptions the modelled code raises. */
module Outcomes {

  /** The exception classes raised (or, where the source forgets to, meant to be raised). */
  datatype Error =
    | AttributeError
    | IndexError
    | KeyError
    | TypeError
    | ValueError
    | RuntimeError
    | ZeroDivisionError

  datatype Option<+T> = None | Some(value: T)

  /** The value of a call that either returns normally or raises. */
  datatype Result<+T> = Ok(value: T) | Err(error: Error)

  /** Runs a sequence of steps in order: the first step that raises ends the run with
      its error, otherwise the run returns the value of every step. */
  function Collect<T>(rs: seq<Result<T>>): Result<seq<T>>
    decreases |rs|
  {
    if rs == [] then Ok([])
    else
      match Collect(rs[..|rs| - 1])
      case Err(e) => Err(e)
      case Ok(vs) =>
        match rs[|rs| - 1]
        case Err(e) => Err(e)
        case Ok(v) => Ok(vs + [v])
  }

  /** A run returns normally exactly when every step does, and then returns their values in order. */
  lemma {:induction false} CollectOk<T>(rs: seq<Result<T>>)
    ensures Collect(rs).Ok? <==> forall i :: 0 <= i < |rs| ==> rs[i].Ok?
    ensures Collect(rs).Ok? ==>
      |Collect(rs).value| == |rs| && forall i :: 0 <= i < |rs| ==> rs[i] == Ok(Collect(rs).value[i])
    decreases |rs|
  {
    if rs != [] {
      var init := rs[..|rs| - 1];
      CollectOk(init);
      if Collect(init).Err? {
        var j :| 0 <= j < |init| && !init[j].Ok?;
        assert rs[j] == init[j];
      } else if rs[|rs| - 1].Ok? {
        forall i | 0 <= i < |init| ensures rs[i] == init[i] {
        }
      }
    }
  }

  /** A run that raises raises the error of its first failing step, all earlier steps
      having returned normally. */
  lemma {:induction false} CollectFirstErr<T>(rs: seq<Result<T>>) returns (i: nat)
    requires Collect(rs).Err?
    ensures i < |rs| && rs[i] == Err(Collect(rs).error)
    ensures forall j :: 0 <= j < i ==> rs[j].Ok?
    decreases |rs|
  {
    var init := rs[..|rs| - 1];
    if Collect(init).Err? {
      i := CollectFirstErr(init);
      assert rs[i] == init[i];
      forall j | 0 <= j < i ensures rs[j].Ok? {
        assert rs[j] == init[j];
      }
    } else {
      i := |rs| - 1;
      CollectOk(init);
      forall j | 0 <= j < i ensures rs[j].Ok? {
        assert rs[j] == init[j];
      }
    }
  }

  /** Once the first steps of a run raise, the later steps do not change the outcome. */
  lemma {:induction false} CollectErrPrefix<T>(rs: seq<Result<T>>, n: nat)
    requires n <= |rs| && Collect(rs[..n]).Err?
    ensures Collect(rs) == Collect(rs[..n])
    decreases |rs|
  {
    if n == |rs| {
      assert rs[..n] == rs;
    } else {
      var init := rs[..|rs| - 1];
      assert init[..n] == rs[..n];
      CollectErrPrefix(init, n);
    }
  }

  /** Adding a step that returns normally to a run that does appends its value. */
  lemma CollectSnoc<T>(rs: seq<Result<T>>, v: T, vs: seq<T>)
    requires Collect(rs) == Ok(vs)
    ensures Collect(rs + [Ok(v)]) == Ok(vs + [v])
  {
    assert (rs + [Ok(v)])[..|rs|] == rs;
  }
}
