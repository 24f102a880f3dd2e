/** The Result type, and the exceptions the legacy writer can raise. */
module Wrappers {

  datatype Result<+T, +E> = Ok(value: T) | Err(error: E)

  /**
   * The exceptions src/VTKWriter.py can raise on well-typed input:
   * a KeyError looking up a node that was not renumbered, an IndexError
   * reading past the end of an element's node list, and an IndexError
   * reading past the end of a results block's sorted node ids.
   */
  datatype ConversionError =
    | MissingNode(elementId: int, nodeId: int)
    | ShortElement(elementId: int, position: nat)
    | TooFewResults(field: string, available: nat)

  /**
   * Runs a sequence of steps that each succeed or raise, in order: the
   * values of all of them, or the exception of the first that raises.
   */
  function Collect<T, E>(rs: seq<Result<T, E>>): (r: Result<seq<T>, E>)
    ensures r.Ok? <==> forall i :: 0 <= i < |rs| ==> rs[i].Ok?
    ensures r.Ok? ==> |r.value| == |rs| && forall i :: 0 <= i < |rs| ==> rs[i] == Ok(r.value[i])
    ensures r.Err? ==> exists i :: (0 <= i < |rs| && rs[i] == Err(r.error)
      && forall i' :: 0 <= i' < i ==> rs[i'].Ok?)
  {
    if rs == [] then Ok([])
    else
      var init := rs[..|rs| - 1];
      assert forall i :: 0 <= i < |init| ==> init[i] == rs[i];
      match Collect(init)
      case Err(err) => Err(err)
      case Ok(vs) =>
        match rs[|rs| - 1]
        case Err(err) => Err(err)
        case Ok(v) => Ok(vs + [v])
  }

  /** One more step extends a successful prefix or raises its exception. */
  lemma CollectStep<T, E>(rs: seq<Result<T, E>>, i: nat, vs: seq<T>)
    requires i < |rs| && Collect(rs[..i]) == Ok(vs)
    ensures Collect(rs[..i + 1]) == match rs[i] case Ok(v) => Ok(vs + [v]) case Err(err) => Err(err)
  {
    assert rs[..i + 1][..i] == rs[..i];
  }

  /** Once a prefix raises an exception, the whole sequence raises it. */
  lemma {:induction false} CollectErrPersists<T, E>(rs: seq<Result<T, E>>, i: nat)
    requires i <= |rs| && Collect(rs[..i]).Err?
    ensures Collect(rs) == Collect(rs[..i])
    decreases |rs| - i
  {
    if i < |rs| {
      var t := rs[..i + 1];
      assert t[..|t| - 1] == rs[..i];
      CollectErrPersists(rs, i + 1);
    } else {
      assert rs[..i] == rs;
    }
  }

}
