/** The errors the cache reports, and the result of an operation that can fail. */
module Outcomes {

  /** What went wrong, and with which file of the cache directory. */
  datatype CacheError =
    | NotFound(name: string)          // opening a missing file, or creating one in a missing directory
    | PermissionDenied(name: string)  // the file system refused to create the file
    | Corrupt(name: string)           // the file is there but its frame or its encoding does not decode
    | Other(cause: CacheError)        // an error re-raised as ErrorKind::Other, keeping only its message

  datatype Result<+T> = Ok(value: T) | Err(error: CacheError)

  /** A list of results turned into a result of a list, as pushing each
      element with `?` does: the values in order if every element is Ok,
      otherwise the error of the first element, in index order, that is not. */
  function Collect<T>(rs: seq<Result<T>>): (r: Result<seq<T>>)
    ensures r.Ok? <==> forall i :: 0 <= i < |rs| ==> rs[i].Ok?
    ensures r.Ok? ==> |r.value| == |rs| && forall i :: 0 <= i < |rs| ==> rs[i] == Ok(r.value[i])
  {
    if rs == [] then Ok([])
    else
      match Collect(rs[..|rs| - 1])
      case Err(e) => Err(e)
      case Ok(vs) =>
        match rs[|rs| - 1]
        case Err(e) => Err(e)
        case Ok(v) => Ok(vs + [v])
  }

  /** The error reported is that of the first failing element. */
  lemma {:induction false} CollectFirstError<T>(rs: seq<Result<T>>, k: nat)
    requires k < |rs| && rs[k].Err?
    requires forall i :: 0 <= i < k ==> rs[i].Ok?
    ensures Collect(rs) == Err(rs[k].error)
  {
    var init := rs[..|rs| - 1];
    assert forall i :: 0 <= i < k ==> init[i].Ok?;
    if k < |rs| - 1 {
      assert init[k] == rs[k];
      CollectFirstError(init, k);
    }
  }

  /** Results that are all Ok collect to their values. */
  lemma CollectAllOk<T>(rs: seq<Result<T>>, vs: seq<T>)
    requires |rs| == |vs| && forall i :: 0 <= i < |rs| ==> rs[i] == Ok(vs[i])
    ensures Collect(rs) == Ok(vs)
  {
    var r := Collect(rs);
    assert r.Ok?;
    assert forall i :: 0 <= i < |vs| ==> r.value[i] == vs[i];
    assert r.value == vs;
  }
}
