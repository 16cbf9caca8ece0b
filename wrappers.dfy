/** Optional values and results shared by every module of the model. */
module Wrappers {
  datatype Option<T> = None | Some(value: T)

  datatype Result<T, E> = Ok(value: T) | Err(error: E)

  /** `collect::<Option<Vec<_>>>` and friends: every value when all are present, None otherwise. */
  function Collect<T>(os: seq<Option<T>>): (r: Option<seq<T>>)
    ensures r.Some? ==> |r.value| == |os| && forall i :: 0 <= i < |os| ==> os[i] == Some(r.value[i])
    ensures r.None? ==> exists i :: 0 <= i < |os| && os[i].None?
  {
    if os == [] then Some([])
    else
      var n := |os| - 1;
      var front := Collect(os[..n]);
      if front.None? then
        assert forall k :: 0 <= k < n ==> os[..n][k] == os[k];
        None
      else if os[n].None? then None
      else
        var p := front.value + [os[n].value];
        assert forall k :: 0 <= k < n ==> os[..n][k] == os[k] && p[k] == front.value[k];
        Some(p)
  }
}
