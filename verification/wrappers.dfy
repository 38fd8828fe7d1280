/** The optional-value type used for Swift optionals throughout the model. */
module Wrappers {

  /** Swift's `T?`: either no value or some value. */
  datatype Option<+T> = None | Some(value: T) {

    /** Swift's `??`: the wrapped value, or `default` when there is none. */
    function GetOr(default: T): T {
      match this
      case Some(v) => v
      case None => default
    }
  }

  /**
   Every value of `xs`, in order, when each entry has one; no value as soon as
   any entry has none.
   */
  function AllSome<T>(xs: seq<Option<T>>): (r: Option<seq<T>>)
    ensures r.None? <==> exists i :: 0 <= i < |xs| && xs[i].None?
    ensures r.Some? ==> |r.value| == |xs| && forall i :: 0 <= i < |xs| ==> xs[i] == Some(r.value[i])
  {
    if |xs| == 0 then Some([])
    else
      match xs[0]
      case None => None
      case Some(first) =>
        match AllSome(xs[1..])
        case None => None
        case Some(rest) => Some([first] + rest)
  }
}
