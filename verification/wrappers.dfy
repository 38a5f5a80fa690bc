/** The optional value used wherever the Go code returns a nil-able error or pointer. */
module Wrappers {

  datatype Option<+T> = None | Some(value: T)

  /** The zero- or one-element list an optional error contributes to a collected error list. */
  function ToSeq<T>(o: Option<T>): (s: seq<T>)
    ensures o.None? ==> s == []
    ensures o.Some? ==> s == [o.value]
  {
    match o
    case None => []
    case Some(v) => [v]
  }
}
