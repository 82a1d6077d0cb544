/** The optional-value datatype used wherever the resolver answers "absent"
    (the source's `null`). */
module Wrappers {

  datatype Option<+T> = None | Some(value: T)

  /** The elements of an optional child, as a sequence of zero or one element:
      the way a tree walk skips a child slot that holds `null`. */
  function OptionToSeq<T>(o: Option<T>): seq<T>
  {
    match o
    case Some(v) => [v]
    case None => []
  }
}
