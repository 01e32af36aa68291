/** Small shared vocabulary: optional values (Swift's `T?`) and the members of a sequence. */
module Basics {

  /** An optional value, as Swift's `T?`. */
  datatype Option<+T> = None | Some(value: T)

  /** The set of values held by a sequence. */
  function Elements<T>(s: seq<T>): set<T>
  {
    set x | x in s
  }
}
