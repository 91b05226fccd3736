/** Small shared vocabulary: optional values and native board points. */
module Base {

  /** A value that may be absent, like Python's `None`. */
  datatype Option<+T> = None | Some(value: T)

  /** A point in the board model's native fixed-point unit (nanometres).
      The conversion to millimetres (a uniform factor 1e-6) is not modelled. */
  datatype Point = Point(x: int, y: int)

  /** The side of the board a record belongs to: "F" (front) or "B" (back). */
  datatype Side = F | B

  /** A prefix one longer is the prefix with the next element appended. */
  lemma TakeSnoc<T>(s: seq<T>, i: nat)
    requires i < |s|
    ensures s[..i + 1] == s[..i] + [s[i]]
  {
  }

  /** A non-empty sequence is its initial part with its last element appended. */
  lemma InitLast<T>(s: seq<T>)
    requires s != []
    ensures s == s[..|s| - 1] + [s[|s| - 1]]
  {
  }
}
