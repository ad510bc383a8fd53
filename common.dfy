/** Small shared definitions: an optional value and distinctness of a sequence. */
module Common {

  datatype Option<+T> = None | Some(value: T)

  /** No value occurs twice in `s`. */
  predicate Distinct<T(==)>(s: seq<T>) {
    forall i, j :: 0 <= i < j < |s| ==> s[i] != s[j]
  }

  /** JavaScript's `String(b)` for a boolean. */
  function BoolText(b: bool): (r: string)
    ensures r == "true" <==> b
  {
    if b then "true" else "false"
  }
}
