/** Vocabulary shared by the modules. */
module Common {

  type byte = x: int | 0 <= x < 256

  /** The number of values of a `size_t`. */
  const SIZE_MAX_PLUS_ONE := 0x1_0000_0000_0000_0000

  datatype Option<T> = None | Some(value: T)

  ghost predicate Distinct<T>(s: seq<T>)
  {
    forall i, j :: 0 <= i < j < |s| ==> s[i] != s[j]
  }

  function Min(a: int, b: int): int
  {
    if a < b then a else b
  }
}
