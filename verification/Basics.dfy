/** Small types shared by the models. */
module Basics {
  datatype Option<+T> = None | Some(value: T)

  type Byte = x: int | 0 <= x < 256

  const UINT32_MAX: nat := 0xFFFF_FFFF

  /** How many values a 32-bit and a 64-bit word have. */
  const WORD: nat := 0x1_0000_0000
  const LONG_WORD: nat := 0x1_0000_0000_0000_0000

  function Max(x: int, y: int): (r: int) { if x < y then y else x }
  function Min(x: int, y: int): (r: int) { if x < y then x else y }

  ghost predicate NoDuplicates<T>(s: seq<T>) { forall i, j :: 0 <= i < j < |s| ==> s[i] != s[j] }

  lemma EmptyOrNot<T>(s: set<T>)
    ensures s == {} || exists x :: x in s
  {
    if forall x :: x !in s {
      assert s == {};
    }
  }
}
