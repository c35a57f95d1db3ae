/** Notions shared by several models. */
module Common {

  /** A thread of the runtime. */
  type Tid = nat

  type Byte = bv8

  function Min(a: int, b: int): int { if a <= b then a else b }

  predicate Distinct<T(==)>(s: seq<T>) { forall i, j :: 0 <= i < j < |s| ==> s[i] != s[j] }
}
