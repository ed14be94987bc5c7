/** Definitions that several modules share. */
module Bytes {

  type byte = x: int | 0 <= x < 0x100

  type uint16 = x: int | 0 <= x < 0x1_0000

  datatype Option<+T> = None | Some(value: T)

  function Min(a: int, b: int): int {
    if a <= b then a else b
  }

  lemma OctetsDistinct(x: bv8, y: bv8)
    requires x as int == y as int
    ensures x == y
  {}

  predicate NoDup<T(==)>(s: seq<T>) {
    forall i, j :: 0 <= i < j < |s| ==> s[i] != s[j]
  }

  /** The order in which a hash map happens to visit its keys: each of them once. */
  ghost predicate Lists<T(!new)>(order: seq<T>, keys: set<T>) {
    NoDup(order) && forall x :: x in order <==> x in keys
  }
}
