/** Facts about lists that several parts share. */
module Sequences {
  ghost predicate NoDuplicates<T>(list: seq<T>) {
    forall i, j :: 0 <= i < j < |list| ==> list[i] != list[j]
  }

  predicate Rising(list: seq<nat>) { forall i, j :: 0 <= i < j < |list| ==> list[i] <= list[j] }

  /** Where an element first occurs; the length if it does not. */
  function IndexOf<T(==)>(list: seq<T>, x: T): (i: nat)
    ensures i <= |list| && x !in list[..i] && (i < |list| ==> list[i] == x)
  {
    if list == [] || list[0] == x then 0 else 1 + IndexOf(list[1..], x)
  }

  lemma Associative<T>(a: seq<T>, b: seq<T>, c: seq<T>)
    ensures (a + b) + c == a + (b + c)
  {
  }
}
