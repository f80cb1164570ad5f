/** Small building blocks shared by every module. */
module Wrappers {
  /** The optional value used wherever the source returns or stores `None`. */
  datatype Option<+T> = None | Some(value: T)

  /** No element occurs twice. */
  predicate NoDup<T(==)>(s: seq<T>) {
    forall i, j :: 0 <= i < j < |s| ==> s[i] != s[j]
  }

  /** The position of the first occurrence of x. */
  function IndexOf<T(==)>(xs: seq<T>, x: T): (k: nat)
    requires x in xs
    ensures k < |xs| && xs[k] == x && x !in xs[..k]
  {
    var init := xs[..|xs| - 1];
    if x in init then
      var k := IndexOf(init, x);
      assert xs[..k] == init[..k];
      k
    else |xs| - 1
  }

  /** Only one position holds x with no x before it. */
  lemma IndexOfUnique<T>(xs: seq<T>, x: T, k: nat)
    requires k < |xs| && xs[k] == x && x !in xs[..k]
    ensures IndexOf(xs, x) == k
  {
  }
}
