/** A value that may be absent, and two facts about finite sets. */
module Basics {
  datatype Option<+T> = None | Some(value: T)

  lemma Smaller<T>(a: set<T>, b: set<T>)
    requires a <= b
    ensures |a| <= |b|
  {
    assert b == a + (b - a);
  }

  lemma SameSize<T>(a: set<T>, b: set<T>)
    requires a <= b && |a| == |b|
    ensures a == b
  {
    forall x <- b ensures x in a {
      if x !in a {
        Smaller(a, b - {x});
      }
    }
  }
}
