/** Facts about sequences that the solver is better told than left to find. */
module Sequences {

  lemma Assoc<T>(a: seq<T>, b: seq<T>, c: seq<T>)
    ensures a + b + c == a + (b + c)
  {
  }

  lemma Unprefix<T>(p: seq<T>, a: seq<T>, b: seq<T>)
    requires p + a <= p + b
    ensures a <= b
  {
    assert (p + a)[|p|..] == a && (p + b)[|p|..] == b;
    forall i | 0 <= i < |a| ensures a[i] == b[i] {
      assert (p + a)[|p| + i] == (p + b)[|p| + i];
    }
  }
}
