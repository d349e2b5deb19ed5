// Sizes of finite sets.
module FiniteSets {
  lemma SubsetSize<T>(a: set<T>, b: set<T>)
    requires a <= b
    ensures |a| <= |b|
  {
    assert b == a + (b - a);
  }

  lemma ProperSubsetSize<T>(a: set<T>, b: set<T>, w: T)
    requires a <= b && w in b && w !in a
    ensures |a| < |b|
  {
    assert a + (b - a) == b;
    assert w in b - a;
  }

  lemma SameSize<T>(a: set<T>, b: set<T>)
    requires a <= b && |a| == |b|
    ensures a == b
  {
    assert b == a + (b - a);
  }

  lemma UnionSize<T>(c: set<T>, a: set<T>, b: set<T>)
    requires c <= a + b
    ensures |c| <= |a| + |b|
  {
    SubsetSize(c, a + b);
  }
}
