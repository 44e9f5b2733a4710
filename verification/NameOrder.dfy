/** The comparison of names that the program leaves to the locale (`localeCompare`), as a parameter. */
module NameOrder {
  /** What any locale comparison is: a strict order in which being tied is transitive too. */
  ghost predicate WeakOrder(less: (string, string) -> bool) {
    && (forall a :: !less(a, a))
    && (forall a, b, c :: less(a, b) && less(b, c) ==> less(a, c))
    && (forall a, b, c :: Tied(a, b, less) && Tied(b, c, less) ==> Tied(a, c, less))
  }

  predicate Tied(a: string, b: string, less: (string, string) -> bool) {
    !less(a, b) && !less(b, a)
  }

  lemma NotLessChain(a: string, b: string, c: string, less: (string, string) -> bool)
    requires WeakOrder(less) && !less(c, b) && !less(b, a)
    ensures !less(c, a)
  {
    assert Tied(a, b, less) || less(a, b);
    assert Tied(b, c, less) || less(b, c);
    assert Tied(a, b, less) && Tied(b, c, less) ==> Tied(a, c, less);
    assert less(c, a) && less(a, b) ==> less(c, b);
    assert less(b, c) && less(c, a) ==> less(b, a);
  }
}
