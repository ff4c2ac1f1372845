/** Small facts about Dafny's collections used by the iteration loops. */
module Collections {
  /** A non-empty set has an element to pick. */
  lemma HasElement<T>(s: set<T>)
    requires s != {}
    ensures exists x :: x in s
  {
    assert !forall x :: x !in s;
  }
}
