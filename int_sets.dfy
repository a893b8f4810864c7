/** Choosing from finite sets of integers, as iterating over a Python set does. */
module IntSets {
  /** A set with no member is empty. */
  lemma EmptyWithoutMember(s: set<int>)
    requires forall y :: y !in s
    ensures s == {}
  {
    var e: set<int> := {};
    forall y ensures y in s <==> y in e {
    }
    assert s == e;
  }

  /** Some member of a non-empty set. */
  method AnyMember(s: set<int>) returns (x: int)
    requires s != {}
    ensures x in s
  {
    if forall y :: y !in s {
      EmptyWithoutMember(s);
      assert false;
    }
    x :| x in s;
  }
}
