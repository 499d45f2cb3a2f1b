/** Facts about sequences and sets that several modules use. */
module Collections {

  /** The values a sequence takes. */
  function Elements<T>(xs: seq<T>): set<T>
  {
    set x | x in xs
  }

  lemma InElements<T>(xs: seq<T>, i: nat)
    requires i < |xs|
    ensures xs[i] in Elements(xs)
  {
  }

  /** A non-empty set has a member to pick. */
  lemma NonEmptyHasMember(s: set<int>)
    requires s != {}
    ensures exists x :: x in s
  {
    if forall x :: x !in s {
      assert false;
    }
  }

}
