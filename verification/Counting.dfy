/** Counting by places: how a set of places grows with a list. */
module Counting {

  /** One set of places has the place n besides those of the other, or nothing. */
  lemma {:induction false} OneMore<T>(more: set<T>, places: set<T>, n: T, counts: bool)
    requires n !in places && forall k :: k in more <==> k in places || (counts && k == n)
    ensures |more| == |places| + if counts then 1 else 0
  {
    if counts {
      assert more == places + {n};
    } else {
      assert more == places;
    }
  }
}
