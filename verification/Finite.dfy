module Finite {
  /** A finite set of numbers has a number above it. */
  lemma {:induction false} Above(ids: set<nat>) returns (n: nat)
    ensures forall x | x in ids :: x < n
    decreases |ids|
  {
    n := 0;
    if ids != {} {
      var y :| y in ids;
      var m := Above(ids - {y});
      n := if y < m then m else y + 1;
      forall x | x in ids
        ensures x < n
      {
        assert x == y || x in ids - {y};
      }
    }
  }
}
