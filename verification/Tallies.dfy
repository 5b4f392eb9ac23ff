// Counted votes as triples of a candidate, what it asks for, and a voter: how many distinct
// voters stand behind a tally.
module Tallies {

  /** Those counted for a candidate and its request. */
  function Voters<A(==), B(==), C(==)>(counted: set<(A, B, C)>, a: A, b: B): set<C> {
    set x | x in counted && x.0 == a && x.1 == b :: x.2
  }

  function One(b: bool): nat {
    if b then 1 else 0
  }

  lemma VoterCounted<A, B, C>(counted: set<(A, B, C)>, a: A, b: B, v: C)
    ensures v in Voters(counted, a, b) <==> (a, b, v) in counted
  {
    if (a, b, v) in counted {
      assert (a, b, v).2 in Voters(counted, a, b);
    }
  }

  lemma VotersSame<A, B, C(!new)>(counted: set<(A, B, C)>, later: set<(A, B, C)>, a: A, b: B)
    requires forall v: C :: (a, b, v) in counted <==> (a, b, v) in later
    ensures Voters(counted, a, b) == Voters(later, a, b)
  {
    forall v: C
      ensures v in Voters(counted, a, b) <==> v in Voters(later, a, b)
    {
      VoterCounted(counted, a, b, v);
      VoterCounted(later, a, b, v);
    }
  }

  /** Counting a new voter makes the tally one larger. */
  lemma VotersCount<A, B, C(!new)>(counted: set<(A, B, C)>, later: set<(A, B, C)>, a: A, b: B, v: C)
    requires (a, b, v) !in counted && later == counted + {(a, b, v)}
    ensures |Voters(later, a, b)| == |Voters(counted, a, b)| + 1
  {
    VoterCounted(counted, a, b, v);
    forall u: C
      ensures u in Voters(later, a, b) <==> u in Voters(counted, a, b) || u == v
    {
      VoterCounted(counted, a, b, u);
      VoterCounted(later, a, b, u);
    }
    assert Voters(later, a, b) == Voters(counted, a, b) + {v};
  }
}
