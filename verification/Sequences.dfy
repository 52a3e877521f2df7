/** Sequences without repetition. */
module Sequences {

  predicate Distinct<T(==)>(s: seq<T>) {
    forall i, j | 0 <= i < j < |s| :: s[i] != s[j]
  }

  lemma {:induction false} DistinctByCount<T>(s: seq<T>)
    ensures Distinct(s) <==> forall x | x in s :: multiset(s)[x] == 1
  {
    if s != [] {
      var n := |s| - 1;
      var front := s[..n];
      assert s == front + [s[n]];
      DistinctByCount(front);
      assert multiset(s) == multiset(front) + multiset{s[n]};
      if Distinct(s) {
        assert s[n] !in front;
      }
      if forall x | x in s :: multiset(s)[x] == 1 {
        assert multiset(s)[s[n]] == 1;
        assert s[n] !in front;
        forall x | x in front ensures multiset(front)[x] == 1 {
          assert multiset(s)[x] == 1;
        }
      }
    }
  }

  lemma DistinctForgetsOrder<T>(a: seq<T>, b: seq<T>)
    requires multiset(a) == multiset(b)
    ensures Distinct(a) <==> Distinct(b)
  {
    DistinctByCount(a);
    DistinctByCount(b);
    forall x ensures x in a <==> x in b {
      assert x in a <==> x in multiset(a);
    }
  }
}
