/** `sorted(...)`: an ordering that is total has one sorted arrangement of every multiset. */
module Sorting {

  ghost predicate TotalOrder<T(!new)>(leq: (T, T) -> bool) {
    && (forall x, y :: leq(x, y) || leq(y, x))
    && (forall x, y :: leq(x, y) && leq(y, x) ==> x == y)
    && (forall x, y, z :: leq(x, y) && leq(y, z) ==> leq(x, z))
  }

  ghost predicate Ordered<T>(s: seq<T>, leq: (T, T) -> bool) {
    forall i, j | 0 <= i < j < |s| :: leq(s[i], s[j])
  }

  function Insert<T>(x: T, s: seq<T>, leq: (T, T) -> bool): seq<T> {
    if s == [] || leq(x, s[0]) then [x] + s else [s[0]] + Insert(x, s[1..], leq)
  }

  function Sort<T>(s: seq<T>, leq: (T, T) -> bool): seq<T> {
    if s == [] then [] else Insert(s[0], Sort(s[1..], leq), leq)
  }

  lemma {:induction false} InsertKeepsElements<T>(x: T, s: seq<T>, leq: (T, T) -> bool)
    ensures multiset(Insert(x, s, leq)) == multiset(s) + multiset{x}
  {
    if s != [] && !leq(x, s[0]) {
      InsertKeepsElements(x, s[1..], leq);
      assert s == [s[0]] + s[1..];
    }
  }

  lemma {:induction false} SortKeepsElements<T>(s: seq<T>, leq: (T, T) -> bool)
    ensures multiset(Sort(s, leq)) == multiset(s)
    ensures |Sort(s, leq)| == |s|
  {
    if s != [] {
      SortKeepsElements(s[1..], leq);
      InsertKeepsElements(s[0], Sort(s[1..], leq), leq);
      assert s == [s[0]] + s[1..];
    }
    assert |multiset(Sort(s, leq))| == |multiset(s)|;
  }

  lemma {:induction false} InsertKeepsOrder<T(!new)>(x: T, s: seq<T>, leq: (T, T) -> bool)
    requires TotalOrder(leq) && Ordered(s, leq)
    ensures Ordered(Insert(x, s, leq), leq)
  {
    if s != [] && !leq(x, s[0]) {
      var rest := Insert(x, s[1..], leq);
      InsertKeepsOrder(x, s[1..], leq);
      InsertKeepsElements(x, s[1..], leq);
      forall j | 0 <= j < |rest|
        ensures leq(s[0], rest[j])
      {
        assert rest[j] in multiset(rest);
        assert rest[j] in multiset(s[1..]) || rest[j] == x;
      }
    }
  }

  lemma {:induction false} SortOrders<T(!new)>(s: seq<T>, leq: (T, T) -> bool)
    requires TotalOrder(leq)
    ensures Ordered(Sort(s, leq), leq)
  {
    if s != [] {
      SortOrders(s[1..], leq);
      InsertKeepsOrder(s[0], Sort(s[1..], leq), leq);
    }
  }

  /** The first of an ordered sequence is below all its elements. */
  lemma FirstIsLeast<T(!new)>(s: seq<T>, x: T, leq: (T, T) -> bool)
    requires TotalOrder(leq) && Ordered(s, leq) && x in multiset(s)
    ensures s != [] && leq(s[0], x)
  {
    var i :| 0 <= i < |s| && s[i] == x;
  }

  lemma RestOf<T>(s: seq<T>)
    requires s != []
    ensures multiset(s[1..]) == multiset(s) - multiset{s[0]}
  {
    assert s == [s[0]] + s[1..];
  }

  /** Two ordered arrangements of one multiset are the same sequence. */
  lemma {:induction false} OrderedUnique<T(!new)>(a: seq<T>, b: seq<T>, leq: (T, T) -> bool)
    requires TotalOrder(leq)
    requires Ordered(a, leq) && Ordered(b, leq)
    requires multiset(a) == multiset(b)
    ensures a == b
  {
    assert |multiset(a)| == |a| && |multiset(b)| == |b|;
    if a != [] {
      assert a[0] in multiset(b) && b[0] in multiset(a);
      FirstIsLeast(a, b[0], leq);
      FirstIsLeast(b, a[0], leq);
      assert a[0] == b[0];
      RestOf(a);
      RestOf(b);
      OrderedUnique(a[1..], b[1..], leq);
      assert a == [a[0]] + a[1..] && b == [b[0]] + b[1..];
    }
  }

  /** Sorting forgets the order it was given. */
  lemma SortForgetsOrder<T(!new)>(a: seq<T>, b: seq<T>, leq: (T, T) -> bool)
    requires TotalOrder(leq)
    requires multiset(a) == multiset(b)
    ensures Sort(a, leq) == Sort(b, leq)
  {
    SortKeepsElements(a, leq);
    SortKeepsElements(b, leq);
    SortOrders(a, leq);
    SortOrders(b, leq);
    OrderedUnique(Sort(a, leq), Sort(b, leq), leq);
  }

  lemma SortFixed<T(!new)>(a: seq<T>, leq: (T, T) -> bool)
    requires TotalOrder(leq) && Ordered(a, leq)
    ensures Sort(a, leq) == a
  {
    SortKeepsElements(a, leq);
    SortOrders(a, leq);
    OrderedUnique(Sort(a, leq), a, leq);
  }

  // ---------------------------------------------------------------- lexicographic order

  /** Lexicographic order of sequences whose elements are compared by an integer rank. */
  predicate Lex<T>(a: seq<T>, b: seq<T>, rank: T -> int) {
    a == [] || (b != [] && (rank(a[0]) < rank(b[0]) || (rank(a[0]) == rank(b[0]) && Lex(a[1..], b[1..], rank))))
  }

  lemma {:induction false} LexTotal<T>(a: seq<T>, b: seq<T>, rank: T -> int)
    ensures Lex(a, b, rank) || Lex(b, a, rank)
  {
    if a != [] && b != [] {
      LexTotal(a[1..], b[1..], rank);
    }
  }

  lemma {:induction false} LexAntisymmetric<T(!new)>(a: seq<T>, b: seq<T>, rank: T -> int)
    requires forall x, y :: rank(x) == rank(y) ==> x == y
    requires Lex(a, b, rank) && Lex(b, a, rank)
    ensures a == b
  {
    if a != [] && b != [] {
      LexAntisymmetric(a[1..], b[1..], rank);
      assert a == [a[0]] + a[1..] && b == [b[0]] + b[1..];
    }
  }

  lemma {:induction false} LexTransitive<T>(a: seq<T>, b: seq<T>, c: seq<T>, rank: T -> int)
    requires Lex(a, b, rank) && Lex(b, c, rank)
    ensures Lex(a, c, rank)
  {
    if a != [] && rank(a[0]) == rank(b[0]) == rank(c[0]) {
      LexTransitive(a[1..], b[1..], c[1..], rank);
    }
  }

  const CharRank: char -> int := (c: char) => c as int

  /** Python's order of strings: by code point. */
  predicate StringLeq(a: string, b: string) {
    Lex(a, b, CharRank)
  }

  lemma StringOrder()
    ensures TotalOrder(StringLeq)
  {
    forall x, y ensures StringLeq(x, y) || StringLeq(y, x) { LexTotal(x, y, CharRank); }
    forall x, y | StringLeq(x, y) && StringLeq(y, x) ensures x == y { LexAntisymmetric(x, y, CharRank); }
    forall x, y, z | StringLeq(x, y) && StringLeq(y, z) ensures StringLeq(x, z) { LexTransitive(x, y, z, CharRank); }
  }
}
