/** Majorities of monitor sets. */
module Quorums {

  ghost predicate Majority<T>(q: set<T>, members: set<T>) {
    q <= members && 2 * |q| > |members|
  }

  /** Two majorities of one set meet. */
  lemma MajoritiesMeet<T>(a: set<T>, b: set<T>, members: set<T>)
    requires Majority(a, members) && Majority(b, members)
    ensures a * b != {}
  {
    if a * b == {} {
      assert |a + b| == |a| + |b|;
      SubsetSize(a + b, members);
    }
  }

  lemma {:induction false} SubsetSize<T>(a: set<T>, b: set<T>)
    requires a <= b
    ensures |a| <= |b|
  {
    assert b == a + (b - a);
  }

  /** Majorities of two sets that differ by one member meet. */
  lemma NeighbouringMajoritiesMeet<T>(p: set<T>, q: set<T>, a: set<T>, b: set<T>, x: T)
    requires b == a + {x} && Majority(p, a) && Majority(q, b)
    ensures p * q != {}
  {
    if p * q == {} {
      assert |p + q| == |p| + |q|;
      SubsetSize(p + q, b);
    }
  }
}
