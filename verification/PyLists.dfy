/** The Python list operations the harness relies on, over immutable sequences. */
module PyLists {

  datatype Option<+T> = None | Some(value: T)

  function Elements<T>(s: seq<T>): set<T> {
    set x | x in s
  }

  ghost predicate NoDup<T>(s: seq<T>) {
    forall i, j :: 0 <= i < j < |s| ==> s[i] != s[j]
  }

  /** `random.choice(s)`: any element. The precondition is the absence of IndexError. */
  method Choice<T>(s: seq<T>) returns (x: T)
    requires s != []
    ensures x in s
  {
    var i :| 0 <= i < |s|;
    x := s[i];
  }

  /** `random.sample(s, k)`: `k` elements at distinct positions. */
  method Sample<T(==)>(s: seq<T>, k: nat) returns (r: seq<T>)
    requires NoDup(s) && k <= |s|
    ensures NoDup(r) && |r| == k && Elements(r) <= Elements(s)
  {
    var left := s;
    r := [];
    NoDupCounts(s);
    while |r| < k
      invariant |r| <= k && |left| == |s| - |r|
      invariant Splits(r, left, Elements(s))
    {
      var x := Choice(left);
      assert Splits(left, r, Elements(s));
      MoveKeepsSplit(left, r, Elements(s), x);
      left := Remove(left, x);
      r := r + [x];
    }
    SplitsMeaning(r, left, Elements(s));
  }

  /** `list.remove(x)`: drops the first occurrence. The precondition is the absence of ValueError. */
  function Remove<T(==)>(s: seq<T>, x: T): (r: seq<T>)
    requires x in s
    ensures multiset(s) == multiset(r) + multiset{x}
    ensures |r| == |s| - 1
  {
    assert s == [s[0]] + s[1..];
    if s[0] == x then s[1..] else [s[0]] + Remove(s[1..], x)
  }

  /** `filter(lambda y: y != x, s)`. */
  function Without<T(==)>(s: seq<T>, x: T): (r: seq<T>)
    ensures multiset(r) == multiset(s)[x := 0]
    ensures x !in r
  {
    if s == [] then [] else
      assert s == [s[0]] + s[1..];
      if s[0] == x then Without(s[1..], x) else [s[0]] + Without(s[1..], x)
  }

  /** Two lists that together hold every member of `all` exactly once. */
  ghost predicate Splits<T>(a: seq<T>, b: seq<T>, all: set<T>) {
    multiset(a) + multiset(b) == multiset(all)
  }

  lemma {:induction false} NoDupCounts<T>(s: seq<T>)
    ensures NoDup(s) <==> multiset(s) == multiset(Elements(s))
  {
    if s != [] {
      var t := s[..|s| - 1];
      var x := s[|s| - 1];
      assert s == t + [x];
      NoDupCounts(t);
      if NoDup(s) {
        assert x !in t;
        assert Elements(s) == Elements(t) + {x};
        assert multiset(s) == multiset(t) + multiset{x};
      }
      if multiset(s) == multiset(Elements(s)) {
        forall i, j | 0 <= i < j < |s| ensures s[i] != s[j] {
          if s[i] == s[j] {
            TwiceCounted(s, i, j);
          }
        }
      }
    }
  }

  lemma TwiceCounted<T>(s: seq<T>, i: nat, j: nat)
    requires i < j < |s| && s[i] == s[j]
    ensures multiset(s)[s[i]] >= 2
  {
    assert s == s[..j] + s[j..];
    assert s[i] == s[..j][i] && s[j] == s[j..][0];
    assert s[i] in s[..j] && s[j] in s[j..];
  }

  /** The multiset form says exactly: duplicate-free, disjoint, and together everything. */
  lemma SplitsMeaning<T>(a: seq<T>, b: seq<T>, all: set<T>)
    ensures Splits(a, b, all) <==>
            NoDup(a) && NoDup(b) && Elements(a) !! Elements(b) && Elements(a) + Elements(b) == all
  {
    NoDupCounts(a);
    NoDupCounts(b);
    if Splits(a, b, all) {
      forall x ensures multiset(a)[x] + multiset(b)[x] == multiset(all)[x] {}
      forall x | x in a ensures x in all && multiset(a)[x] == 1 && x !in b {
        assert x in multiset(a);
      }
      forall x | x in b ensures x in all && multiset(b)[x] == 1 && x !in a {
        assert x in multiset(b);
      }
      forall x | x in all ensures x in a || x in b {
        assert x in multiset(a) || x in multiset(b);
      }
      assert multiset(a) == multiset(Elements(a));
      assert multiset(b) == multiset(Elements(b));
    }
  }

  /** What one removal and one append keep, and the sizes they leave. */
  lemma MoveKeepsSplit<T>(a: seq<T>, b: seq<T>, all: set<T>, x: T)
    requires Splits(a, b, all) && x in a
    ensures Splits(Remove(a, x), b + [x], all)
    ensures Elements(Remove(a, x)) == Elements(a) - {x} && Elements(b + [x]) == Elements(b) + {x}
    ensures x in all && x !in b
  {
    var r := Remove(a, x);
    assert multiset(b + [x]) == multiset(b) + multiset{x};
    SplitsMeaning(a, b, all);
    assert Splits(r, b + [x], all);
    SplitsMeaning(r, b + [x], all);
    assert x in Elements(b + [x]);
    forall y ensures y in a <==> y in r || y == x {
      assert y in a <==> multiset(a)[y] > 0;
      assert y in r <==> multiset(r)[y] > 0;
      assert multiset(a)[y] == multiset(r)[y] + multiset{x}[y];
    }
    assert x !in Elements(r);
  }

  lemma SplitSizes<T>(a: seq<T>, b: seq<T>, all: set<T>)
    requires Splits(a, b, all)
    ensures |a| + |b| == |all|
  {
    assert |multiset(a) + multiset(b)| == |multiset(all)|;
  }

  /** The list `s` holds what remains of `xs` from index `k` on, and `rest` besides. */
  ghost predicate LeftOver<T>(s: seq<T>, xs: seq<T>, k: nat, rest: multiset<T>)
    requires k <= |xs|
  {
    multiset(s) == multiset(xs[k..]) + rest
  }

  lemma TakeOne<T>(s: seq<T>, xs: seq<T>, k: nat, rest: multiset<T>)
    requires k < |xs| && LeftOver(s, xs, k, rest)
    ensures xs[k] in s && LeftOver(Remove(s, xs[k]), xs, k + 1, rest)
  {
    assert xs[k..] == [xs[k]] + xs[k + 1..];
    assert xs[k] in multiset(s);
    var r, left := Remove(s, xs[k]), multiset(xs[k + 1..]) + rest;
    assert multiset(s) == left + multiset{xs[k]};
    Cancel(multiset(r), left, multiset{xs[k]});
  }

  lemma Cancel<T>(a: multiset<T>, b: multiset<T>, m: multiset<T>)
    requires a + m == b + m
    ensures a == b
  {
    assert a == a + m - m && b == b + m - m;
  }

  lemma TookAll<T>(s: seq<T>, xs: seq<T>, rest: multiset<T>)
    requires LeftOver(s, xs, |xs|, rest)
    ensures multiset(s) == rest
  {
  }

  lemma AllButOne<T>(s: seq<T>, t: seq<T>, one: T, all: set<T>)
    requires multiset(s) == multiset(t) == multiset(all) && one in s
    ensures LeftOver(s, Without(s, one), 0, multiset{one})
    ensures LeftOver(t, Without(s, one), 0, multiset{one})
    ensures multiset(Without(s, one)) == multiset(all - {one})
  {
  }

  lemma OnlyOne<T>(s: seq<T>, one: T)
    requires multiset(s) == multiset{one}
    ensures s == [one]
  {
  }

  lemma {:induction false} ListOf<T>(s: set<T>) returns (l: seq<T>)
    ensures Splits(l, [], s) && Elements(l) == s && |l| == |s|
  {
    if s == {} {
      l := [];
    } else {
      var x :| x in s;
      var t := ListOf(s - {x});
      l := t + [x];
      assert multiset(s) == multiset(s - {x}) + multiset{x};
      assert multiset(t) == multiset(t) + multiset([]);
      assert multiset(l) + multiset([]) == multiset(t) + multiset{x};
      assert Elements(l) == Elements(t) + {x};
    }
  }
}
