/** Sequence helpers shared by the registry's key order and the tenants'
    `enabledCategories` lists. */
module Lists {

  /** No element occurs twice. */
  ghost predicate Distinct<T>(s: seq<T>)
  {
    forall i, j :: 0 <= i < j < |s| ==> s[i] != s[j]
  }

  /** `s.filter(y => y !== x)`: every occurrence of `x` dropped, the rest
      kept in their order. */
  function Without<T(==)>(s: seq<T>, x: T): (r: seq<T>)
    ensures |r| <= |s|
    ensures x !in r
  {
    if s == [] then []
    else if s[0] == x then Without(s[1..], x)
    else [s[0]] + Without(s[1..], x)
  }

  /** An element survives the filter exactly when it was there and is not `x`. */
  lemma {:induction false} WithoutMembership<T>(s: seq<T>, x: T, y: T)
    ensures y in Without(s, x) <==> y in s && y != x
  {
    if s != [] {
      WithoutMembership(s[1..], x, y);
      assert s == [s[0]] + s[1..];
    }
  }

  /** Filtering distributes over concatenation, so the surviving elements
      keep their relative order. */
  lemma {:induction false} WithoutConcat<T>(a: seq<T>, b: seq<T>, x: T)
    ensures Without(a + b, x) == Without(a, x) + Without(b, x)
  {
    if a == [] {
      assert a + b == b;
    } else {
      assert (a + b)[1..] == a[1..] + b;
      WithoutConcat(a[1..], b, x);
    }
  }

  /** Filtering out an absent element changes nothing, and only then. */
  lemma {:induction false} WithoutUnchanged<T>(s: seq<T>, x: T)
    ensures Without(s, x) == s <==> x !in s
  {
    if s != [] {
      WithoutUnchanged(s[1..], x);
      if s[0] == x {
        assert x !in Without(s, x);
      }
    }
  }

  /** Every other element keeps its number of occurrences; `x` has none left. */
  lemma {:induction false} WithoutCounts<T>(s: seq<T>, x: T)
    ensures multiset(Without(s, x)) == multiset(s)[x := 0]
  {
    if s != [] {
      WithoutCounts(s[1..], x);
      if s[0] == x {
        WithoutCountsDropped(s, x);
      } else {
        WithoutCountsKept(s, x);
      }
    }
  }

  /** One step of `WithoutCounts` when the head is the dropped element. */
  lemma WithoutCountsDropped<T>(s: seq<T>, x: T)
    requires s != [] && s[0] == x
    requires multiset(Without(s[1..], x)) == multiset(s[1..])[x := 0]
    ensures multiset(Without(s, x)) == multiset(s)[x := 0]
  {
    assert s == [s[0]] + s[1..];
    assert multiset(s) == multiset{x} + multiset(s[1..]);
  }

  /** One step of `WithoutCounts` when the head is kept. */
  lemma WithoutCountsKept<T>(s: seq<T>, x: T)
    requires s != [] && s[0] != x
    requires multiset(Without(s[1..], x)) == multiset(s[1..])[x := 0]
    ensures multiset(Without(s, x)) == multiset(s)[x := 0]
  {
    var t := s[1..];
    assert s == [s[0]] + t;
    assert multiset(s) == multiset{s[0]} + multiset(t);
    assert multiset(Without(s, x)) == multiset{s[0]} + multiset(Without(t, x));
  }

  /** A list without repeats stays without repeats. */
  lemma {:induction false} WithoutDistinct<T>(s: seq<T>, x: T)
    requires Distinct(s)
    ensures Distinct(Without(s, x))
  {
    if s != [] {
      assert Distinct(s[1..]) by {
        forall i, j | 0 <= i < j < |s[1..]| ensures s[1..][i] != s[1..][j] {
          assert s[1..][i] == s[i + 1] && s[1..][j] == s[j + 1];
        }
      }
      WithoutDistinct(s[1..], x);
      if s[0] != x {
        var w := Without(s[1..], x);
        WithoutMembership(s[1..], x, s[0]);
        assert s[0] !in s[1..];
        forall i, j | 0 <= i < j < |[s[0]] + w| ensures ([s[0]] + w)[i] != ([s[0]] + w)[j] {
          if i == 0 {
            assert ([s[0]] + w)[j] == w[j - 1];
          } else {
            assert ([s[0]] + w)[i] == w[i - 1] && ([s[0]] + w)[j] == w[j - 1];
          }
        }
      }
    }
  }

  /** Concatenation is associative. */
  lemma ConcatAssoc<T>(a: seq<T>, b: seq<T>, c: seq<T>)
    ensures a + (b + c) == (a + b) + c
  {
  }
}
