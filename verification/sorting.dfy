/**
 * The two orderings the programs rely on: `sorted` over the integer keys of
 * a dictionary, and the in-place `list.sort(key=...)` with an integer key or
 * a (row, col) tuple key, which Python compares lexicographically.
 */
module Sorting {

  /** A sort key: a pair of integers compared as a Python tuple is. */
  datatype Key = Key(major: int, minor: int)

  predicate KeyLe(x: Key, y: Key) {
    x.major < y.major || (x.major == y.major && x.minor <= y.minor)
  }

  predicate KeyLt(x: Key, y: Key) {
    x.major < y.major || (x.major == y.major && x.minor < y.minor)
  }

  predicate SortedBy<T>(s: seq<T>, key: T -> Key) {
    forall a, b :: 0 <= a < b < |s| ==> KeyLe(key(s[a]), key(s[b]))
  }

  predicate Increasing(s: seq<int>) {
    forall a, b :: 0 <= a < b < |s| ==> s[a] < s[b]
  }

  /** The key order is total: of two keys one is at most the other. */
  lemma KeyTotal(x: Key, y: Key)
    ensures KeyLe(x, y) || KeyLt(y, x)
  {
  }

  /**
   * One insertion step: `x` goes after every element whose key is at most
   * its own, so elements with equal keys keep their order.
   */
  method InsertBy<T>(s: seq<T>, x: T, key: T -> Key) returns (t: seq<T>)
    requires SortedBy(s, key)
    ensures SortedBy(t, key)
    ensures multiset(t) == multiset(s) + multiset{x}
  {
    var k := 0;
    while k < |s| && KeyLe(key(s[k]), key(x))
      invariant 0 <= k <= |s|
      invariant forall m :: 0 <= m < k ==> KeyLe(key(s[m]), key(x))
    {
      k := k + 1;
    }
    if k < |s| {
      KeyTotal(key(s[k]), key(x));
    }
    t := s[..k] + [x] + s[k..];
    assert s == s[..k] + s[k..];
  }

  /**
   * `list.sort(key=key)`: the result is ordered by key and holds exactly the
   * elements of the input, each as often as before.
   */
  method SortBy<T>(xs: seq<T>, key: T -> Key) returns (s: seq<T>)
    ensures SortedBy(s, key)
    ensures multiset(s) == multiset(xs)
  {
    s := [];
    for i := 0 to |xs|
      invariant SortedBy(s, key)
      invariant multiset(s) == multiset(xs[..i])
    {
      s := InsertBy(s, xs[i], key);
      assert xs[..i + 1] == xs[..i] + [xs[i]];
    }
    assert xs[..|xs|] == xs;
  }

  /** A finite non-empty set of integers has a least element. */
  lemma {:induction false} Minimum(ks: set<int>) returns (m: int)
    requires ks != {}
    ensures m in ks && forall y :: y in ks ==> m <= y
  {
    if !(exists y :: y in ks) {
      assert false;
    }
    var x :| x in ks;
    var rest := ks - {x};
    if rest == {} {
      m := x;
      forall y | y in ks
        ensures m <= y
      {
        assert y !in rest;
      }
    } else {
      var least := Minimum(rest);
      m := if x < least then x else least;
      forall y | y in ks
        ensures m <= y
      {
        if y != x {
          assert y in rest;
        }
      }
    }
  }

  /**
   * The keys of a dictionary as `sorted` yields them: every key once, in
   * strictly increasing order.
   */
  method SortedKeys(ks: set<int>) returns (s: seq<int>)
    ensures Increasing(s)
    ensures forall x :: x in s <==> x in ks
    ensures |s| == |ks|
  {
    s := [];
    var rest := ks;
    while rest != {}
      invariant rest <= ks
      invariant forall x :: x in s <==> x in ks && x !in rest
      invariant |s| + |rest| == |ks|
      invariant Increasing(s)
      invariant forall a, x :: 0 <= a < |s| && x in rest ==> s[a] < x
      decreases |rest|
    {
      ghost var least := Minimum(rest);
      var m :| m in rest && forall y :: y in rest ==> m <= y;
      s := s + [m];
      rest := rest - {m};
    }
  }
}
