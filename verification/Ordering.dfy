/** Lexicographic keys and the stable sort by key. */
module Ordering {

  type Key = seq<int>

  predicate Less(a: Key, b: Key) {
    if a == [] then b != []
    else b != [] && (a[0] < b[0] || (a[0] == b[0] && Less(a[1..], b[1..])))
  }

  lemma {:induction false} LessTransitive(a: Key, b: Key, c: Key)
    requires !Less(b, a) && !Less(c, b)
    ensures !Less(c, a)
  {
    if a == [] || b == [] || c == [] || a[0] != b[0] || b[0] != c[0] {
    } else {
      LessTransitive(a[1..], b[1..], c[1..]);
    }
  }

  lemma {:induction false} LessIsTotal(a: Key, b: Key)
    ensures !(Less(a, b) && Less(b, a))
    ensures Less(a, b) || Less(b, a) || a == b
    ensures !Less(a, a)
  {
    if a == [] {
    } else {
      LessIsTotal(a[1..], a[1..]);
      if b != [] {
        LessIsTotal(a[1..], b[1..]);
        assert a[0] == b[0] && a[1..] == b[1..] ==> a == [a[0]] + a[1..] == b;
      }
    }
  }

  /** The keys agree on their first `n` parts; there the first ends, or has the smaller part. */
  predicate SmallerAt(a: Key, b: Key, n: nat) {
    && n <= |a| && n < |b| && a[..n] == b[..n]
    && (n < |a| ==> a[n] < b[n])
  }

  lemma HeadsAgree(a: Key, b: Key, n: nat)
    requires SmallerAt(a, b, n) && 0 < n
    ensures a != [] && b != [] && a[0] == b[0]
  {
    assert a[..n][0] == b[..n][0];
  }

  /** The order of tuples and texts: by the first difference, a beginning before its continuation. */
  lemma {:induction false} LessMeans(a: Key, b: Key)
    ensures Less(a, b) <==> exists n: nat :: SmallerAt(a, b, n)
  {
    if a == [] || b == [] || a[0] != b[0] {
      assert b != [] ==> a[..0] == b[..0];
      if b != [] && (a == [] || a[0] < b[0]) {
        assert SmallerAt(a, b, 0);
      }
      if exists n: nat :: SmallerAt(a, b, n) {
        var n: nat :| SmallerAt(a, b, n);
        if n > 0 { HeadsAgree(a, b, n); }
      }
    } else {
      LessMeans(a[1..], b[1..]);
      if Less(a, b) {
        var n: nat :| SmallerAt(a[1..], b[1..], n);
        assert a[..n + 1] == [a[0]] + a[1..][..n] && b[..n + 1] == [b[0]] + b[1..][..n];
        assert SmallerAt(a, b, n + 1);
      }
      if exists n: nat :: SmallerAt(a, b, n) {
        var n: nat :| SmallerAt(a, b, n);
        assert n > 0;
        assert a[1..][..n - 1] == a[..n][1..] && b[1..][..n - 1] == b[..n][1..];
        assert SmallerAt(a[1..], b[1..], n - 1);
      }
    }
  }

  /** Element `j` may stand before element `k`. */
  ghost predicate InOrder<T>(key: T -> Key, s: seq<T>, j: nat, k: nat)
    requires j < |s| && k < |s|
  {
    !Less(key(s[k]), key(s[j]))
  }

  ghost predicate SortedBy<T>(key: T -> Key, s: seq<T>) {
    forall j, k {:trigger InOrder(key, s, j, k)} :: 0 <= j < k < |s| ==> InOrder(key, s, j, k)
  }

  /** After every element that it does not precede. */
  function InsertBy<T>(key: T -> Key, s: seq<T>, x: T): (r: seq<T>)
    ensures |r| == |s| + 1
  {
    if s == [] || !Less(key(x), key(s[|s| - 1])) then s + [x]
    else InsertBy(key, s[..|s| - 1], x) + [s[|s| - 1]]
  }

  /** `sorted(s, key=key)`. */
  function SortBy<T>(key: T -> Key, s: seq<T>): (r: seq<T>)
    ensures |r| == |s|
  {
    if s == [] then [] else InsertBy(key, SortBy(key, s[..|s| - 1]), s[|s| - 1])
  }

  lemma SortedPrefix<T>(key: T -> Key, s: seq<T>, n: nat)
    requires SortedBy(key, s) && n <= |s|
    ensures SortedBy(key, s[..n])
  {
    forall j, k | 0 <= j < k < n
      ensures InOrder(key, s[..n], j, k)
    {
      assert InOrder(key, s, j, k);
    }
  }

  lemma SortedAppend<T>(key: T -> Key, s: seq<T>, x: T)
    requires SortedBy(key, s)
    requires s != [] ==> !Less(key(x), key(s[|s| - 1]))
    ensures SortedBy(key, s + [x])
  {
    var r := s + [x];
    forall j, k | 0 <= j < k < |r|
      ensures InOrder(key, r, j, k)
    {
      if k < |s| {
        assert InOrder(key, s, j, k);
      } else if j < |s| - 1 {
        assert InOrder(key, s, j, |s| - 1);
        LessTransitive(key(s[j]), key(s[|s| - 1]), key(x));
      }
    }
  }

  lemma {:induction false} InsertBySorts<T>(key: T -> Key, s: seq<T>, x: T)
    requires SortedBy(key, s)
    ensures multiset(InsertBy(key, s, x)) == multiset(s) + multiset{x}
    ensures SortedBy(key, InsertBy(key, s, x))
    ensures |InsertBy(key, s, x)| > 0
    ensures var last := InsertBy(key, s, x)[|s|];
      last == x || (s != [] && last == s[|s| - 1])
  {
    hide Less;
    if s == [] || !Less(key(x), key(s[|s| - 1])) {
      SortedAppend(key, s, x);
    } else {
      var init, last := s[..|s| - 1], s[|s| - 1];
      SortedPrefix(key, s, |s| - 1);
      InsertBySorts(key, init, x);
      LessIsTotal(key(x), key(last));
      var r := InsertBy(key, init, x);
      if init != [] { assert InOrder(key, s, |init| - 1, |init|); }
      SortedAppend(key, r, last);
      assert s == init + [last];
    }
  }

  lemma {:induction false} SortBySorts<T>(key: T -> Key, s: seq<T>)
    ensures SortedBy(key, SortBy(key, s))
    ensures multiset(SortBy(key, s)) == multiset(s)
  {
    if s == [] {
    } else {
      var init, last := s[..|s| - 1], s[|s| - 1];
      SortBySorts(key, init);
      InsertBySorts(key, SortBy(key, init), last);
      assert s == init + [last];
    }
  }

  /** Exactly the sorted sequences are left as they are. */
  lemma {:induction false} SortByFixes<T>(key: T -> Key, s: seq<T>)
    ensures SortBy(key, s) == s <==> SortedBy(key, s)
  {
    SortBySorts(key, s);
    if s == [] {
    } else if SortedBy(key, s) {
      var init, last := s[..|s| - 1], s[|s| - 1];
      SortedPrefix(key, s, |s| - 1);
      SortByFixes(key, init);
      if init != [] { assert InOrder(key, s, |init| - 1, |init|); }
      assert s == init + [last];
    }
  }
}
