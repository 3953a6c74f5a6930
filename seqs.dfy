/** Sequence and string helpers: Python's `startswith`, `endswith`, substring `in`,
    list-comprehension filters and "take the first match" lookups. */
module Seqs {

  /** `s.startswith(prefix)` */
  predicate StartsWith<T(==)>(s: seq<T>, prefix: seq<T>) {
    |prefix| <= |s| && s[..|prefix|] == prefix
  }

  /** `s.endswith(suffix)` */
  predicate EndsWith<T(==)>(s: seq<T>, suffix: seq<T>) {
    |suffix| <= |s| && s[|s| - |suffix|..] == suffix
  }

  /** `t in s` on strings: t occurs in s at some position. */
  predicate Contains<T(==)>(s: seq<T>, t: seq<T>)
    decreases |s|
  {
    StartsWith(s, t) || (|s| > 0 && Contains(s[1..], t))
  }

  lemma {:induction false} EndsWithContains<T>(s: seq<T>, t: seq<T>)
    requires EndsWith(s, t)
    ensures Contains(s, t)
    decreases |s|
  {
    if |s| == |t| {
      assert s[..|t|] == s[|s| - |t|..];
    } else {
      assert s[1..][|s[1..]| - |t|..] == s[|s| - |t|..];
      EndsWithContains(s[1..], t);
    }
  }

  /** The list comprehension `[x for x in s if keep(x)]`, unfolded at the last element
      so that a loop over `s` can maintain it prefix by prefix. */
  function Filter<T>(keep: T -> bool, s: seq<T>): seq<T> {
    if s == [] then []
    else Filter(keep, s[..|s| - 1]) + (if keep(s[|s| - 1]) then [s[|s| - 1]] else [])
  }

  /** a can be obtained from b by deleting elements (order is kept). */
  predicate IsSubsequence<T(==)>(a: seq<T>, b: seq<T>)
    decreases |b|
  {
    a == [] ||
    (b != [] &&
     ((a[|a| - 1] == b[|b| - 1] && IsSubsequence(a[..|a| - 1], b[..|b| - 1])) ||
      IsSubsequence(a, b[..|b| - 1])))
  }

  /** A filter keeps exactly the elements its predicate accepts, each as often as it
      occurs, in their original order. */
  lemma FilterSpec<T>(keep: T -> bool, s: seq<T>)
    ensures forall x :: x in Filter(keep, s) <==> x in s && keep(x)
    ensures forall x :: multiset(Filter(keep, s))[x] == if keep(x) then multiset(s)[x] else 0
    ensures forall i :: 0 <= i < |Filter(keep, s)| ==> keep(Filter(keep, s)[i])
    ensures IsSubsequence(Filter(keep, s), s)
    ensures |Filter(keep, s)| <= |s|
  {
    FilterMembers(keep, s);
    FilterMultiset(keep, s);
    FilterSubsequence(keep, s);
    FilterKeeps(keep, s);
  }

  lemma {:induction false} FilterKeeps<T>(keep: T -> bool, s: seq<T>)
    ensures forall i :: 0 <= i < |Filter(keep, s)| ==> keep(Filter(keep, s)[i])
    ensures |Filter(keep, s)| <= |s|
  {
    if s != [] {
      var init := s[..|s| - 1];
      FilterKeeps(keep, init);
      var f, g := Filter(keep, s), Filter(keep, init);
      assert forall i :: 0 <= i < |g| ==> f[i] == g[i];
    }
  }

  lemma {:induction false} FilterMembers<T>(keep: T -> bool, s: seq<T>)
    ensures forall x :: x in Filter(keep, s) <==> x in s && keep(x)
    ensures |Filter(keep, s)| <= |s|
  {
    if s != [] {
      var init, last := s[..|s| - 1], s[|s| - 1];
      assert s == init + [last];
      FilterMembers(keep, init);
    }
  }

  lemma {:induction false} FilterMultiset<T>(keep: T -> bool, s: seq<T>)
    ensures forall x :: multiset(Filter(keep, s))[x] == if keep(x) then multiset(s)[x] else 0
  {
    if s != [] {
      var init, last := s[..|s| - 1], s[|s| - 1];
      assert s == init + [last];
      FilterMultiset(keep, init);
    }
  }

  lemma {:induction false} FilterSubsequence<T>(keep: T -> bool, s: seq<T>)
    ensures IsSubsequence(Filter(keep, s), s)
  {
    if s != [] {
      var init, last := s[..|s| - 1], s[|s| - 1];
      FilterSubsequence(keep, init);
      var f := Filter(keep, s);
      if keep(last) {
        assert f == Filter(keep, init) + [last];
        assert f[..|f| - 1] == Filter(keep, init);
      } else {
        assert f == Filter(keep, init);
      }
    }
  }

  /** Appending one element extends a filter by that element exactly when it is kept. */
  lemma FilterSnoc<T>(keep: T -> bool, s: seq<T>, i: nat)
    requires i < |s|
    ensures Filter(keep, s[..i + 1]) ==
            Filter(keep, s[..i]) + (if keep(s[i]) then [s[i]] else [])
  {
    assert s[..i + 1][..i] == s[..i];
  }

  /** Index of the first element satisfying p, or |s| when there is none: the
      `value[0]` / `idd[0]` of a filtered query. */
  function FirstIndex<T>(p: T -> bool, s: seq<T>): (k: nat)
    ensures k <= |s|
    ensures k < |s| ==> p(s[k])
    ensures forall j :: 0 <= j < k ==> !p(s[j])
  {
    if s == [] then 0
    else if p(s[0]) then 0
    else 1 + FirstIndex(p, s[1..])
  }
}
