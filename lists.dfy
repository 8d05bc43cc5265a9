/** The JavaScript array operations the dashboard is built from:
    `Array.prototype.filter` (the search filter and the cart removal),
    `Array.prototype.map` (the feed projection), and the relations used to
    say what they preserve. */
module Lists {

  /** `s.filter(keep)`: the elements of `s` that satisfy `keep`, in their order. */
  function Filter<T>(s: seq<T>, keep: T -> bool): (r: seq<T>)
    ensures |r| <= |s|
    ensures forall x :: x in r ==> x in s && keep(x)
  {
    if s == [] then []
    else (if keep(s[0]) then [s[0]] else []) + Filter(s[1..], keep)
  }

  /** `s.map(f)`. */
  function Map<T, U>(s: seq<T>, f: T -> U): (r: seq<U>)
    ensures |r| == |s|
  {
    if s == [] then [] else [f(s[0])] + Map(s[1..], f)
  }

  /** `a` is obtained from `b` by deleting elements, without reordering. */
  predicate IsSubsequence<T(==)>(a: seq<T>, b: seq<T>)
  {
    a == [] ||
    (b != [] &&
     (IsSubsequence(a, b[1..]) || (a[0] == b[0] && IsSubsequence(a[1..], b[1..]))))
  }

  /** No value occurs twice. */
  predicate NoDup<T(==)>(s: seq<T>)
  {
    forall i, j :: 0 <= i < j < |s| ==> s[i] != s[j]
  }

  /** The result of `filter` keeps the original order. */
  lemma {:induction false} FilterIsSubsequence<T>(s: seq<T>, keep: T -> bool)
    ensures IsSubsequence(Filter(s, keep), s)
  {
    if s != [] {
      var rest := Filter(s[1..], keep);
      FilterIsSubsequence(s[1..], keep);
      if keep(s[0]) {
        assert Filter(s, keep) == [s[0]] + rest;
        assert ([s[0]] + rest)[0] == s[0] && ([s[0]] + rest)[1..] == rest;
      } else {
        assert Filter(s, keep) == [] + rest == rest;
      }
    }
  }

  /** An element is kept exactly when it occurs in the input and satisfies the predicate. */
  lemma {:induction false} FilterMembers<T>(s: seq<T>, keep: T -> bool, x: T)
    ensures x in Filter(s, keep) <==> x in s && keep(x)
  {
    if s != [] {
      FilterMembers(s[1..], keep, x);
      assert s == [s[0]] + s[1..];
    }
  }

  /** `filter` keeps every copy of a passing value and no copy of a failing one. */
  lemma {:induction false} FilterCount<T>(s: seq<T>, keep: T -> bool, x: T)
    ensures multiset(Filter(s, keep))[x] == if keep(x) then multiset(s)[x] else 0
  {
    if s != [] {
      FilterCount(s[1..], keep, x);
      assert s == [s[0]] + s[1..];
      assert multiset(s) == multiset([s[0]]) + multiset(s[1..]);
    }
  }

  /** When every element passes, `filter` returns its input unchanged. */
  lemma {:induction false} FilterKeepsAll<T>(s: seq<T>, keep: T -> bool)
    requires forall i :: 0 <= i < |s| ==> keep(s[i])
    ensures Filter(s, keep) == s
  {
    if s != [] {
      FilterKeepsAll(s[1..], keep);
      assert s == [s[0]] + s[1..];
    }
  }

  /** When only `x` fails the test, `filter` deletes exactly `x`. */
  lemma {:induction false} FilterDropsOne<T>(pre: seq<T>, x: T, post: seq<T>, keep: T -> bool)
    requires !keep(x)
    requires forall k :: 0 <= k < |pre| ==> keep(pre[k])
    requires forall k :: 0 <= k < |post| ==> keep(post[k])
    ensures Filter(pre + [x] + post, keep) == pre + post
  {
    calc {
      Filter(pre + [x] + post, keep);
      { FilterConcat(pre + [x], post, keep); }
      Filter(pre + [x], keep) + Filter(post, keep);
      { FilterConcat(pre, [x], keep); }
      Filter(pre, keep) + Filter([x], keep) + Filter(post, keep);
      { assert Filter([x], keep) == []; }
      Filter(pre, keep) + Filter(post, keep);
      { FilterKeepsAll(pre, keep); FilterKeepsAll(post, keep); }
      pre + post;
    }
  }

  /** When no element passes, `filter` returns the empty array. */
  lemma {:induction false} FilterDropsAll<T>(s: seq<T>, keep: T -> bool)
    requires forall i :: 0 <= i < |s| ==> !keep(s[i])
    ensures Filter(s, keep) == []
  {
    if s != [] {
      FilterDropsAll(s[1..], keep);
    }
  }

  /** `filter` distributes over concatenation. */
  lemma {:induction false} FilterConcat<T>(a: seq<T>, b: seq<T>, keep: T -> bool)
    ensures Filter(a + b, keep) == Filter(a, keep) + Filter(b, keep)
  {
    if a == [] {
      assert a + b == b;
    } else {
      var head := if keep(a[0]) then [a[0]] else [];
      FilterConcat(a[1..], b, keep);
      assert (a + b)[0] == a[0];
      assert (a + b)[1..] == a[1..] + b;
      calc {
        Filter(a + b, keep);
        head + Filter(a[1..] + b, keep);
        head + (Filter(a[1..], keep) + Filter(b, keep));
        (head + Filter(a[1..], keep)) + Filter(b, keep);
      }
    }
  }

  /** A weaker test keeps a superset of a stronger one's result, in the same order. */
  lemma {:induction false} FilterWeaker<T>(s: seq<T>, strong: T -> bool, weak: T -> bool)
    requires forall i :: 0 <= i < |s| ==> strong(s[i]) ==> weak(s[i])
    ensures IsSubsequence(Filter(s, strong), Filter(s, weak))
  {
    if s != [] {
      FilterWeaker(s[1..], strong, weak);
      var fs, fw := Filter(s[1..], strong), Filter(s[1..], weak);
      if strong(s[0]) {
        assert Filter(s, strong) == [s[0]] + fs;
        assert Filter(s, weak) == [s[0]] + fw;
        assert ([s[0]] + fs)[1..] == fs && ([s[0]] + fw)[1..] == fw;
      } else if weak(s[0]) {
        assert Filter(s, strong) == [] + fs == fs;
        assert Filter(s, weak) == [s[0]] + fw;
        assert ([s[0]] + fw)[1..] == fw;
      } else {
        assert Filter(s, strong) == [] + fs == fs;
        assert Filter(s, weak) == [] + fw == fw;
      }
    }
  }

  /** Filtering an array without duplicates gives one without duplicates. */
  lemma {:induction false} FilterKeepsNoDup<T>(s: seq<T>, keep: T -> bool)
    requires NoDup(s)
    ensures NoDup(Filter(s, keep))
  {
    if s != [] {
      FilterKeepsNoDup(s[1..], keep);
      FilterMembers(s[1..], keep, s[0]);
      var rest := Filter(s[1..], keep);
      assert s[0] !in s[1..];
      if keep(s[0]) {
        assert Filter(s, keep) == [s[0]] + rest;
      }
    }
  }

  /** `map` preserves the length and applies `f` at every position. */
  lemma {:induction false} MapAt<T, U>(s: seq<T>, f: T -> U)
    ensures |Map(s, f)| == |s|
    ensures forall i :: 0 <= i < |s| ==> Map(s, f)[i] == f(s[i])
  {
    if s != [] {
      MapAt(s[1..], f);
    }
  }

  /** An array without duplicates has as many elements as distinct values. */
  lemma {:induction false} NoDupCardinality<T>(s: seq<T>)
    requires NoDup(s)
    ensures |set x | x in s| == |s|
  {
    if s != [] {
      NoDupCardinality(s[1..]);
      assert s[0] !in s[1..];
      assert (set x | x in s) == {s[0]} + (set x | x in s[1..]);
    }
  }
}
