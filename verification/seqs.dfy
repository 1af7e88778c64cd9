/** Order-preserving filtering, prefixes and subsequences: the list
    operations (`Array.prototype.filter`, `slice(0, n)`, a MongoDB `find`
    over a collection kept in insertion order) that the handlers use. */
module Seqs {

  /** The elements of `s` that satisfy `p`, in their original order. */
  function Filter<T(==)>(p: T -> bool, s: seq<T>): (r: seq<T>)
    ensures |r| <= |s|
    ensures forall i :: 0 <= i < |r| ==> r[i] in s && p(r[i])
    ensures forall i :: 0 <= i < |s| && p(s[i]) ==> s[i] in r
  {
    if |s| == 0 then []
    else if p(s[0]) then [s[0]] + Filter(p, s[1..])
    else Filter(p, s[1..])
  }

  /** The first `n` elements of `s`, or all of `s` when it is shorter
      (`s.slice(0, n)`). */
  function Take<T>(s: seq<T>, n: nat): (r: seq<T>)
    ensures |r| == if |s| < n then |s| else n
    ensures r == s[..|r|]
  {
    if |s| <= n then s else s[..n]
  }

  /** `a` is obtained from `b` by deleting elements, keeping the order. */
  predicate IsSubseq<T(==)>(a: seq<T>, b: seq<T>)
    decreases |b|
  {
    if |a| == 0 then true
    else if |b| == 0 then false
    else (a[0] == b[0] && IsSubseq(a[1..], b[1..])) || IsSubseq(a, b[1..])
  }

  /** Filtering keeps the order of the kept elements. */
  lemma {:induction false} FilterIsSubseq<T>(p: T -> bool, s: seq<T>)
    ensures IsSubseq(Filter(p, s), s)
    decreases |s|
  {
    if |s| > 0 {
      FilterIsSubseq(p, s[1..]);
      var r := Filter(p, s[1..]);
      if p(s[0]) {
        assert Filter(p, s) == [s[0]] + r;
        assert ([s[0]] + r)[1..] == r;
      }
    }
  }

  /** Dropping a tail of a subsequence leaves a subsequence. */
  lemma {:induction false} PrefixOfSubseq<T>(a: seq<T>, b: seq<T>, k: nat)
    requires IsSubseq(a, b)
    requires k <= |a|
    ensures IsSubseq(a[..k], b)
    decreases |b|
  {
    if k > 0 {
      assert |b| > 0;
      if a[0] == b[0] && IsSubseq(a[1..], b[1..]) {
        PrefixOfSubseq(a[1..], b[1..], k - 1);
        assert a[1..][..k - 1] == a[..k][1..];
      } else {
        PrefixOfSubseq(a, b[1..], k);
      }
    }
  }

  /** Filtering keeps exactly the occurrences of each accepted value. */
  lemma {:induction false} FilterMultiset<T>(p: T -> bool, s: seq<T>)
    ensures forall x :: multiset(Filter(p, s))[x] == if p(x) then multiset(s)[x] else 0
    decreases |s|
  {
    if |s| > 0 {
      FilterMultiset(p, s[1..]);
      assert s == [s[0]] + s[1..];
      assert multiset(s) == multiset{s[0]} + multiset(s[1..]);
      if p(s[0]) {
        assert multiset(Filter(p, s)) == multiset{s[0]} + multiset(Filter(p, s[1..]));
      }
    }
  }

  /** Two filters in a row equal one filter on the conjunction. */
  lemma {:induction false} FilterFuse<T>(p: T -> bool, q: T -> bool, both: T -> bool, s: seq<T>)
    requires forall x :: both(x) == (q(x) && p(x))
    ensures Filter(p, Filter(q, s)) == Filter(both, s)
    decreases |s|
  {
    if |s| > 0 {
      FilterFuse(p, q, both, s[1..]);
      var t := Filter(q, s[1..]);
      if q(s[0]) {
        assert Filter(q, s) == [s[0]] + t;
        assert ([s[0]] + t)[1..] == t;
      }
    }
  }

  /** A filter that accepts no position keeps nothing. */
  lemma {:induction false} FilterNoneAccepted<T>(p: T -> bool, s: seq<T>)
    requires forall i :: 0 <= i < |s| ==> !p(s[i])
    ensures Filter(p, s) == []
    decreases |s|
  {
    if |s| > 0 {
      FilterNoneAccepted(p, s[1..]);
    }
  }

  /** A filter that accepts no two positions keeps at most one element. */
  lemma {:induction false} FilterAtMostOne<T>(p: T -> bool, s: seq<T>)
    requires forall i, j :: 0 <= i < j < |s| && p(s[i]) ==> !p(s[j])
    ensures |Filter(p, s)| <= 1
    decreases |s|
  {
    if |s| > 0 {
      if p(s[0]) {
        forall i | 0 <= i < |s[1..]|
          ensures !p(s[1..][i])
        {
          assert s[1..][i] == s[i + 1];
        }
        FilterNoneAccepted(p, s[1..]);
      } else {
        FilterAtMostOne(p, s[1..]);
      }
    }
  }

  /** A filter that accepts two distinct positions keeps at least two elements. */
  lemma {:induction false} FilterAtLeastTwo<T>(p: T -> bool, s: seq<T>, i: nat, j: nat)
    requires i < j < |s|
    requires p(s[i]) && p(s[j])
    ensures |Filter(p, s)| >= 2
    decreases |s|
  {
    if i == 0 {
      assert s[j] == s[1..][j - 1];
      assert s[j] in Filter(p, s[1..]);
    } else {
      FilterAtLeastTwo(p, s[1..], i - 1, j - 1);
    }
  }

  /** A filter keeps something exactly when some position is accepted. */
  lemma {:induction false} FilterNonEmpty<T>(p: T -> bool, s: seq<T>)
    ensures |Filter(p, s)| > 0 <==> exists i :: 0 <= i < |s| && p(s[i])
  {
    if |Filter(p, s)| > 0 {
      var x := Filter(p, s)[0];
      assert x in Filter(p, s);
      var i :| 0 <= i < |s| && s[i] == x;
    }
    if i :| 0 <= i < |s| && p(s[i]) {
      assert s[i] in Filter(p, s);
    }
  }

  /** Appending an element the filter accepts appends it to the result. */
  lemma {:induction false} FilterAppendAccepted<T>(p: T -> bool, s: seq<T>, x: T)
    requires p(x)
    ensures Filter(p, s + [x]) == Filter(p, s) + [x]
    decreases |s|
  {
    if |s| == 0 {
      assert Filter(p, [x]) == [x] + Filter(p, [x][1..]);
    } else {
      assert (s + [x])[1..] == s[1..] + [x];
      FilterAppendAccepted(p, s[1..], x);
    }
  }
}
