/** Order-preserving selection from a sequence: the meaning of the Python list
    comprehensions `[x for x in xs if p(x)]` and of loops that append the
    elements that pass a test. */
module Seqs {

  /** `s` is `t` with some elements dropped and the rest kept in order. */
  ghost predicate IsSubsequence<T>(s: seq<T>, t: seq<T>)
    decreases |t|
  {
    |s| <= |t| &&
    (|s| == 0 || (s[0] == t[0] && IsSubsequence(s[1..], t[1..])) || IsSubsequence(s, t[1..]))
  }

  /** The elements of `s` that satisfy `p`, in their original order. */
  function Filter<T>(s: seq<T>, p: T -> bool): (r: seq<T>)
    ensures |r| <= |s|
    ensures forall k :: 0 <= k < |r| ==> p(r[k])
  {
    if |s| == 0 then []
    else if p(s[0]) then [s[0]] + Filter(s[1..], p)
    else Filter(s[1..], p)
  }

  /** Filtering keeps exactly the elements that pass, each as often as it occurs,
      in their original order. */
  lemma {:induction false} FilterSpec<T(!new)>(s: seq<T>, p: T -> bool)
    ensures forall x :: x in Filter(s, p) <==> x in s && p(x)
    ensures forall x :: multiset(Filter(s, p))[x] == if p(x) then multiset(s)[x] else 0
    ensures IsSubsequence(Filter(s, p), s)
  {
    if |s| > 0 {
      FilterSpec(s[1..], p);
      assert s == [s[0]] + s[1..];
    }
  }

  /** Filtering one element more: the loop step of an appending filter. */
  lemma {:induction false} FilterSnoc<T(!new)>(s: seq<T>, x: T, p: T -> bool)
    ensures Filter(s + [x], p) == Filter(s, p) + (if p(x) then [x] else [])
  {
    if |s| > 0 {
      assert (s + [x])[1..] == s[1..] + [x];
      FilterSnoc(s[1..], x, p);
    } else {
      assert s + [x] == [x];
    }
  }

  /** A test every element passes keeps the whole sequence. */
  lemma {:induction false} FilterKeepsAll<T(!new)>(s: seq<T>, p: T -> bool)
    requires forall k :: 0 <= k < |s| ==> p(s[k])
    ensures Filter(s, p) == s
  {
    if |s| > 0 {
      FilterKeepsAll(s[1..], p);
    }
  }

  /** A weaker test keeps everything a stronger one keeps, in the same order. */
  lemma {:induction false} FilterWeaker<T>(s: seq<T>, p: T -> bool, q: T -> bool)
    requires forall k :: 0 <= k < |s| ==> p(s[k]) ==> q(s[k])
    ensures IsSubsequence(Filter(s, p), Filter(s, q))
  {
    if |s| == 0 {
      return;
    }
    FilterWeaker(s[1..], p, q);
    var a, b := Filter(s[1..], p), Filter(s[1..], q);
    if p(s[0]) {
      assert ([s[0]] + a)[1..] == a && ([s[0]] + b)[1..] == b;
    } else if q(s[0]) {
      assert ([s[0]] + b)[1..] == b;
      assert IsSubsequence(a, ([s[0]] + b)[1..]);
    }
  }

  /** Two tests that agree on every element filter alike. */
  lemma {:induction false} FilterSame<T>(s: seq<T>, p: T -> bool, q: T -> bool)
    requires forall k :: 0 <= k < |s| ==> p(s[k]) == q(s[k])
    ensures Filter(s, p) == Filter(s, q)
  {
    if |s| > 0 {
      FilterSame(s[1..], p, q);
    }
  }
}
