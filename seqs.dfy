/**
 * `Array.prototype.filter` and the facts about it the storefront relies
 * on: it keeps exactly the elements that pass, in their order, and two
 * filters in a row are one filter by the conjunction.
 */
module Seqs {

  function Filter<T>(s: seq<T>, p: T -> bool): (r: seq<T>)
    ensures |r| <= |s|
    ensures forall i :: 0 <= i < |r| ==> p(r[i])
  {
    if s == [] then []
    else if p(s[0]) then [s[0]] + Filter(s[1..], p)
    else Filter(s[1..], p)
  }

  /** `a` is `b` with some elements left out, the rest in their order. */
  predicate IsSubsequence<T(==)>(a: seq<T>, b: seq<T>)
    decreases |b|
  {
    if a == [] then true
    else if b == [] then false
    else (a[0] == b[0] && IsSubsequence(a[1..], b[1..])) || IsSubsequence(a, b[1..])
  }

  lemma {:induction false} FilterIsSubsequence<T>(s: seq<T>, p: T -> bool)
    ensures IsSubsequence(Filter(s, p), s)
  {
    if s != [] {
      FilterIsSubsequence(s[1..], p);
      if !p(s[0]) && Filter(s[1..], p) != [] {
        assert Filter(s, p) == Filter(s[1..], p);
      }
    }
  }

  /** An element survives the filter exactly when it is in the input and passes. */
  lemma {:induction false} FilterMembership<T>(s: seq<T>, p: T -> bool, x: T)
    ensures x in Filter(s, p) <==> x in s && p(x)
  {
    if s != [] {
      FilterMembership(s[1..], p, x);
      assert s == [s[0]] + s[1..];
    }
  }

  /** Filtering with a predicate every element passes changes nothing. */
  lemma {:induction false} FilterAll<T>(s: seq<T>, p: T -> bool)
    requires forall i :: 0 <= i < |s| ==> p(s[i])
    ensures Filter(s, p) == s
  {
    if s != [] {
      FilterAll(s[1..], p);
      assert s == [s[0]] + s[1..];
    }
  }

  /** Two filters in a row keep what their conjunction keeps, whichever runs first. */
  lemma {:induction false} FilterFilter<T>(s: seq<T>, p: T -> bool, q: T -> bool)
    ensures Filter(Filter(s, p), q) == Filter(s, x => p(x) && q(x))
    ensures Filter(Filter(s, p), q) == Filter(Filter(s, q), p)
  {
    if s != [] {
      FilterFilter(s[1..], p, q);
    }
  }

  /** A filter applied twice is the filter applied once. */
  lemma FilterIdempotent<T>(s: seq<T>, p: T -> bool)
    ensures Filter(Filter(s, p), p) == Filter(s, p)
  {
    FilterAll(Filter(s, p), p);
  }

  /** Every element of a subsequence occurs in the sequence. */
  lemma {:induction false} SubsequenceMember<T>(a: seq<T>, s: seq<T>, k: nat)
    requires IsSubsequence(a, s) && k < |a|
    ensures a[k] in s
    decreases |s|
  {
    if a[0] == s[0] && IsSubsequence(a[1..], s[1..]) {
      if k > 0 { SubsequenceMember(a[1..], s[1..], k - 1); }
    } else {
      SubsequenceMember(a, s[1..], k);
    }
  }

  lemma {:induction false} SubsequenceReflexive<T>(s: seq<T>)
    ensures IsSubsequence(s, s)
  {
    if s != [] {
      SubsequenceReflexive(s[1..]);
    }
  }

  lemma {:induction false} SubsequenceTransitive<T>(a: seq<T>, b: seq<T>, c: seq<T>)
    requires IsSubsequence(a, b) && IsSubsequence(b, c)
    ensures IsSubsequence(a, c)
    decreases |c|
  {
    if a != [] && c != [] {
      if b[0] == c[0] && IsSubsequence(b[1..], c[1..]) {
        if a[0] == b[0] && IsSubsequence(a[1..], b[1..]) {
          SubsequenceTransitive(a[1..], b[1..], c[1..]);
        } else {
          SubsequenceTransitive(a, b[1..], c[1..]);
        }
      } else {
        SubsequenceTransitive(a, b, c[1..]);
      }
    }
  }

  /** One `if (input) filtered = filtered.filter(p)` stage: the filter when it is switched on, the list unchanged otherwise. */
  function Stage<T>(s: seq<T>, p: T -> bool, on: bool): (r: seq<T>)
    ensures !on ==> r == s
  {
    if on then Filter(s, p) else s
  }

  lemma StageMembership<T>(s: seq<T>, p: T -> bool, on: bool, x: T)
    ensures x in Stage(s, p, on) <==> x in s && (on ==> p(x))
  {
    if on { FilterMembership(s, p, x); }
  }

  lemma StageSubsequence<T>(s: seq<T>, p: T -> bool, on: bool)
    ensures IsSubsequence(Stage(s, p, on), s)
  {
    if on { FilterIsSubsequence(s, p); } else { SubsequenceReflexive(s); }
  }
}
