/**
 Sequence utilities shared by the review filters, the stop-word filter and the
 ranking: an order-preserving filter, the subsequence relation, occurrence
 counting and duplicate-freedom.
 */
module Seqs {

  /** The elements of `s` that satisfy `p`, in their original order
      (a boolean mask applied to a table, or a list comprehension with a guard). */
  function Filter<T(!new)>(s: seq<T>, p: T -> bool): (r: seq<T>)
    ensures |r| <= |s|
    ensures forall x :: x in r <==> x in s && p(x)
  {
    if s == [] then [] else (if p(s[0]) then [s[0]] else []) + Filter(s[1..], p)
  }

  /** The filter keeps every copy of what it keeps: each element occurs in
      the result as often as in the input when it passes, and never otherwise. */
  lemma {:induction false} FilterCounts<T(!new)>(s: seq<T>, p: T -> bool)
    ensures forall x :: multiset(Filter(s, p))[x] == if p(x) then multiset(s)[x] else 0
  {
    if s != [] {
      FilterCounts(s[1..], p);
      assert s == [s[0]] + s[1..];
    }
  }

  /** `a` can be obtained from `b` by deleting elements: same elements, same order. */
  predicate IsSubsequence<T(==)>(a: seq<T>, b: seq<T>)
    decreases |b|
  {
    if a == [] then true
    else if b == [] then false
    else if a[0] == b[0] then IsSubsequence(a[1..], b[1..])
    else IsSubsequence(a, b[1..])
  }

  /** Number of times `x` occurs in `s`; agrees with the multiset of `s`. */
  function Occurrences<T(==)>(s: seq<T>, x: T): (n: nat)
    ensures n == multiset(s)[x]
    ensures n > 0 <==> x in s
  {
    if s == [] then 0
    else
      assert s == [s[0]] + s[1..];
      (if s[0] == x then 1 else 0) + Occurrences(s[1..], x)
  }

  predicate NoDuplicates<T(==)>(s: seq<T>) {
    forall i, j :: 0 <= i < j < |s| ==> s[i] != s[j]
  }

  /** A sequence without duplicates holds each of its elements once. */
  lemma DistinctOccursOnce<T>(s: seq<T>, x: T)
    requires NoDuplicates(s) && x in s
    ensures multiset(s)[x] == 1
  {
    var k := FirstIndex(s, x);
    var after := s[k + 1..];
    assert s == s[..k] + [x] + after;
    assert x !in after by {
      forall m | 0 <= m < |after| ensures after[m] != x {
        assert after[m] == s[k + 1 + m];
      }
    }
  }

  /** Taking some of the elements of a duplicate-free sequence, in any order,
      gives a duplicate-free sequence. */
  lemma NoDuplicatesSubMultiset<T>(r: seq<T>, s: seq<T>)
    requires NoDuplicates(s) && multiset(r) <= multiset(s)
    ensures NoDuplicates(r)
  {
    forall i, j | 0 <= i < j < |r| ensures r[i] != r[j] {
      if r[i] == r[j] {
        var x := r[i];
        assert r == r[..j] + r[j..];
        assert r[..j][i] == x && r[j..][0] == x;
        assert multiset(r)[x] == multiset(r[..j])[x] + multiset(r[j..])[x];
        assert x in s by { assert x in multiset(s); }
        DistinctOccursOnce(s, x);
        assert false;
      }
    }
  }

  /** The position of the first occurrence of `x` in `s`. */
  function FirstIndex<T(==)>(s: seq<T>, x: T): (k: nat)
    requires x in s
    ensures k < |s| && s[k] == x && x !in s[..k]
  {
    if s[0] == x then 0
    else
      var k := FirstIndex(s[1..], x);
      assert s[..k + 1] == [s[0]] + s[1..][..k];
      k + 1
  }

  /** The first occurrence is the only position holding `x` with no `x` before it. */
  lemma {:induction false} FirstIndexUnique<T>(s: seq<T>, x: T, k: nat)
    requires k < |s| && s[k] == x && x !in s[..k]
    ensures FirstIndex(s, x) == k
  {
    if s[0] != x {
      assert s[..k] == [s[0]] + s[1..][..k - 1];
      FirstIndexUnique(s[1..], x, k - 1);
    }
  }

  /** A first occurrence inside a prefix is the first occurrence in the whole sequence. */
  lemma FirstIndexInPrefix<T>(s: seq<T>, m: nat, x: T)
    requires m <= |s| && x in s[..m]
    ensures FirstIndex(s, x) == FirstIndex(s[..m], x)
  {
    var k := FirstIndex(s[..m], x);
    assert s[..k] == s[..m][..k];
    FirstIndexUnique(s, x, k);
  }

  /** The filter keeps the order of what it keeps. */
  lemma {:induction false} FilterIsSubsequence<T(!new)>(s: seq<T>, p: T -> bool)
    ensures IsSubsequence(Filter(s, p), s)
  {
    if s != [] {
      FilterIsSubsequence(s[1..], p);
      var rest := Filter(s[1..], p);
      if p(s[0]) {
        assert Filter(s, p) == [s[0]] + rest;
      } else {
        assert Filter(s, p) == rest;
        if rest != [] {
          assert rest[0] in rest;
          assert rest[0] != s[0];
        }
      }
    }
  }

  /** Two filters can be applied in either order. */
  lemma {:induction false} FilterCommute<T(!new)>(s: seq<T>, p: T -> bool, q: T -> bool)
    ensures Filter(Filter(s, p), q) == Filter(Filter(s, q), p)
  {
    if s != [] {
      FilterCommute(s[1..], p, q);
      var x, rest := s[0], s[1..];
      FilterAppend(if p(x) then [x] else [], Filter(rest, p), q);
      FilterAppend(if q(x) then [x] else [], Filter(rest, q), p);
    }
  }

  /** Deleting elements twice is deleting elements. */
  lemma {:induction false} SubsequenceTransitive<T>(a: seq<T>, b: seq<T>, c: seq<T>)
    requires IsSubsequence(a, b) && IsSubsequence(b, c)
    ensures IsSubsequence(a, c)
    decreases |c|
  {
    if a != [] && b != [] && c != [] {
      if b[0] == c[0] {
        if a[0] == b[0] {
          SubsequenceTransitive(a[1..], b[1..], c[1..]);
        } else {
          SubsequenceTransitive(a, b[1..], c[1..]);
        }
      } else {
        SubsequenceTransitive(a, b, c[1..]);
        SubsequenceExtend(a, c);
      }
    }
  }

  lemma {:induction false} SubsequenceDropHead<T>(a: seq<T>, b: seq<T>)
    requires a != [] && IsSubsequence(a, b)
    ensures IsSubsequence(a[1..], b)
    decreases |b|, 1
  {
    if a[0] == b[0] {
      SubsequenceExtend(a[1..], b);
    } else {
      SubsequenceDropHead(a, b[1..]);
      SubsequenceExtend(a[1..], b);
    }
  }

  lemma {:induction false} SubsequenceExtend<T>(a: seq<T>, b: seq<T>)
    requires b != [] && IsSubsequence(a, b[1..])
    ensures IsSubsequence(a, b)
    decreases |b|, 0
  {
    if a != [] && a[0] == b[0] {
      SubsequenceDropHead(a, b[1..]);
    }
  }

  lemma FilterSingleton<T(!new)>(x: T, p: T -> bool)
    ensures Filter([x], p) == if p(x) then [x] else []
  {
    assert [x][1..] == [];
  }

  /** Distributes a filter over concatenation. */
  lemma {:induction false} FilterAppend<T(!new)>(a: seq<T>, b: seq<T>, p: T -> bool)
    ensures Filter(a + b, p) == Filter(a, p) + Filter(b, p)
  {
    if a == [] {
      assert a + b == b;
    } else {
      assert (a + b)[0] == a[0];
      assert (a + b)[1..] == a[1..] + b;
      FilterAppend(a[1..], b, p);
    }
  }

  /** `x` occurs in `s` at some position before an occurrence of `y`. */
  predicate Precedes<T(==)>(s: seq<T>, x: T, y: T) {
    exists i, j :: 0 <= i < j < |s| && s[i] == x && s[j] == y
  }

  /** Two kept elements stay in the same order after filtering. */
  lemma {:induction false} FilterKeepsOrder<T(!new)>(a: seq<T>, p: T -> bool, i: nat, j: nat)
    requires i < j < |a| && p(a[i]) && p(a[j])
    ensures Precedes(Filter(a, p), a[i], a[j])
  {
    var pre := if p(a[0]) then [a[0]] else [];
    var rest := Filter(a[1..], p);
    assert Filter(a, p) == pre + rest;
    if i == 0 {
      assert a[j] == a[1..][j - 1];
      var l :| 0 <= l < |rest| && rest[l] == a[j];
      assert (pre + rest)[0] == a[i] && (pre + rest)[l + 1] == a[j];
    } else {
      FilterKeepsOrder(a[1..], p, i - 1, j - 1);
      var k, l :| 0 <= k < l < |rest| && rest[k] == a[i] && rest[l] == a[j];
      assert (pre + rest)[k + |pre|] == a[i] && (pre + rest)[l + |pre|] == a[j];
    }
  }

  /** The order of a filter's result is an order in its input. */
  lemma {:induction false} FilterOrderFromInput<T(!new)>(b: seq<T>, p: T -> bool, k: nat, l: nat)
    requires k < l < |Filter(b, p)|
    ensures Precedes(b, Filter(b, p)[k], Filter(b, p)[l])
  {
    var f := Filter(b, p);
    var rest := Filter(b[1..], p);
    assert b == [b[0]] + b[1..];
    if !p(b[0]) {
      assert f == rest;
      FilterOrderFromInput(b[1..], p, k, l);
      PrecedesCons(b[0], b[1..], f[k], f[l]);
    } else {
      assert f == [b[0]] + rest;
      if k == 0 {
        assert f[l] == rest[l - 1];
        PrecedesHead(b[0], b[1..], f[l]);
      } else {
        FilterOrderFromInput(b[1..], p, k - 1, l - 1);
        assert f[k] == rest[k - 1] && f[l] == rest[l - 1];
        PrecedesCons(b[0], b[1..], f[k], f[l]);
      }
    }
  }

  lemma PrecedesCons<T>(x0: T, s: seq<T>, x: T, y: T)
    requires Precedes(s, x, y)
    ensures Precedes([x0] + s, x, y)
  {
    var i, j :| 0 <= i < j < |s| && s[i] == x && s[j] == y;
    assert ([x0] + s)[i + 1] == x && ([x0] + s)[j + 1] == y;
  }

  lemma PrecedesHead<T>(x0: T, s: seq<T>, y: T)
    requires y in s
    ensures Precedes([x0] + s, x0, y)
  {
    var j :| 0 <= j < |s| && s[j] == y;
    assert ([x0] + s)[0] == x0 && ([x0] + s)[j + 1] == y;
  }

  /** Dropping the head of a duplicate-free sequence leaves a duplicate-free
      sequence without the head. */
  lemma NoDuplicatesTail<T>(s: seq<T>)
    requires s != [] && NoDuplicates(s)
    ensures NoDuplicates(s[1..]) && s[0] !in s[1..]
  {
    var t := s[1..];
    forall i, j | 0 <= i < j < |t| ensures t[i] != t[j] {
      assert t[i] == s[i + 1] && t[j] == s[j + 1];
    }
    forall i | 0 <= i < |t| ensures t[i] != s[0] {
      assert t[i] == s[i + 1];
    }
  }
}
