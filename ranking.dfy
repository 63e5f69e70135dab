/**
 Ordering the (term, count) list for a chart: a stable sort by count, largest
 first, then the first ten entries.
 */
module Ranking {
  import opened Seqs
  import opened Counting

  /** The number of bars a chart shows. */
  const TopN: nat := 10

  /** Counts never increase along the list. */
  predicate SortedByCount(es: seq<Entry>) {
    forall i, j :: 0 <= i < j < |es| ==> es[i].count >= es[j].count
  }

  /** A list stays sorted when an entry with at least the first count is put in front. */
  lemma SortedCons(head: Entry, rest: seq<Entry>)
    requires SortedByCount(rest) && (rest != [] ==> head.count >= rest[0].count)
    ensures SortedByCount([head] + rest)
  {
    var r := [head] + rest;
    forall i, j | 0 <= i < j < |r| ensures r[i].count >= r[j].count {
      assert r[j] == rest[j - 1];
      if i > 0 {
        assert r[i] == rest[i - 1];
      }
    }
  }

  /** Puts `e` in front of the first entry whose count does not exceed its own,
      so that `e` stays ahead of every later entry with the same count. */
  function Insert(e: Entry, sorted: seq<Entry>): (r: seq<Entry>)
    requires SortedByCount(sorted)
    ensures SortedByCount(r)
    ensures multiset(r) == multiset(sorted) + multiset{e}
    ensures r[0] == e || (sorted != [] && r[0] == sorted[0])
  {
    if sorted == [] || e.count >= sorted[0].count then
      SortedCons(e, sorted);
      [e] + sorted
    else
      var head, tail := sorted[0], sorted[1..];
      assert sorted == [head] + tail;
      assert SortedByCount(tail);
      var rest := Insert(e, tail);
      assert tail != [] ==> head.count >= tail[0].count;
      SortedCons(head, rest);
      [head] + rest
  }

  /** A sort by count, largest first, that leaves entries with equal counts in
      their input order (insertion sort from the back). */
  function SortByCount(es: seq<Entry>): (r: seq<Entry>)
    ensures SortedByCount(r)
    ensures multiset(r) == multiset(es)
  {
    if es == [] then []
    else
      assert es == [es[0]] + es[1..];
      Insert(es[0], SortByCount(es[1..]))
  }

  /** Inserting keeps every group of equal counts in order, with `e` at the
      head of its group. */
  lemma {:induction false} InsertIsStable(e: Entry, sorted: seq<Entry>, c: nat)
    requires SortedByCount(sorted)
    ensures Filter(Insert(e, sorted), (x: Entry) => x.count == c)
         == Filter([e] + sorted, (x: Entry) => x.count == c)
  {
    var p := (x: Entry) => x.count == c;
    if sorted != [] && e.count < sorted[0].count {
      var head, tail := sorted[0], sorted[1..];
      assert sorted == [head] + tail;
      assert SortedByCount(tail);
      InsertIsStable(e, tail, c);
      assert Insert(e, sorted) == [head] + Insert(e, tail);
      FilterAppend([head], Insert(e, tail), p);
      FilterAppend([e], tail, p);
      FilterAppend([head], tail, p);
      FilterAppend([e], sorted, p);
      SwapFiltered(e, head, Filter(tail, p), p);
    }
  }

  /** Two entries with different counts: at most one of them passes a filter
      on one count, so their order in front of a filtered rest is immaterial. */
  lemma SwapFiltered(e: Entry, head: Entry, rest: seq<Entry>, p: Entry -> bool)
    requires !(p(e) && p(head))
    ensures Filter([head], p) + (Filter([e], p) + rest) == Filter([e], p) + (Filter([head], p) + rest)
  {
    FilterSingleton(head, p);
    FilterSingleton(e, p);
  }

  /** The sort is stable: the entries sharing any one count appear in the
      same relative order before and after sorting. */
  lemma {:induction false} SortIsStable(es: seq<Entry>, c: nat)
    ensures Filter(SortByCount(es), (x: Entry) => x.count == c)
         == Filter(es, (x: Entry) => x.count == c)
  {
    if es != [] {
      var p := (x: Entry) => x.count == c;
      assert SortByCount(es) == Insert(es[0], SortByCount(es[1..]));
      SortIsStable(es[1..], c);
      InsertIsStable(es[0], SortByCount(es[1..]), c);
      FilterAppend([es[0]], SortByCount(es[1..]), p);
      FilterAppend([es[0]], es[1..], p);
      assert es == [es[0]] + es[1..];
    }
  }

  /** Two sorted entries with equal counts came in that order in the input. */
  lemma TiesKeepInputOrder(es: seq<Entry>, i: nat, j: nat)
    requires i < j < |SortByCount(es)|
    requires SortByCount(es)[i].count == SortByCount(es)[j].count
    ensures Precedes(es, SortByCount(es)[i], SortByCount(es)[j])
  {
    var sorted := SortByCount(es);
    var p := (x: Entry) => x.count == sorted[i].count;
    SortIsStable(es, sorted[i].count);
    FilterKeepsOrder(sorted, p, i, j);
    var k, l :| 0 <= k < l < |Filter(sorted, p)| && Filter(sorted, p)[k] == sorted[i] && Filter(sorted, p)[l] == sorted[j];
    FilterOrderFromInput(es, p, k, l);
  }

  /** The chart's data: the first `TopN` entries of the sorted list, or all of
      them when there are fewer. */
  function TopEntries(es: seq<Entry>): (r: seq<Entry>)
    ensures |r| == if |es| < TopN then |es| else TopN
    ensures SortedByCount(r)
    ensures multiset(r) <= multiset(es)
  {
    var sorted := SortByCount(es);
    var n := if |sorted| < TopN then |sorted| else TopN;
    assert sorted == sorted[..n] + sorted[n..];
    assert |sorted| == |multiset(sorted)| == |multiset(es)| == |es|;
    sorted[..n]
  }

  /** Truncation drops only entries whose counts are at most those of every
      entry it keeps. */
  lemma TopEntriesAreLargest(es: seq<Entry>)
    ensures forall e, f :: e in TopEntries(es) && f in es && f !in TopEntries(es) ==> f.count <= e.count
  {
    var sorted, r := SortByCount(es), TopEntries(es);
    forall e, f | e in r && f in es && f !in r ensures f.count <= e.count {
      assert f in multiset(sorted);
      var i :| 0 <= i < |r| && r[i] == e;
      var j :| 0 <= j < |sorted| && sorted[j] == f;
      assert sorted[i] == e;
    }
  }

  /** Where the cut falls inside a group of equal counts, the entries kept are
      the ones that came first in the input. */
  lemma TopEntriesTieCut(es: seq<Entry>, e: Entry, f: Entry)
    requires e in TopEntries(es) && f in es && f !in TopEntries(es) && e.count == f.count
    ensures Precedes(es, e, f)
  {
    var sorted := SortByCount(es);
    var n := |TopEntries(es)|;
    TopEntriesIsPrefix(es);
    assert f in multiset(sorted);
    SplitAtCut(sorted, n, e, f);
    var i, j :| 0 <= i < n <= j < |sorted| && sorted[i] == e && sorted[j] == f;
    TiesKeepInputOrder(es, i, j);
  }

  /** The kept entries are the front of the sorted list. */
  lemma TopEntriesIsPrefix(es: seq<Entry>)
    ensures |TopEntries(es)| <= |SortByCount(es)|
    ensures TopEntries(es) == SortByCount(es)[..|TopEntries(es)|]
  {
  }

  /** An element kept by a cut at `n` sits before it, one left out after it. */
  lemma SplitAtCut(s: seq<Entry>, n: nat, e: Entry, f: Entry)
    requires n <= |s| && e in s[..n] && f in s && f !in s[..n]
    ensures exists i, j :: 0 <= i < n <= j < |s| && s[i] == e && s[j] == f
  {
    var front, rest := s[..n], s[n..];
    assert s == front + rest;
    assert f in rest;
    var i :| 0 <= i < n && front[i] == e;
    var j :| 0 <= j < |rest| && rest[j] == f;
    assert s[i] == e && s[n + j] == f;
  }

  /** Every kept entry comes from the input. */
  lemma TopEntriesFromInput(es: seq<Entry>, e: Entry)
    requires e in TopEntries(es)
    ensures e in es
  {
    assert e in multiset(TopEntries(es));
  }

  /** Entries with distinct terms stay distinct after sorting and truncation. */
  lemma TopEntriesDistinctTerms(es: seq<Entry>)
    requires NoDuplicates(Terms(es))
    ensures NoDuplicates(Terms(TopEntries(es)))
  {
    var r := TopEntries(es);
    assert NoDuplicates(es) by {
      forall i, j | 0 <= i < j < |es| ensures es[i] != es[j] {
        assert Terms(es)[i] == es[i].term && Terms(es)[j] == es[j].term;
      }
    }
    NoDuplicatesSubMultiset(r, es);
    forall i, j | 0 <= i < j < |r| ensures Terms(r)[i] != Terms(r)[j] {
      TopEntriesFromInput(es, r[i]);
      TopEntriesFromInput(es, r[j]);
      var i' :| 0 <= i' < |es| && es[i'] == r[i];
      var j' :| 0 <= j' < |es| && es[j'] == r[j];
      assert Terms(es)[i'] == r[i].term && Terms(es)[j'] == r[j].term;
    }
  }

  /** Kept entries with equal counts are in input order. */
  lemma TopEntriesTieOrder(es: seq<Entry>, i: nat, j: nat)
    requires i < j < |TopEntries(es)|
    requires TopEntries(es)[i].count == TopEntries(es)[j].count
    ensures Precedes(es, TopEntries(es)[i], TopEntries(es)[j])
  {
    var sorted := SortByCount(es);
    assert TopEntries(es)[i] == sorted[i] && TopEntries(es)[j] == sorted[j];
    TiesKeepInputOrder(es, i, j);
  }

  /** On the list built from the reviews' terms: every term the reviews emit
      that the truncation leaves out occurs at most as often as every kept
      entry's term. */
  lemma TopEntriesAreMostFrequent(docs: seq<seq<string>>)
    ensures var r := TopEntries(Entries(docs));
            forall e, t :: e in r && t in Flatten(docs) && t !in Terms(r) ==> Occurrences(Flatten(docs), t) <= e.count
  {
    var stream := Flatten(docs);
    var es := Entries(docs);
    var r := TopEntries(es);
    TopEntriesAreLargest(es);
    TermsOfMembers(r);
    forall e, t | e in r && t in stream && t !in Terms(r) ensures Occurrences(stream, t) <= e.count {
      assert Entry(t, Occurrences(stream, t)) in es;
    }
  }

  /** On the list built from the reviews' terms: kept entries with equal counts
      are in the order their terms were first emitted. */
  lemma TopEntriesTieFirstSeen(docs: seq<seq<string>>, i: nat, j: nat)
    requires i < j < |TopEntries(Entries(docs))|
    requires TopEntries(Entries(docs))[i].count == TopEntries(Entries(docs))[j].count
    ensures var r := TopEntries(Entries(docs));
            && r[i].term in Flatten(docs) && r[j].term in Flatten(docs)
            && FirstIndex(Flatten(docs), r[i].term) < FirstIndex(Flatten(docs), r[j].term)
  {
    var es := Entries(docs);
    var r := TopEntries(es);
    TopEntriesTieOrder(es, i, j);
    var i', j' :| 0 <= i' < j' < |es| && es[i'] == r[i] && es[j'] == r[j];
    assert Terms(es)[i'] == r[i].term && Terms(es)[j'] == r[j].term;
  }

  /** On the list built from the reviews' terms: every kept entry is an
      emitted term, counted at least once. */
  lemma TopEntriesOfTerms(docs: seq<seq<string>>)
    ensures forall e :: e in TopEntries(Entries(docs)) ==> e.count >= 1 && e.term in Flatten(docs)
  {
    forall e | e in TopEntries(Entries(docs)) ensures e.count >= 1 && e.term in Flatten(docs) {
      TopEntriesFromInput(Entries(docs), e);
    }
  }

  /** On the list built from the reviews' terms: an emitted term left out with
      the same count as a kept term was first emitted after it. */
  lemma TopEntriesTieCutFirstSeen(docs: seq<seq<string>>, e: Entry, t: string)
    requires e in TopEntries(Entries(docs))
    requires t in Flatten(docs) && t !in Terms(TopEntries(Entries(docs)))
    requires Occurrences(Flatten(docs), t) == e.count
    ensures e.term in Flatten(docs)
    ensures FirstIndex(Flatten(docs), e.term) < FirstIndex(Flatten(docs), t)
  {
    var es := Entries(docs);
    var r := TopEntries(es);
    var f := Entry(t, Occurrences(Flatten(docs), t));
    assert f in es;
    TermsOfMembers(r);
    TopEntriesFromInput(es, e);
    TopEntriesTieCut(es, e, f);
    var i, j :| 0 <= i < j < |es| && es[i] == e && es[j] == f;
    assert Terms(es)[i] == e.term && Terms(es)[j] == t;
  }
}
