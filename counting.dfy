/**
 Fitting the count vectorizer on the slice and summing the transformed matrix
 over its rows: the vocabulary of distinct terms, and for each term the number
 of its occurrences over all reviews of the slice.
 */
module Counting {
  import opened Seqs

  /** One (term, count) pair of a chart's data. */
  datatype Entry = Entry(term: string, count: nat)

  /** The terms of a list of entries, in order. */
  function Terms(es: seq<Entry>): (ts: seq<string>)
    ensures |ts| == |es| && forall i :: 0 <= i < |es| ==> ts[i] == es[i].term
  {
    if es == [] then [] else [es[0].term] + Terms(es[1..])
  }

  /** The term of every entry is among the terms. */
  lemma TermsOfMembers(es: seq<Entry>)
    ensures forall e :: e in es ==> e.term in Terms(es)
  {
    forall e | e in es ensures e.term in Terms(es) {
      var i :| 0 <= i < |es| && es[i] == e;
      assert Terms(es)[i] == e.term;
    }
  }

  /** The terms of all reviews, review after review: the order in which
      fitting scans them. */
  function Flatten(docs: seq<seq<string>>): (stream: seq<string>)
    ensures |stream| == TotalTerms(docs)
    ensures forall t :: t in stream <==> exists d :: d in docs && t in d
  {
    if docs == [] then []
    else
      var rest := Flatten(docs[1..]);
      assert forall d :: d in docs <==> d == docs[0] || d in docs[1..];
      docs[0] + rest
  }

  /** The number of terms the reviews emit, summed review by review. */
  function TotalTerms(docs: seq<seq<string>>): nat
  {
    if docs == [] then 0 else |docs[0]| + TotalTerms(docs[1..])
  }

  /** The distinct terms of a stream in order of first occurrence: the order in
      which fitting inserts keys into the vocabulary dictionary (later steps of
      fitting only renumber its values, which leaves the key order as it is). */
  function Vocabulary(stream: seq<string>): (v: seq<string>)
    ensures NoDuplicates(v)
    ensures forall t :: t in v <==> t in stream
    ensures forall i, j :: 0 <= i < j < |v| ==> FirstIndex(stream, v[i]) < FirstIndex(stream, v[j])
  {
    if stream == [] then []
    else
      var init, last := stream[..|stream| - 1], stream[|stream| - 1];
      assert stream == init + [last];
      var v := Vocabulary(init);
      VocabularyExtend(init, last, v);
      if last in v then v else v + [last]
  }

  /** Scanning one more term adds it at the end of the vocabulary unless it is
      already there; first positions of earlier terms do not move. */
  lemma VocabularyExtend(init: seq<string>, last: string, v: seq<string>)
    requires NoDuplicates(v)
    requires forall t :: t in v <==> t in init
    requires forall i, j :: 0 <= i < j < |v| ==> FirstIndex(init, v[i]) < FirstIndex(init, v[j])
    ensures var w := if last in v then v else v + [last];
            && NoDuplicates(w)
            && (forall t :: t in w <==> t in init + [last])
            && forall i, j :: 0 <= i < j < |w| ==> FirstIndex(init + [last], w[i]) < FirstIndex(init + [last], w[j])
  {
    var stream := init + [last];
    assert stream[..|init|] == init;
    forall t | t in init ensures FirstIndex(stream, t) == FirstIndex(init, t) {
      FirstIndexInPrefix(stream, |init|, t);
    }
    if last !in v {
      assert FirstIndex(stream, last) == |init| by {
        assert stream[..|init|] == init;
        FirstIndexUnique(stream, last, |init|);
      }
    }
  }

  /** The column sum of the document-term matrix for `t`: its count in each
      review, added up over the reviews. */
  function ColumnSum(docs: seq<seq<string>>, t: string): (n: nat)
    ensures n == Occurrences(Flatten(docs), t)
  {
    if docs == [] then 0
    else
      assert Flatten(docs) == docs[0] + Flatten(docs[1..]);
      Occurrences(docs[0], t) + ColumnSum(docs[1..], t)
  }

  /** The (term, count) list built from the vocabulary, in vocabulary order. */
  function Entries(docs: seq<seq<string>>): (es: seq<Entry>)
    ensures Terms(es) == Vocabulary(Flatten(docs))
    ensures forall e :: e in es <==> e.term in Flatten(docs) && e.count == Occurrences(Flatten(docs), e.term)
    ensures forall e :: e in es ==> e.count >= 1
  {
    var v := Vocabulary(Flatten(docs));
    var es := seq(|v|, i requires 0 <= i < |v| => Entry(v[i], ColumnSum(docs, v[i])));
    assert forall e: Entry :: e.term in Flatten(docs) && e.count == Occurrences(Flatten(docs), e.term) ==> e in es by {
      forall e: Entry | e.term in Flatten(docs) && e.count == Occurrences(Flatten(docs), e.term) ensures e in es {
        var i :| 0 <= i < |v| && v[i] == e.term;
        assert es[i] == e;
      }
    }
    es
  }

  /** The sum of the counts of a list of entries. */
  function SumCounts(es: seq<Entry>): nat
  {
    if es == [] then 0 else es[0].count + SumCounts(es[1..])
  }

  /** The counts of the untruncated list add up to the number of terms the
      reviews emit: every occurrence is counted once, under its own term. */
  lemma Conservation(docs: seq<seq<string>>)
    ensures SumCounts(Entries(docs)) == TotalTerms(docs)
  {
    var stream := Flatten(docs);
    var es := Entries(docs);
    SumCountsAsOccurrences(es, stream);
    SumOccurrencesOfCover(Terms(es), stream);
  }

  /** Sum over the terms `ts` of their occurrences in `s`. */
  function SumOccurrences(ts: seq<string>, s: seq<string>): nat
  {
    if ts == [] then 0 else Occurrences(s, ts[0]) + SumOccurrences(ts[1..], s)
  }

  lemma {:induction false} SumCountsAsOccurrences(es: seq<Entry>, s: seq<string>)
    requires forall e :: e in es ==> e.count == Occurrences(s, e.term)
    ensures SumCounts(es) == SumOccurrences(Terms(es), s)
  {
    if es != [] {
      assert forall e :: e in es[1..] ==> e in es;
      SumCountsAsOccurrences(es[1..], s);
      assert Terms(es)[1..] == Terms(es[1..]);
    }
  }

  /** Counting each of a list of distinct terms that covers `s` counts `s`. */
  lemma {:induction false} SumOccurrencesOfCover(ts: seq<string>, s: seq<string>)
    requires NoDuplicates(ts)
    requires forall x :: x in s ==> x in ts
    ensures SumOccurrences(ts, s) == |s|
  {
    if s != [] {
      var x, rest := s[0], s[1..];
      assert s == [x] + rest;
      assert forall y :: y in rest ==> y in s;
      SumOccurrencesOfCover(ts, rest);
      SumOccurrencesCons(ts, x, rest);
      DistinctOccursOnce(ts, x);
      assert Occurrences(ts, x) == 1;
    } else {
      SumOccurrencesInEmpty(ts);
    }
  }

  lemma {:induction false} SumOccurrencesInEmpty(ts: seq<string>)
    ensures SumOccurrences(ts, []) == 0
  {
    if ts != [] {
      SumOccurrencesInEmpty(ts[1..]);
    }
  }

  lemma {:induction false} SumOccurrencesCons(ts: seq<string>, x: string, rest: seq<string>)
    ensures SumOccurrences(ts, [x] + rest) == SumOccurrences(ts, rest) + Occurrences(ts, x)
  {
    if ts != [] {
      SumOccurrencesCons(ts[1..], x, rest);
      assert ts == [ts[0]] + ts[1..];
    }
  }

  /** The list is empty exactly when no review emits a term. */
  lemma NoEntriesWithoutTerms(docs: seq<seq<string>>)
    ensures Entries(docs) == [] <==> forall k :: 0 <= k < |docs| ==> docs[k] == []
  {
    var stream := Flatten(docs);
    assert |Entries(docs)| == |Vocabulary(stream)|;
    if stream != [] {
      assert stream[0] in Vocabulary(stream);
      var d :| d in docs && stream[0] in d;
    }
    forall k | 0 <= k < |docs| && docs[k] != [] ensures stream != [] {
      assert docs[k] in docs && docs[k][0] in docs[k];
      assert docs[k][0] in stream;
    }
  }

  /** The list is empty exactly when the scanned stream is. */
  lemma NoEntriesWithoutStream(docs: seq<seq<string>>)
    ensures Entries(docs) == [] <==> Flatten(docs) == []
  {
    var stream := Flatten(docs);
    assert |Entries(docs)| == |Terms(Entries(docs))| == |Vocabulary(stream)|;
    if stream != [] {
      assert stream[0] in Vocabulary(stream);
    }
  }

  /** Every listed term was emitted by some review. */
  lemma EntryFromSomeDocument(docs: seq<seq<string>>, e: Entry)
    requires e in Entries(docs)
    ensures exists k :: 0 <= k < |docs| && e.term in docs[k]
  {
    var d :| d in docs && e.term in d;
  }

  /** Entries are told apart by their terms. */
  lemma EntriesDistinct(docs: seq<seq<string>>)
    ensures NoDuplicates(Entries(docs))
  {
    var es := Entries(docs);
    forall i, j | 0 <= i < j < |es| ensures es[i] != es[j] {
      assert Terms(es)[i] == es[i].term && Terms(es)[j] == es[j].term;
    }
  }
}
