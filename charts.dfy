/**
 The three chart callbacks of the dashboard: for a hospital choice and a rating
 label, the ten most frequent words, two-word phrases or three-word phrases of
 the matching reviews, with their counts. The three differ only in the n-gram
 order passed to the vectorizer.
 */
module Charts {
  import opened Seqs
  import opened Reviews
  import opened TextAnalysis
  import opened Counting
  import opened Ranking

  /** Fitting the vectorizer fails when the slice yields no term at all
      (an empty slice included): the library raises an error and no figure is
      produced. */
  datatype Error = EmptyVocabulary

  datatype Result<T> = Ok(value: T) | Err(error: Error)

  /** The terms of each review of the slice, review by review: the rows of the
      document-term matrix. */
  function SliceTerms(slice: seq<Review>, a: Analyzer, order: nat): (docs: seq<seq<string>>)
    requires order >= 1
    ensures |docs| == |slice|
    ensures forall k :: 0 <= k < |slice| ==> docs[k] == DocumentTerms(a, slice[k].text, order)
  {
    if slice == [] then [] else [DocumentTerms(a, slice[0].text, order)] + SliceTerms(slice[1..], a, order)
  }

  /** The terms of the whole slice in scan order. */
  function SliceStream(table: seq<Review>, hospital: string, goodBad: string, a: Analyzer, order: nat): seq<string>
    requires order >= 1
  {
    Flatten(SliceTerms(Slice(table, hospital, goodBad), a, order))
  }

  /** The ranking one chart draws: filter, count, sort by count, keep ten.
      It fails exactly when the slice emits no term; otherwise it lists at most
      ten terms of the slice, by non-increasing count, each counted at least
      once. */
  function TopTerms(table: seq<Review>, hospital: string, goodBad: string, a: Analyzer, order: nat)
    : (r: Result<seq<Entry>>)
    requires order >= 1
    ensures r.Err? <==> SliceStream(table, hospital, goodBad, a, order) == []
    ensures r.Ok? ==> && |r.value| <= TopN
                      && SortedByCount(r.value)
                      && forall e :: e in r.value ==>
                           e.count >= 1 && e.term in SliceStream(table, hospital, goodBad, a, order)
  {
    var docs := SliceTerms(Slice(table, hospital, goodBad), a, order);
    var es := Entries(docs);
    NoEntriesWithoutStream(docs);
    TopEntriesOfTerms(docs);
    if es == [] then Err(EmptyVocabulary) else Ok(TopEntries(es))
  }

  /** The chart fails exactly when no review of the slice has as many content
      tokens as the order: a shorter review contributes no term. */
  lemma FailsOnlyWithoutTerms(table: seq<Review>, hospital: string, goodBad: string, a: Analyzer, order: nat)
    requires order >= 1
    ensures TopTerms(table, hospital, goodBad, a, order).Err?
        <==> forall x :: x in Slice(table, hospital, goodBad) ==> |Tokens(a, x.text)| < order
  {
    var slice := Slice(table, hospital, goodBad);
    var docs := SliceTerms(slice, a, order);
    NoEntriesWithoutTerms(docs);
    forall k | 0 <= k < |docs| ensures docs[k] == [] <==> |Tokens(a, slice[k].text)| < order {
      assert docs[k] == DocumentTerms(a, slice[k].text, order);
    }
  }

  /** A successful ranking has `min(10, distinct terms)` entries, one per
      term, with counts that never increase. */
  lemma RankingShape(table: seq<Review>, hospital: string, goodBad: string, a: Analyzer, order: nat)
    requires order >= 1
    requires TopTerms(table, hospital, goodBad, a, order).Ok?
    ensures var top := TopTerms(table, hospital, goodBad, a, order).value;
            var distinct := |Vocabulary(SliceStream(table, hospital, goodBad, a, order))|;
            && |top| == (if distinct < TopN then distinct else TopN)
            && SortedByCount(top)
            && NoDuplicates(Terms(top))
  {
    var docs := SliceTerms(Slice(table, hospital, goodBad), a, order);
    TopEntriesDistinctTerms(Entries(docs));
  }

  /** Each listed count is the number of times the term occurs over all
      reviews of the slice (summed, not one per review), hence at least one;
      and each listed term is a window of `order` consecutive content tokens of
      some review of the slice. */
  lemma RankingCounts(table: seq<Review>, hospital: string, goodBad: string, a: Analyzer, order: nat, e: Entry)
    requires order >= 1
    requires TopTerms(table, hospital, goodBad, a, order).Ok?
    requires e in TopTerms(table, hospital, goodBad, a, order).value
    ensures e.count == Occurrences(SliceStream(table, hospital, goodBad, a, order), e.term) >= 1
    ensures exists x, i :: x in Slice(table, hospital, goodBad) && 0 <= i <= |Tokens(a, x.text)| - order
                           && e.term == Window(Tokens(a, x.text), i, order)
  {
    var slice := Slice(table, hospital, goodBad);
    var docs := SliceTerms(slice, a, order);
    TopEntriesFromInput(Entries(docs), e);
    EntryFromSomeDocument(docs, e);
    var k :| 0 <= k < |docs| && e.term in docs[k];
    assert slice[k] in slice;
  }

  /** Every term of the slice that is not listed occurs at most as often as
      every listed term. */
  lemma RankingIsTopTen(table: seq<Review>, hospital: string, goodBad: string, a: Analyzer, order: nat)
    requires order >= 1
    requires TopTerms(table, hospital, goodBad, a, order).Ok?
    ensures var top := TopTerms(table, hospital, goodBad, a, order).value;
            var stream := SliceStream(table, hospital, goodBad, a, order);
            forall e, t :: e in top && t in stream && t !in Terms(top) ==> Occurrences(stream, t) <= e.count
  {
    TopEntriesAreMostFrequent(SliceTerms(Slice(table, hospital, goodBad), a, order));
  }

  /** Where the tenth place falls inside a group of equal counts, the terms
      listed are the ones met first while scanning the slice: a term left off
      with the same count as a listed one was first met after it. */
  lemma RankingTieCut(table: seq<Review>, hospital: string, goodBad: string, a: Analyzer, order: nat, e: Entry, t: string)
    requires order >= 1
    requires TopTerms(table, hospital, goodBad, a, order).Ok?
    requires e in TopTerms(table, hospital, goodBad, a, order).value
    requires t in SliceStream(table, hospital, goodBad, a, order)
    requires t !in Terms(TopTerms(table, hospital, goodBad, a, order).value)
    requires Occurrences(SliceStream(table, hospital, goodBad, a, order), t) == e.count
    ensures var stream := SliceStream(table, hospital, goodBad, a, order);
            e.term in stream && FirstIndex(stream, e.term) < FirstIndex(stream, t)
  {
    TopEntriesTieCutFirstSeen(SliceTerms(Slice(table, hospital, goodBad), a, order), e, t);
  }

  /** Entries with equal counts keep the vocabulary's iteration order: the
      term met first while scanning the slice comes first. */
  lemma RankingTieOrder(table: seq<Review>, hospital: string, goodBad: string, a: Analyzer, order: nat, i: nat, j: nat)
    requires order >= 1
    requires TopTerms(table, hospital, goodBad, a, order).Ok?
    requires i < j < |TopTerms(table, hospital, goodBad, a, order).value|
    requires TopTerms(table, hospital, goodBad, a, order).value[i].count
          == TopTerms(table, hospital, goodBad, a, order).value[j].count
    ensures var top := TopTerms(table, hospital, goodBad, a, order).value;
            var stream := SliceStream(table, hospital, goodBad, a, order);
            && top[i].term in stream && top[j].term in stream
            && FirstIndex(stream, top[i].term) < FirstIndex(stream, top[j].term)
  {
    TopEntriesTieFirstSeen(SliceTerms(Slice(table, hospital, goodBad), a, order), i, j);
  }

  /** The number of windows each review of the slice emits, added up. */
  function WindowTotal(slice: seq<Review>, a: Analyzer, order: nat): nat
  {
    if slice == [] then 0
    else
      var n := |Tokens(a, slice[0].text)|;
      (if n < order then 0 else n - order + 1) + WindowTotal(slice[1..], a, order)
  }

  /** The counts of the full, untruncated list add up to the number of windows
      the reviews of the slice emit. */
  lemma CountsAddUpToWindows(table: seq<Review>, hospital: string, goodBad: string, a: Analyzer, order: nat)
    requires order >= 1
    ensures SumCounts(Entries(SliceTerms(Slice(table, hospital, goodBad), a, order)))
         == WindowTotal(Slice(table, hospital, goodBad), a, order)
  {
    var slice := Slice(table, hospital, goodBad);
    Conservation(SliceTerms(slice, a, order));
    TotalTermsAreWindows(slice, a, order);
  }

  lemma {:induction false} TotalTermsAreWindows(slice: seq<Review>, a: Analyzer, order: nat)
    requires order >= 1
    ensures TotalTerms(SliceTerms(slice, a, order)) == WindowTotal(slice, a, order)
  {
    if slice != [] {
      TotalTermsAreWindows(slice[1..], a, order);
      assert SliceTerms(slice, a, order)[1..] == SliceTerms(slice[1..], a, order);
    }
  }

  /** Every listed term is a window of `order` consecutive content tokens of
      some review of the slice. */
  lemma ListedTermsAreWindows(table: seq<Review>, hospital: string, goodBad: string, a: Analyzer, order: nat)
    requires order >= 1
    ensures var r := TopTerms(table, hospital, goodBad, a, order);
            r.Ok? ==> forall e :: e in r.value ==>
                        exists x, i :: x in Slice(table, hospital, goodBad) && 0 <= i <= |Tokens(a, x.text)| - order
                                       && e.term == Window(Tokens(a, x.text), i, order)
  {
    var r := TopTerms(table, hospital, goodBad, a, order);
    if r.Ok? {
      forall e | e in r.value
        ensures exists x, i :: x in Slice(table, hospital, goodBad) && 0 <= i <= |Tokens(a, x.text)| - order
                               && e.term == Window(Tokens(a, x.text), i, order)
      {
        RankingCounts(table, hospital, goodBad, a, order, e);
      }
    }
  }

  /** `update_top_n_words`: the default range, so the listed terms are single
      content words of the slice's reviews. */
  function TopWords(table: seq<Review>, hospital: string, goodBad: string, a: Analyzer): (r: Result<seq<Entry>>)
    ensures r.Err? <==> forall x :: x in Slice(table, hospital, goodBad) ==> Tokens(a, x.text) == []
    ensures r.Ok? ==> forall e :: e in r.value ==>
                        exists x :: x in Slice(table, hospital, goodBad) && e.term in Tokens(a, x.text)
  {
    FailsOnlyWithoutTerms(table, hospital, goodBad, a, 1);
    ListedTermsAreWindows(table, hospital, goodBad, a, 1);
    var r := TopTerms(table, hospital, goodBad, a, 1);
    assert r.Ok? ==> forall e :: e in r.value ==>
                       exists x :: x in Slice(table, hospital, goodBad) && e.term in Tokens(a, x.text) by {
      if r.Ok? {
        forall e | e in r.value
          ensures exists x :: x in Slice(table, hospital, goodBad) && e.term in Tokens(a, x.text)
        {
          var x, i :| x in Slice(table, hospital, goodBad) && 0 <= i <= |Tokens(a, x.text)| - 1
                      && e.term == Window(Tokens(a, x.text), i, 1);
          WindowOfOne(Tokens(a, x.text), i);
        }
      }
    }
    r
  }

  /** `update_top_bi_grams`: range (2, 2); a review with fewer than two
      content tokens contributes nothing. */
  function TopBiGrams(table: seq<Review>, hospital: string, goodBad: string, a: Analyzer): (r: Result<seq<Entry>>)
    ensures r.Err? <==> forall x :: x in Slice(table, hospital, goodBad) ==> |Tokens(a, x.text)| < 2
    ensures r.Ok? ==> forall e :: e in r.value ==>
                        exists x, i :: x in Slice(table, hospital, goodBad) && 0 <= i <= |Tokens(a, x.text)| - 2
                                       && e.term == Window(Tokens(a, x.text), i, 2)
  {
    FailsOnlyWithoutTerms(table, hospital, goodBad, a, 2);
    ListedTermsAreWindows(table, hospital, goodBad, a, 2);
    TopTerms(table, hospital, goodBad, a, 2)
  }

  /** `update_top_tri_grams`: range (3, 3); a review with fewer than three
      content tokens contributes nothing. */
  function TopTriGrams(table: seq<Review>, hospital: string, goodBad: string, a: Analyzer): (r: Result<seq<Entry>>)
    ensures r.Err? <==> forall x :: x in Slice(table, hospital, goodBad) ==> |Tokens(a, x.text)| < 3
    ensures r.Ok? ==> forall e :: e in r.value ==>
                        exists x, i :: x in Slice(table, hospital, goodBad) && 0 <= i <= |Tokens(a, x.text)| - 3
                                       && e.term == Window(Tokens(a, x.text), i, 3)
  {
    FailsOnlyWithoutTerms(table, hospital, goodBad, a, 3);
    ListedTermsAreWindows(table, hospital, goodBad, a, 3);
    TopTerms(table, hospital, goodBad, a, 3)
  }
}
