# Hospital Google Reviews: the top-terms charts

The dashboard `app.py` shows three bar charts over a fixed table of Google
reviews of seven hospitals: the ten most frequent words, two-word phrases and
three-word phrases. Each chart has a hospital dropdown (one of the seven, or
"All Hospitals") and a rating radio button ("good" or "bad"). Every callback
runs the same pipeline:

1. select the reviews with the chosen rating label and, unless "All Hospitals"
   is chosen, the chosen hospital;
2. fit a count vectorizer with English stop words on the selected texts, and
   sum the document-term matrix over its rows;
3. list `(term, count)` pairs in the vocabulary's iteration order;
4. sort the list by count, largest first, with a stable sort;
5. keep the first ten.

This project models that pipeline as pure functions over sequences and proves
what each step promises. The modules follow the pipeline:

- `Seqs`: an order-preserving filter, the subsequence relation, occurrence
  counts and first positions.
- `Reviews`: the table rows and the slice one chart is drawn from.
- `TextAnalysis`: what the vectorizer does to one text. Lower-casing and
  tokenizing are parameters, and so is the stop-word set. Stop words are
  dropped, then every window of `n` consecutive tokens becomes one term, its
  tokens joined by single spaces.
- `Counting`: the vocabulary in first-occurrence order, the column sums, and
  the `(term, count)` list.
- `Ranking`: the stable sort by count and the truncation to ten.
- `Charts`: the three callbacks, each one instance of `TopTerms` with n-gram
  order 1, 2 or 3.

Behaviour that follows the code rather than a natural reading of the charts:

- **Ties.** Entries with equal counts are not ordered alphabetically. The
  vectorizer's vocabulary is a dictionary whose keys are inserted in the order
  terms are first met while scanning the slice. Later fitting steps only
  renumber its values, so iteration follows first occurrence. The stable sort
  keeps that order among equal counts (`Charts.RankingTieOrder`).
- **No terms.** When the slice yields no term at all, fitting raises an "empty
  vocabulary" error and no chart is drawn. This includes an empty slice, and
  a bigram or trigram chart whose reviews are all too short. The model returns
  `Err(EmptyVocabulary)` in that case, not an empty ranking.
- **Selections are not checked.** Any hospital or label string is accepted. An
  unknown one selects no review, which leads to the error above.

## Model

| member | source | states |
|---|---|---|
| Reviews.WithRating | app.py:320 | the rows kept are exactly the table's rows whose rating equals the label, each as many times as in the table, in table order (a subsequence of the table) |
| Reviews.AtHospital | app.py:349 | the rows kept are exactly those naming the hospital, each as many times as in the input, in order |
| Reviews.Slice | app.py:319-320 | a row is in the slice iff it is in the table, has the chosen label and, unless "All Hospitals" is chosen, the chosen hospital; such a row occurs as often as in the table (duplicate reviews are all kept); the slice is an order-preserving subsequence of the table |
| Reviews.HospitalSliceFilters | app.py:348-349 | a hospital's slice equals that hospital's rows filtered by label (the filters commute) and is a subsequence of the all-hospitals slice for the same label |
| Reviews.AllHospitalsIsUnion | app.py:319-320 | when every row names one of a list of distinct hospitals, the all-hospitals slice is, as a multiset, the union of the per-hospital slices |
| Reviews.DropdownHospitalsCoverTable | app.py:108-118 | for a table of reviews of the seven dropdown hospitals, the all-hospitals slice is the multiset union of the seven per-hospital slices |
| Reviews.RatingsSplitTable | app.py:124-125 | when every row is labelled "good" or "bad", the two radio choices' slices together hold every row of the table exactly as often as the table does |
| TextAnalysis.DropStopWords | app.py:321 | keeps exactly the tokens that are not stop words, each as often as it occurs, in order |
| TextAnalysis.Tokens | app.py:321 | a word is a content token iff the tokenized lower-cased text holds it and it is not a stop word; every non-stop token is kept as often as it occurs, in order |
| TextAnalysis.NGrams | app.py:391 | a token list of length L yields max(0, L-n+1) terms, the i-th being the n tokens from position i joined by spaces |
| TextAnalysis.UnigramsAreTokens | app.py:321 | with the default range the terms are the content tokens themselves |
| TextAnalysis.DocumentTerms | app.py:461 | a text contributes max(0, L-n+1) terms for L content tokens, the i-th being the window of `n` tokens from position i; fewer tokens than `n` contribute nothing |
| Counting.Flatten | app.py:322 | the scanned stream holds as many terms as the reviews emit, and a term is in it iff some review emits it |
| Counting.Vocabulary | app.py:321 | the vocabulary holds each term of the stream once, nothing else, in order of first occurrence |
| Counting.ColumnSum | app.py:323 | a term's column sum is its number of occurrences over all reviews of the slice |
| Counting.Entries | app.py:324 | the list has one entry per vocabulary term in vocabulary order, each carrying its total occurrence count, which is at least one |
| Counting.Conservation | app.py:322-324 | the counts of the untruncated list add up to the number of terms the reviews emit |
| Counting.NoEntriesWithoutTerms | app.py:321 | the list is empty iff no review emits a term |
| Counting.NoEntriesWithoutStream | app.py:321 | the list is empty iff the scanned stream of terms is empty |
| Counting.EntriesDistinct | app.py:324 | no entry appears twice |
| Ranking.Insert | app.py:325 | inserting into a count-sorted list keeps it sorted and adds exactly the new entry |
| Ranking.SortByCount | app.py:325 | the result has non-increasing counts and is a permutation of the input |
| Ranking.SortIsStable | app.py:325 | for each count, the entries with that count appear in the same order before and after sorting |
| Ranking.TiesKeepInputOrder | app.py:325 | two sorted entries with equal counts occur in the same order in the input |
| Ranking.TopEntries | app.py:326 | the result has min(10, input length) entries, is sorted by count and is a sub-multiset of the input; which entries survive a tie at the cut is fixed by `Ranking.TopEntriesTieCut` |
| Ranking.TopEntriesAreLargest | app.py:326 | every entry dropped by the truncation has a count at most that of every entry kept |
| Ranking.TopEntriesTieCut | app.py:325-326 | when the cut falls inside a group of equal counts, every kept entry of that count comes before every dropped one in the input: the result is the front of the stable sort |
| Ranking.TopEntriesTieCutFirstSeen | app.py:321-326 | on the list built from the reviews' terms, an emitted term left out with the same count as a kept term was first emitted after it |
| Ranking.TopEntriesOfTerms | app.py:321-326 | on the list built from the reviews' terms, every kept entry is an emitted term counted at least once |
| Ranking.TopEntriesAreMostFrequent | app.py:322-326 | on the list built from the reviews' terms, every emitted term left out occurs at most as often as every kept term |
| Ranking.TopEntriesTieFirstSeen | app.py:321-325 | kept entries with equal counts are in the order their terms were first emitted |
| Ranking.TopEntriesDistinctTerms | app.py:324-326 | entries with distinct terms keep distinct terms after sorting and truncation |
| Charts.TopTerms | app.py:319-326 | one chart's pipeline for any hospital choice, label and n-gram order: it fails (the library's empty-vocabulary error) iff the slice emits no term; otherwise it lists at most ten terms of the slice by non-increasing count, each counted at least once |
| Charts.FailsOnlyWithoutTerms | app.py:321 | the chart fails iff no review of the slice has at least `order` content tokens |
| Charts.RankingShape | app.py:324-326 | a ranking has min(10, distinct terms) entries with non-increasing counts and no repeated term |
| Charts.RankingCounts | app.py:322-324 | each listed count is the term's total number of occurrences over the slice, at least one, and the term is a window of content tokens of some review of the slice |
| Charts.RankingIsTopTen | app.py:324-326 | every term of the slice left off the chart occurs at most as often as every listed term |
| Charts.RankingTieCut | app.py:324-326 | a term of the slice left off the chart with the same count as a listed term was first met after it while scanning the slice |
| Charts.RankingTieOrder | app.py:324-325 | listed terms with equal counts appear in the order they were first met while scanning the slice |
| Charts.CountsAddUpToWindows | app.py:322-324 | the counts of the full list add up to the total number of windows the slice's reviews emit |
| Charts.ListedTermsAreWindows | app.py:321-324 | every listed term is a window of `order` consecutive content tokens of some review of the slice |
| Charts.TopWords | app.py:318-326 | the words chart fails iff no review of the slice has a content token; each listed term is a content token of some review of the slice |
| Charts.TopBiGrams | app.py:388-396 | the bigram chart fails iff every review of the slice has fewer than two content tokens; each listed term is two consecutive content tokens of some review |
| Charts.TopTriGrams | app.py:458-466 | the trigram chart fails iff every review of the slice has fewer than three content tokens; each listed term is three consecutive content tokens of some review |

The hospital branches of the three callbacks (app.py:347-355, 417-425,
487-495) are the same computation as the all-hospitals branches with the
extra hospital filter; `Charts.TopTerms` covers both through `Reviews.Slice`,
and `Reviews.HospitalSliceFilters` shows the two filters commute.

## Left out

- The dashboard layout, widgets and Plotly figure construction and styling
  (app.py:15-17, 73-302, 327-345 and their copies). They only display the
  result. The widgets fix the input domain, recorded as `Reviews.Hospitals`,
  `Reviews.AllHospitals`, `Reviews.Good` and `Reviews.Bad`.
- The summary plot (app.py:32-70): floating-point percentages for display.
- Loading the CSV file (app.py:25) and starting the server (app.py:521-522).
  The review table is a parameter.
- The vectorizer's lower-casing, regular-expression token pattern and English
  stop-word list are parameters (`TextAnalysis.Analyzer`), not reproduced.
- Sparse-matrix storage: column sums are modelled as occurrence counts over
  the review texts.
- Missing (NaN) review texts: every text is a string here.
- Frequency-based pruning (`min_df`, `max_df`, `max_features`): the code uses
  the defaults, which prune nothing.
- The "Not enough data" alert (app.py:140-145): no callback shows it.
