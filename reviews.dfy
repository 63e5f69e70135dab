/**
 The review table the dashboard loads once at start-up, and the selection of the
 rows one chart is drawn from: every review with the chosen rating label and,
 unless "All Hospitals" is chosen, the chosen hospital.
 */
module Reviews {
  import opened Seqs

  /** One row of the review table, reduced to the three columns the charts read:
      `hospital`, `review_rating` and `review_text_processed`. */
  datatype Review = Review(hospital: string, rating: string, text: string)

  /** The dropdown value that turns the hospital filter off. */
  const AllHospitals: string := "All Hospitals"

  /** The other dropdown values: one per hospital. */
  const Hospitals: seq<string> :=
    ["Fort Sanders", "Parkwest", "LeConte", "Oak Ridge", "Morristown Hamblen", "Roane", "Claiborne"]

  /** The radio-button values for the rating label. */
  const Good: string := "good"
  const Bad: string := "bad"

  /** The rows whose rating label equals `goodBad`, in table order. */
  function WithRating(table: seq<Review>, goodBad: string): (r: seq<Review>)
    ensures forall x :: x in r <==> x in table && x.rating == goodBad
    ensures forall x :: multiset(r)[x] == if x.rating == goodBad then multiset(table)[x] else 0
    ensures IsSubsequence(r, table)
  {
    var p := (x: Review) => x.rating == goodBad;
    FilterIsSubsequence(table, p);
    FilterCounts(table, p);
    Filter(table, p)
  }

  /** The rows of `rows` reviewing hospital `name`, in order. */
  function AtHospital(rows: seq<Review>, name: string): (r: seq<Review>)
    ensures forall x :: x in r <==> x in rows && x.hospital == name
    ensures forall x :: multiset(r)[x] == if x.hospital == name then multiset(rows)[x] else 0
    ensures IsSubsequence(r, rows)
  {
    var p := (x: Review) => x.hospital == name;
    FilterIsSubsequence(rows, p);
    FilterCounts(rows, p);
    Filter(rows, p)
  }

  /** The slice one chart is computed from: the rating filter, then, for a named
      hospital, the hospital filter on its result. */
  function Slice(table: seq<Review>, hospital: string, goodBad: string): (r: seq<Review>)
    ensures forall x :: x in r <==> x in table && x.rating == goodBad
                                    && (hospital != AllHospitals ==> x.hospital == hospital)
    ensures forall x :: multiset(r)[x]
                     == if x.rating == goodBad && (hospital != AllHospitals ==> x.hospital == hospital)
                        then multiset(table)[x] else 0
    ensures IsSubsequence(r, table)
  {
    var rated := WithRating(table, goodBad);
    if hospital == AllHospitals then rated
    else
      SubsequenceTransitive(AtHospital(rated, hospital), rated, table);
      AtHospital(rated, hospital)
  }

  /** The order of the two filters does not matter: a hospital's slice is also
      that hospital's rows filtered by rating, and it lies within the
      all-hospitals slice for the same label. */
  lemma HospitalSliceFilters(table: seq<Review>, hospital: string, goodBad: string)
    requires hospital != AllHospitals
    ensures Slice(table, hospital, goodBad) == WithRating(AtHospital(table, hospital), goodBad)
    ensures IsSubsequence(Slice(table, hospital, goodBad), Slice(table, AllHospitals, goodBad))
  {
    FilterCommute(table, (x: Review) => x.rating == goodBad, (x: Review) => x.hospital == hospital);
  }

  /** The multiset union of the slices of the given hospitals. */
  function SlicesUnion(table: seq<Review>, hospitals: seq<string>, goodBad: string): multiset<Review>
  {
    if hospitals == [] then multiset{}
    else multiset(Slice(table, hospitals[0], goodBad)) + SlicesUnion(table, hospitals[1..], goodBad)
  }

  /** When every row names one of a list of distinct hospitals, the
      all-hospitals slice holds exactly the rows of the per-hospital slices for
      the same goodBad, each row once. */
  lemma {:induction false} AllHospitalsIsUnion(table: seq<Review>, hospitals: seq<string>, goodBad: string)
    requires NoDuplicates(hospitals) && AllHospitals !in hospitals
    requires forall x :: x in table ==> x.hospital in hospitals
    ensures multiset(Slice(table, AllHospitals, goodBad)) == SlicesUnion(table, hospitals, goodBad)
  {
    if table != [] {
      var x, rest := table[0], table[1..];
      assert table == [x] + rest;
      assert forall y :: y in rest ==> y in table;
      AllHospitalsIsUnion(rest, hospitals, goodBad);
      SlicesUnionCons(x, rest, hospitals, goodBad);
      AllSliceCons(x, rest, goodBad);
      assert x.hospital in hospitals;
    } else {
      SlicesUnionOfEmpty(hospitals, goodBad);
    }
  }

  /** A row in front of the table is in the all-hospitals slice exactly when
      it has the label. */
  lemma AllSliceCons(x: Review, rest: seq<Review>, goodBad: string)
    ensures multiset(Slice([x] + rest, AllHospitals, goodBad))
         == multiset(Slice(rest, AllHospitals, goodBad)) + (if x.rating == goodBad then multiset{x} else multiset{})
  {
    var rating := (y: Review) => y.rating == goodBad;
    FilterAppend([x], rest, rating);
    FilterSingleton(x, rating);
  }

  lemma {:induction false} SlicesUnionOfEmpty(hospitals: seq<string>, goodBad: string)
    ensures SlicesUnion([], hospitals, goodBad) == multiset{}
  {
    if hospitals != [] {
      SlicesUnionOfEmpty(hospitals[1..], goodBad);
    }
  }

  /** Adding one row in front of the table adds it to the union once, exactly
      when its label matches and its hospital is listed. */
  lemma {:induction false} SlicesUnionCons(x: Review, rest: seq<Review>, hospitals: seq<string>, goodBad: string)
    requires NoDuplicates(hospitals) && AllHospitals !in hospitals
    ensures SlicesUnion([x] + rest, hospitals, goodBad)
         == SlicesUnion(rest, hospitals, goodBad)
            + (if x.rating == goodBad && x.hospital in hospitals then multiset{x} else multiset{})
  {
    if hospitals != [] {
      NoDuplicatesTail(hospitals);
      SlicesUnionCons(x, rest, hospitals[1..], goodBad);
      SliceCons(x, rest, hospitals[0], goodBad);
    }
  }

  /** A row in front of the table is in a hospital's slice exactly when it
      has the label and names the hospital. */
  lemma SliceCons(x: Review, rest: seq<Review>, hospital: string, goodBad: string)
    requires hospital != AllHospitals
    ensures multiset(Slice([x] + rest, hospital, goodBad))
         == multiset(Slice(rest, hospital, goodBad))
            + (if x.rating == goodBad && x.hospital == hospital then multiset{x} else multiset{})
  {
    var rating := (y: Review) => y.rating == goodBad;
    var at := (y: Review) => y.hospital == hospital;
    FilterAppend([x], rest, rating);
    FilterAppend(Filter([x], rating), Filter(rest, rating), at);
    FilterSingleton(x, rating);
    FilterSingleton(x, at);
  }

  /** The dropdown's hospitals are distinct and do not include "All Hospitals",
      so over a table of their reviews the all-hospitals slice is the union of
      the seven per-hospital slices. */
  lemma DropdownHospitalsCoverTable(table: seq<Review>, goodBad: string)
    requires forall x :: x in table ==> x.hospital in Hospitals
    ensures multiset(Slice(table, AllHospitals, goodBad)) == SlicesUnion(table, Hospitals, goodBad)
  {
    assert NoDuplicates(Hospitals);
    assert AllHospitals !in Hospitals;
    AllHospitalsIsUnion(table, Hospitals, goodBad);
  }

  /** When every row is labelled "good" or "bad", the two radio choices split
      the table: each row lies in exactly one of the two rating slices, as
      often as in the table. */
  lemma RatingsSplitTable(table: seq<Review>)
    requires forall x :: x in table ==> x.rating == Good || x.rating == Bad
    ensures multiset(WithRating(table, Good)) + multiset(WithRating(table, Bad)) == multiset(table)
  {
    var good, bad := WithRating(table, Good), WithRating(table, Bad);
    forall x ensures (multiset(good) + multiset(bad))[x] == multiset(table)[x] {
      if x !in table {
        assert multiset(table)[x] == 0;
      }
    }
  }
}
