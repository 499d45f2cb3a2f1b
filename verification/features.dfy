/** Separating each record into its features and its label, and the size of
    the training partition. Both `HousingData.init` and
    `BostonHousingModel.init` do this the same way. */
module Features {
  import opened Results

  datatype SeparateError =
    | NoColumns   // `0..<numColumns-1` with `numColumns == 0` is an invalid range
    | ShortRow    // a record has fewer than `numColumns - 1` cells

  /** The feature rows and the label rows, aligned by record. */
  datatype Separated<T> = Separated(features: seq<seq<T>>, labels: seq<seq<T>>)

  /** Every record has at least `width` cells. */
  predicate RowsAtLeast<T>(rows: seq<seq<T>>, width: nat)
  {
    forall i :: 0 <= i < |rows| ==> width <= |rows[i]|
  }

  /** `dataFeatures = records.map{ Array($0[0..<numColumns-1]) }` and
      `dataLabels = records.map{ Array($0[(numColumns-1)...]) }`.
      Record `i` splits into feature row `i` followed by label row `i`; a
      record of exactly `numColumns` cells has a one-cell label. The slices
      trap on the first record when `numColumns` is zero and on any record
      shorter than `numColumns - 1`. */
  function Separate<T>(records: seq<seq<T>>, numColumns: nat): (r: Result<Separated<T>, SeparateError>)
    ensures r.Err? <==> records != [] && (numColumns == 0 || !RowsAtLeast(records, numColumns - 1))
    ensures r.Err? ==> (r.error == NoColumns <==> numColumns == 0)
    ensures r.Ok? ==> |r.value.features| == |records| && |r.value.labels| == |records|
    ensures r.Ok? ==> forall i :: 0 <= i < |records| ==>
      && |r.value.features[i]| == numColumns - 1
      && r.value.features[i] + r.value.labels[i] == records[i]
    ensures r.Ok? ==> forall i :: 0 <= i < |records| ==>
      r.value.features[i] == records[i][..numColumns - 1] && r.value.labels[i] == records[i][numColumns - 1..]
    ensures r.Ok? ==> forall i :: 0 <= i < |records| && |records[i]| == numColumns ==>
      r.value.labels[i] == [records[i][numColumns - 1]]
  {
    if records == [] then Ok(Separated([], []))
    else if numColumns == 0 then Err(NoColumns)
    else if !RowsAtLeast(records, numColumns - 1) then Err(ShortRow)
    else
      var w := numColumns - 1;
      var features := seq(|records|, i requires 0 <= i < |records| => records[i][..w]);
      var labels := seq(|records|, i requires 0 <= i < |records| => records[i][w..]);
      assert forall i :: 0 <= i < |records| ==> features[i] + labels[i] == records[i];
      Ok(Separated(features, labels))
  }

  /** `Int(ceil(Float(numRecords) * trainPercentage))` with the percentage
      0.8, computed exactly: the least count that is at least four fifths of
      the records. */
  function TrainCount(numRecords: nat): (t: nat)
    ensures 5 * t >= 4 * numRecords
    ensures t == 0 || 5 * (t - 1) < 4 * numRecords
    ensures t <= numRecords
    ensures numRecords > 0 ==> t > 0
  {
    (4 * numRecords + 4) / 5
  }

}
