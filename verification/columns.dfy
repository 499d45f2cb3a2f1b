/** The fixed column layout of the Boston Housing table used by
    `HousingData.init`, and the reading of a categorical cell as `Int32`. */
module Columns {
  import opened Results

  /** `categoricalColumns`: CHAS and RAD. */
  const CategoricalColumns: seq<nat> := [3, 8]

  /** `numericalColumns`: the other eleven feature columns. */
  const NumericalColumns: seq<nat> := [0, 1, 2, 4, 5, 6, 7, 9, 10, 11, 12]

  /** `numLabels`. */
  const NumLabels: nat := 1

  /** The column count the `assert` in `HousingData.init` expects:
      `numCategoricalFeatures + numNumericalFeatures + numLabels`. */
  const ExpectedColumns: nat := |CategoricalColumns| + |NumericalColumns| + NumLabels

  /** The label is the last column. */
  const LabelColumn: nat := ExpectedColumns - 1

  /** The layout partitions the columns: every column below `ExpectedColumns`
      is exactly one of categorical, numerical or the label, and no listed
      column lies outside the feature range. */
  lemma ColumnPartition()
    ensures ExpectedColumns == 14 && LabelColumn == 13
    ensures forall c :: c in CategoricalColumns ==> c !in NumericalColumns && c < LabelColumn
    ensures forall c :: c in NumericalColumns ==> c < LabelColumn
    ensures forall c :: 0 <= c < LabelColumn ==> c in CategoricalColumns || c in NumericalColumns
  {
  }

  /** `columns.map{ row[$0] }`: the cells of `row` at the listed columns. */
  function Select<T>(row: seq<T>, cols: seq<nat>): (r: seq<T>)
    requires forall k :: 0 <= k < |cols| ==> cols[k] < |row|
    ensures |r| == |cols|
    ensures forall k :: 0 <= k < |cols| ==> r[k] == row[cols[k]]
  {
    seq(|cols|, k requires 0 <= k < |cols| => row[cols[k]])
  }

  const Int32Min: int := -0x8000_0000
  const Int32Max: int := 0x7FFF_FFFF

  /** Rounding toward zero, as a Float-to-integer conversion does. */
  function Truncate(x: real): (t: int)
    ensures 0.0 <= x ==> t as real <= x < t as real + 1.0
    ensures x < 0.0 ==> t as real - 1.0 < x <= t as real
  {
    if x >= 0.0 then x.Floor else -((-x).Floor)
  }

  predicate InInt32(v: int)
  {
    Int32Min <= v <= Int32Max
  }

  /** `Int32(x)` for a Float cell: the value rounded toward zero, or nothing
      where Swift would trap because it does not fit. The conversion succeeds
      exactly on the open interval `(Int32.min - 1, Int32.max + 1)`. */
  function ToInt32(x: real): (r: Option<int>)
    ensures r.Some? <==> (Int32Min - 1) as real < x < (Int32Max + 1) as real
    ensures r.Some? ==> InInt32(r.value)
    ensures r.Some? && 0.0 <= x ==> r.value as real <= x < r.value as real + 1.0
    ensures r.Some? && x < 0.0 ==> r.value as real - 1.0 < x <= r.value as real
  {
    var t := Truncate(x);
    if InInt32(t) then Some(t) else None
  }

}
