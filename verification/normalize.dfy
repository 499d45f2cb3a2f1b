/** The shape of the z-score normalization in `HousingData.init` and
    `BostonHousingModel.init`. The floating-point value
    `(x - mean[c]) / std[c]` is left abstract as a per-column transform `f`;
    what is modelled is which cells are written and that the shape stays. */
module Normalization {
  import Features

  /** The statistics step: given the training feature rows, the transform
      `(x - mean[c]) / std[c]` that their column means and deviations
      define. */
  type ZScore = seq<seq<real>> -> (nat, real) -> real

  /** The normalized rows: column `c < width` of every row goes through
      `f(c, ·)`, the other cells stay. */
  function NormalizeRows<T>(rows: seq<seq<T>>, width: nat, f: (nat, T) -> T): seq<seq<T>>
    requires Features.RowsAtLeast(rows, width)
  {
    seq(|rows|, r requires 0 <= r < |rows| =>
      seq(|rows[r]|, c requires 0 <= c < |rows[r]| => if c < width then f(c, rows[r][c]) else rows[r][c]))
  }

  /** Normalizing keeps the row count and every row's length, and changes
      only the first `width` cells of a row. */
  lemma NormalizedShape<T>(rows: seq<seq<T>>, width: nat, f: (nat, T) -> T)
    requires Features.RowsAtLeast(rows, width)
    ensures |NormalizeRows(rows, width, f)| == |rows|
    ensures forall r :: 0 <= r < |rows| ==> |NormalizeRows(rows, width, f)[r]| == |rows[r]|
    ensures forall r, c :: 0 <= r < |rows| && 0 <= c < width ==> NormalizeRows(rows, width, f)[r][c] == f(c, rows[r][c])
    ensures forall r, c :: 0 <= r < |rows| && width <= c < |rows[r]| ==> NormalizeRows(rows, width, f)[r][c] == rows[r][c]
  {
  }

  /** The nested loops `for r in 0..<rows.count { for c in 0..<width {
      rows[r][c] = f(c, rows[r][c]) } }`, updating the rows in place. They
      keep the row count and every row's length, write each of the first
      `width` columns once, and leave the other cells alone. */
  method NormalizeInPlace<T>(rows: seq<seq<T>>, width: nat, f: (nat, T) -> T) returns (out: seq<seq<T>>)
    requires Features.RowsAtLeast(rows, width)
    ensures |out| == |rows|
    ensures forall r :: 0 <= r < |rows| ==> |out[r]| == |rows[r]|
    ensures forall r, c :: 0 <= r < |rows| && 0 <= c < width ==> out[r][c] == f(c, rows[r][c])
    ensures forall r, c :: 0 <= r < |rows| && width <= c < |rows[r]| ==> out[r][c] == rows[r][c]
    ensures out == NormalizeRows(rows, width, f)
  {
    out := rows;
    var r := 0;
    while r < |out|
      invariant 0 <= r <= |rows| && |out| == |rows|
      invariant forall i :: 0 <= i < |rows| ==> |out[i]| == |rows[i]|
      invariant forall i :: r <= i < |rows| ==> out[i] == rows[i]
      invariant forall i :: 0 <= i < r ==> out[i] == NormalizeRows(rows, width, f)[i]
    {
      var c := 0;
      while c < width
        invariant 0 <= c <= width
        invariant |out| == |rows|
        invariant forall i :: 0 <= i < |rows| ==> |out[i]| == |rows[i]|
        invariant forall i :: r < i < |rows| ==> out[i] == rows[i]
        invariant forall i :: 0 <= i < r ==> out[i] == NormalizeRows(rows, width, f)[i]
        invariant forall k :: 0 <= k < c ==> out[r][k] == f(k, rows[r][k])
        invariant forall k :: c <= k < |rows[r]| ==> out[r][k] == rows[r][k]
      {
        out := out[r := out[r][c := f(c, out[r][c])]];
        c := c + 1;
      }
      assert out[r] == NormalizeRows(rows, width, f)[r];
      r := r + 1;
    }
  }

}
