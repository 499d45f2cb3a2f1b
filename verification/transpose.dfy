/** `HousingData.matrixTranspose`: a generic transpose of a list of rows. */
module Transpose {

  /** Every row is at least as long as the first one, so that `$0[index]`
      stays in range for every column index of the first row. */
  predicate RowsCoverFirst<T>(m: seq<seq<T>>)
  {
    m != [] ==> forall i :: 0 <= i < |m| ==> |m[0]| <= |m[i]|
  }

  /** Every row has exactly `cols` entries. */
  predicate Rectangular<T>(m: seq<seq<T>>, cols: nat)
  {
    forall i :: 0 <= i < |m| ==> |m[i]| == cols
  }

  /** `matrix.map{ $0[index] }`: entry `j` of every row, in row order. */
  function Column<T>(m: seq<seq<T>>, j: nat): (c: seq<T>)
    requires forall i :: 0 <= i < |m| ==> j < |m[i]|
    ensures |c| == |m|
    ensures forall i :: 0 <= i < |m| ==> c[i] == m[i][j]
  {
    seq(|m|, i requires 0 <= i < |m| => m[i][j])
  }

  /** The result of the transpose loop after it has appended the columns
      `0 ..< k`, one `result.append` per iteration. */
  function AppendColumns<T>(m: seq<seq<T>>, k: nat): (r: seq<seq<T>>)
    requires forall i :: 0 <= i < |m| ==> k <= |m[i]|
    ensures |r| == k
    ensures forall j :: 0 <= j < k ==> |r[j]| == |m|
    ensures forall j, i :: 0 <= j < k && 0 <= i < |m| ==> r[j][i] == m[i][j]
    decreases k
  {
    if k == 0 then [] else AppendColumns(m, k - 1) + [Column(m, k - 1)]
  }

  /** The transpose: the empty matrix is returned unchanged; otherwise the
      result has one row per column of the first row, and entry `[j][i]`
      of the result is entry `[i][j]` of the input. */
  function MatrixTranspose<T>(m: seq<seq<T>>): (r: seq<seq<T>>)
    requires RowsCoverFirst(m)
    ensures m == [] ==> r == []
    ensures m != [] ==> |r| == |m[0]|
    ensures forall j :: 0 <= j < |r| ==> |r[j]| == |m|
    ensures forall j, i :: 0 <= j < |r| && 0 <= i < |m| ==> r[j][i] == m[i][j]
  {
    if m == [] then m else AppendColumns(m, |m[0]|)
  }

  /** Transposing a rectangular matrix with at least one row and one column
      twice gives back the matrix. */
  lemma TransposeTwice<T>(m: seq<seq<T>>, cols: nat)
    requires m != [] && cols > 0 && Rectangular(m, cols)
    ensures MatrixTranspose(m) != []
    ensures Rectangular(MatrixTranspose(m), |m|)
    ensures MatrixTranspose(MatrixTranspose(m)) == m
  {
    var t := MatrixTranspose(m);
    assert |t| == cols;
    var tt := MatrixTranspose(t);
    assert |tt| == |m|;
    forall i | 0 <= i < |m|
      ensures tt[i] == m[i]
    {
      assert |tt[i]| == cols == |m[i]|;
      forall j | 0 <= j < cols
        ensures tt[i][j] == m[i][j]
      {
        assert tt[i][j] == t[j][i];
      }
    }
  }

  /** A matrix whose first row is empty transposes to the empty matrix: its
      row count is lost, which is why `TransposeTwice` needs a column. */
  lemma TransposeLosesEmptyRows<T>(m: seq<seq<T>>)
    requires m != [] && |m[0]| == 0 && RowsCoverFirst(m)
    ensures MatrixTranspose(m) == []
    ensures |MatrixTranspose(MatrixTranspose(m))| == 0 < |m|
  {
  }

}
