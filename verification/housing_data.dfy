/** `HousingData`: the Boston Housing table shuffled, split into categorical
    and numerical features and a label, the categorical columns encoded as
    ordinals, the records cut into a training and a test partition, the
    numerical features normalized, and the training partition packed into a
    batch of records. */
module HousingData {
  import opened Results
  import Transpose
  import Shuffle
  import Collections
  import Columns
  import Features
  import Vocabulary
  import Normalization

  /** The traps of `HousingData.init`, in the order the code reaches them. */
  datatype InitError =
    | NoRecords           // `dataRecords[0]` on an empty table
    | ShuffleIncomplete   // the supplied draws never cover every row index
    | NoColumns           // `0..<numColumns-1` with `numColumns == 0`
    | ShortRow            // a record shorter than `numColumns - 1`
    | ColumnCountMismatch // `assert(numColumns == 2 + 11 + 1)` (debug builds)
    | CategoryNotInt32    // `Int32(row[$0])` of a value that does not fit

  /** The stored properties of the struct, except `mean` and `std`. */
  datatype HousingData = HousingData(
    numRecords: nat,
    numColumns: nat,
    numCategoricalFeatures: nat,
    numNumericalFeatures: nat,
    numLabels: nat,
    numTrainRecords: nat,
    numTestRecords: nat,
    allCategoriesValues: seq<seq<int>>,
    xNumericalTrain: seq<seq<real>>,
    xCategoricalTrain: seq<seq<int>>,
    yTrain: seq<seq<real>>,
    xNumericalTest: seq<seq<real>>,
    xCategoricalTest: seq<seq<int>>,
    yTest: seq<seq<real>>)


  /** Number of feature cells in a record: every column except the label. */
  const FeatureWidth: nat := Columns.LabelColumn

  /** `Int32(row[$0])` succeeds on both categorical cells of `row`. */
  predicate CategoricalFits(row: seq<real>)
  {
    forall k :: 0 <= k < |Columns.CategoricalColumns| ==>
      Columns.CategoricalColumns[k] < |row| && Columns.ToInt32(row[Columns.CategoricalColumns[k]]).Some?
  }

  /** Categorical cell `k` of `row`, truncated to an integer: what
      `Int32(row[$0])` yields when it does not trap. */
  function CategoryCell(row: seq<real>, k: nat): int
    requires k < 2 && |row| >= FeatureWidth
  {
    Columns.Truncate(row[Columns.CategoricalColumns[k]])
  }

  /** `categoricalColumns.map{ Int32(row[$0]) }` for one row. */
  function CategoricalCells(row: seq<real>): (cells: seq<int>)
    requires |row| >= FeatureWidth
    ensures |cells| == 2
    ensures forall k :: 0 <= k < 2 ==> cells[k] == CategoryCell(row, k)
    ensures CategoricalFits(row) ==>
      forall k :: 0 <= k < 2 ==> Columns.ToInt32(row[Columns.CategoricalColumns[k]]) == Some(cells[k])
  {
    [CategoryCell(row, 0), CategoryCell(row, 1)]
  }

  /** `categoricalFeatures`: the categorical cells of every row, or nothing
      when one of them does not fit `Int32`. */
  function Categorize(rows: seq<seq<real>>): (r: Option<seq<seq<int>>>)
    requires Features.RowsAtLeast(rows, FeatureWidth)
    ensures r.Some? <==> forall i :: 0 <= i < |rows| ==> CategoricalFits(rows[i])
    ensures r.Some? ==> |r.value| == |rows|
    ensures r.Some? ==> forall i :: 0 <= i < |rows| ==> r.value[i] == CategoricalCells(rows[i])
  {
    if rows == [] then Some([])
    else
      var last := rows[|rows| - 1];
      match Categorize(rows[..|rows| - 1])
      case None => None
      case Some(front) =>
        if CategoricalFits(last) then Some(front + [CategoricalCells(last)]) else None
  }

  /** Numerical cell `c` of `row`. */
  function NumericalCell(row: seq<real>, c: nat): real
    requires c < |Columns.NumericalColumns| && |row| >= FeatureWidth
  {
    row[Columns.NumericalColumns[c]]
  }

  /** `numericalColumns.map{ row[$0] }` for every row. */
  function NumericalFeatures(rows: seq<seq<real>>): (r: seq<seq<real>>)
    requires Features.RowsAtLeast(rows, FeatureWidth)
    ensures |r| == |rows|
    ensures forall i :: 0 <= i < |rows| ==> |r[i]| == |Columns.NumericalColumns|
    ensures forall i, c :: 0 <= i < |rows| && 0 <= c < |Columns.NumericalColumns| ==> r[i][c] == NumericalCell(rows[i], c)
  {
    seq(|rows|, i requires 0 <= i < |rows| => Columns.Select(rows[i], Columns.NumericalColumns))
  }

  /** The label slice of every record. */
  function LabelRows(rows: seq<seq<real>>): (r: seq<seq<real>>)
    requires Features.RowsAtLeast(rows, FeatureWidth)
    ensures |r| == |rows|
    ensures forall i :: 0 <= i < |rows| ==> r[i] == rows[i][FeatureWidth..]
  {
    seq(|rows|, i requires 0 <= i < |rows| => rows[i][FeatureWidth..])
  }

  /** The categorical cells of every record. */
  function CategoricalRows(rows: seq<seq<real>>): (r: seq<seq<int>>)
    requires Features.RowsAtLeast(rows, FeatureWidth)
    ensures |r| == |rows|
    ensures forall i :: 0 <= i < |rows| ==> |r[i]| == 2
    ensures forall i, k :: 0 <= i < |rows| && 0 <= k < 2 ==> r[i][k] == CategoryCell(rows[i], k)
  {
    seq(|rows|, i requires 0 <= i < |rows| => CategoricalCells(rows[i]))
  }

  /** When `init` gets past every trap. */
  predicate Admissible(shuffled: seq<seq<real>>, numColumns: nat)
  {
    && numColumns == Columns.ExpectedColumns
    && Features.RowsAtLeast(shuffled, numColumns - 1)
    && (forall i :: 0 <= i < |shuffled| ==> CategoricalFits(shuffled[i]))
  }


  /** The shape of one partition: `count` numerical rows of eleven cells,
      `count` label rows, and the categorical matrix transposed to two rows
      of `count` ordinals each (no rows at all when the partition is empty,
      since the transpose of an empty matrix is empty). */
  predicate PartitionShape(xNumerical: seq<seq<real>>, xCategorical: seq<seq<int>>, y: seq<seq<real>>,
                           count: nat, vocab: seq<seq<int>>)
    requires |vocab| == 2
  {
    && |xNumerical| == count && |y| == count
    && (forall r :: 0 <= r < count ==> |xNumerical[r]| == |Columns.NumericalColumns|)
    && (count == 0 ==> xCategorical == [])
    && (count > 0 ==> |xCategorical| == 2)
    && (count > 0 ==> forall k :: 0 <= k < 2 ==> |xCategorical[k]| == count)
    && (count > 0 ==> forall k, r :: 0 <= k < 2 && 0 <= r < count ==> 0 <= xCategorical[k][r] < |vocab[k]|)
  }

  /** What every value built by `init` satisfies. */
  predicate Valid(d: HousingData)
  {
    && d.numColumns == Columns.ExpectedColumns
    && d.numCategoricalFeatures == |Columns.CategoricalColumns|
    && d.numNumericalFeatures == |Columns.NumericalColumns|
    && d.numLabels == Columns.NumLabels
    && d.numTrainRecords + d.numTestRecords == d.numRecords
    && |d.allCategoriesValues| == 2
    && (forall k :: 0 <= k < 2 ==> Vocabulary.StrictlyAscending(d.allCategoriesValues[k]))
    && PartitionShape(d.xNumericalTrain, d.xCategoricalTrain, d.yTrain, d.numTrainRecords, d.allCategoriesValues)
    && PartitionShape(d.xNumericalTest, d.xCategoricalTest, d.yTest, d.numTestRecords, d.allCategoriesValues)
  }

  /** The feature cells of every record. */
  function FeatureRows(rows: seq<seq<real>>): (r: seq<seq<real>>)
    requires Features.RowsAtLeast(rows, FeatureWidth)
    ensures |r| == |rows|
    ensures forall i :: 0 <= i < |rows| ==> |r[i]| == FeatureWidth
    ensures forall i :: 0 <= i < |rows| ==> r[i] == rows[i][..FeatureWidth]
  {
    seq(|rows|, i requires 0 <= i < |rows| => rows[i][..FeatureWidth])
  }

  /** Reading the categorical and numerical columns from the feature rows or
      from the whole records gives the same values. */
  lemma FeatureRowsAgree(rows: seq<seq<real>>)
    requires Features.RowsAtLeast(rows, FeatureWidth)
    ensures NumericalFeatures(FeatureRows(rows)) == NumericalFeatures(rows)
    ensures CategoricalRows(FeatureRows(rows)) == CategoricalRows(rows)
    ensures forall i :: 0 <= i < |rows| ==> (CategoricalFits(FeatureRows(rows)[i]) <==> CategoricalFits(rows[i]))
  {
    var features := FeatureRows(rows);
    assert forall i, c :: 0 <= i < |rows| && 0 <= c < FeatureWidth ==> features[i][c] == rows[i][c];
    assert forall i :: 0 <= i < |rows| ==>
      Columns.Select(features[i], Columns.NumericalColumns) == Columns.Select(rows[i], Columns.NumericalColumns);
    assert forall i :: 0 <= i < |rows| ==> CategoricalCells(features[i]) == CategoricalCells(rows[i]);
  }

  /** What `Assemble` needs: records wide enough for the feature columns,
      a training count within the records, and for each categorical column
      the vocabulary of its values, once from the gathered lists
      (`allCategoriesValues`) and once from the collected sets
      (`sortedCategoricalValues`). */
  predicate Assemblable(shuffled: seq<seq<real>>, numTrain: nat,
                        allCategoriesValues: seq<seq<int>>, sortedCategoricalValues: seq<seq<int>>)
  {
    && Features.RowsAtLeast(shuffled, FeatureWidth)
    && numTrain <= |shuffled|
    && Vocabulary.VocabulariesOf(allCategoriesValues, CategoricalRows(shuffled))
    && Vocabulary.VocabulariesOf(sortedCategoricalValues, CategoricalRows(shuffled))
  }

  /** The data built from the shuffled records: feature and label rows,
      numerical features, the ordinal encoding made with
      `sortedCategoricalValues`, then the cut into partitions, which stores
      `allCategoriesValues`. */
  function Assemble(shuffled: seq<seq<real>>, numTrain: nat, zscore: Normalization.ZScore,
                    allCategoriesValues: seq<seq<int>>, sortedCategoricalValues: seq<seq<int>>): (d: HousingData)
    requires Assemblable(shuffled, numTrain, allCategoriesValues, sortedCategoricalValues)
    ensures Valid(d)
    ensures d.numRecords == |shuffled| && d.numTrainRecords == numTrain
  {
    var features := FeatureRows(shuffled);
    var numericalFeatures := NumericalFeatures(features);
    var categoricalFeatures := CategoricalRows(features);
    FeatureRowsAgree(shuffled);
    Vocabulary.VocabulariesAgree(categoricalFeatures, allCategoriesValues, sortedCategoricalValues);
    Vocabulary.RowsInVocabulary(categoricalFeatures, sortedCategoricalValues);
    Split(numericalFeatures,
          Vocabulary.OrdinalEncode(categoricalFeatures, sortedCategoricalValues),
          LabelRows(shuffled),
          allCategoriesValues,
          numTrain,
          zscore(numericalFeatures[..numTrain]))
  }

  /** The cut at `numTrain` of aligned numerical, ordinal and label rows:
      the numerical partitions normalized with `f`, the ordinal partitions
      transposed to one row per categorical column. */
  function Split(numerical: seq<seq<real>>, ordinal: seq<seq<int>>, labels: seq<seq<real>>,
                 vocab: seq<seq<int>>, numTrain: nat, f: (nat, real) -> real): (d: HousingData)
    requires |vocab| == 2
    requires forall k :: 0 <= k < 2 ==> Vocabulary.StrictlyAscending(vocab[k])
    requires |ordinal| == |numerical| && |labels| == |numerical| && numTrain <= |numerical|
    requires forall i :: 0 <= i < |numerical| ==> |numerical[i]| == |Columns.NumericalColumns|
    requires forall i :: 0 <= i < |ordinal| ==> |ordinal[i]| == 2
    requires forall i, k {:trigger ordinal[i][k]} :: 0 <= i < |ordinal| && 0 <= k < 2 ==> 0 <= ordinal[i][k] < |vocab[k]|
    ensures Valid(d)
    ensures d.numRecords == |numerical| && d.numTrainRecords == numTrain
  {
    PartitionShapeOf(numerical[..numTrain], ordinal[..numTrain], labels[..numTrain], vocab, f);
    PartitionShapeOf(numerical[numTrain..], ordinal[numTrain..], labels[numTrain..], vocab, f);
    HousingData(
      numRecords := |numerical|,
      numColumns := Columns.ExpectedColumns,
      numCategoricalFeatures := |Columns.CategoricalColumns|,
      numNumericalFeatures := |Columns.NumericalColumns|,
      numLabels := Columns.NumLabels,
      numTrainRecords := numTrain,
      numTestRecords := |numerical| - numTrain,
      allCategoriesValues := vocab,
      xNumericalTrain := Normalization.NormalizeRows(numerical[..numTrain], |Columns.NumericalColumns|, f),
      xCategoricalTrain := Transpose.MatrixTranspose(ordinal[..numTrain]),
      yTrain := labels[..numTrain],
      xNumericalTest := Normalization.NormalizeRows(numerical[numTrain..], |Columns.NumericalColumns|, f),
      xCategoricalTest := Transpose.MatrixTranspose(ordinal[numTrain..]),
      yTest := labels[numTrain..])
  }

  /** What the cut stores in the label and numerical partitions: the label
      rows before and from `numTrain`, and numerical cells passed through
      `f`. */
  lemma SplitContents(numerical: seq<seq<real>>, ordinal: seq<seq<int>>, labels: seq<seq<real>>,
                      vocab: seq<seq<int>>, numTrain: nat, f: (nat, real) -> real)
    requires |vocab| == 2
    requires forall k :: 0 <= k < 2 ==> Vocabulary.StrictlyAscending(vocab[k])
    requires |ordinal| == |numerical| && |labels| == |numerical| && numTrain <= |numerical|
    requires forall i :: 0 <= i < |numerical| ==> |numerical[i]| == |Columns.NumericalColumns|
    requires forall i :: 0 <= i < |ordinal| ==> |ordinal[i]| == 2
    requires forall i, k {:trigger ordinal[i][k]} :: 0 <= i < |ordinal| && 0 <= k < 2 ==> 0 <= ordinal[i][k] < |vocab[k]|
    ensures var d := Split(numerical, ordinal, labels, vocab, numTrain, f);
      && d.yTrain == labels[..numTrain] && d.yTest == labels[numTrain..]
      && d.yTrain + d.yTest == labels
      && (forall i, c :: 0 <= i < numTrain && 0 <= c < |Columns.NumericalColumns| ==>
            d.xNumericalTrain[i][c] == f(c, numerical[i][c]))
      && (forall i, c :: 0 <= i < |numerical| - numTrain && 0 <= c < |Columns.NumericalColumns| ==>
            d.xNumericalTest[i][c] == f(c, numerical[numTrain + i][c]))
  {
    Normalization.NormalizedShape(numerical[..numTrain], |Columns.NumericalColumns|, f);
    Normalization.NormalizedShape(numerical[numTrain..], |Columns.NumericalColumns|, f);
    assert labels[..numTrain] + labels[numTrain..] == labels;
  }

  /** What the cut stores in the categorical partitions: the vocabularies
      it was given, and categorical row `k` of a partition lists code `k`
      of the partition's rows, offset by `numTrain` for the test rows. */
  lemma SplitCodes(numerical: seq<seq<real>>, ordinal: seq<seq<int>>, labels: seq<seq<real>>,
                   vocab: seq<seq<int>>, numTrain: nat, f: (nat, real) -> real)
    requires |vocab| == 2
    requires forall k :: 0 <= k < 2 ==> Vocabulary.StrictlyAscending(vocab[k])
    requires |ordinal| == |numerical| && |labels| == |numerical| && numTrain <= |numerical|
    requires forall i :: 0 <= i < |numerical| ==> |numerical[i]| == |Columns.NumericalColumns|
    requires forall i :: 0 <= i < |ordinal| ==> |ordinal[i]| == 2
    requires forall i, k {:trigger ordinal[i][k]} :: 0 <= i < |ordinal| && 0 <= k < 2 ==> 0 <= ordinal[i][k] < |vocab[k]|
    ensures var d := Split(numerical, ordinal, labels, vocab, numTrain, f);
      && d.allCategoriesValues == vocab
      && (forall k, i :: 0 <= k < 2 && 0 <= i < numTrain ==> d.xCategoricalTrain[k][i] == ordinal[i][k])
      && (forall k, i :: 0 <= k < 2 && 0 <= i < |numerical| - numTrain ==>
            d.xCategoricalTest[k][i] == ordinal[numTrain + i][k])
  {
  }

  /** Normalizing aligned numerical rows and transposing the matching
      ordinal rows gives a partition of the expected shape. */
  lemma PartitionShapeOf(numerical: seq<seq<real>>, ordinal: seq<seq<int>>, labels: seq<seq<real>>,
                         vocab: seq<seq<int>>, f: (nat, real) -> real)
    requires |vocab| == 2
    requires |ordinal| == |numerical| && |labels| == |numerical|
    requires forall i :: 0 <= i < |numerical| ==> |numerical[i]| == |Columns.NumericalColumns|
    requires forall i :: 0 <= i < |ordinal| ==> |ordinal[i]| == 2
    requires forall i, k {:trigger ordinal[i][k]} :: 0 <= i < |ordinal| && 0 <= k < 2 ==> 0 <= ordinal[i][k] < |vocab[k]|
    ensures Features.RowsAtLeast(numerical, |Columns.NumericalColumns|)
    ensures Transpose.RowsCoverFirst(ordinal)
    ensures PartitionShape(
      Normalization.NormalizeRows(numerical, |Columns.NumericalColumns|, f),
      Transpose.MatrixTranspose(ordinal), labels, |numerical|, vocab)
  {
    Normalization.NormalizedShape(numerical, |Columns.NumericalColumns|, f);
    var t := Transpose.MatrixTranspose(ordinal);
    if numerical != [] {
      assert |t| == 2;
      forall k, r | 0 <= k < 2 && 0 <= r < |numerical|
        ensures 0 <= t[k][r] < |vocab[k]|
      {
        assert t[k][r] == ordinal[r][k];
      }
    }
  }

  /** With the expected column count, separating the records yields their
      feature rows and label rows. */
  lemma SeparatedRows(shuffled: seq<seq<real>>, separated: Features.Separated<real>)
    requires Features.Separate(shuffled, Columns.ExpectedColumns) == Ok(separated)
    ensures Features.RowsAtLeast(shuffled, FeatureWidth)
    ensures separated.features == FeatureRows(shuffled)
    ensures separated.labels == LabelRows(shuffled)
  {
  }

  /** The traps `init` can reach once the records are shuffled, in the
      order it reaches them: it gets past all of them exactly when the
      records are admissible, and then yields the categorical features. An
      error names a fault the records really have. */
  function CheckRecords(shuffled: seq<seq<real>>, numColumns: nat): (r: Result<seq<seq<int>>, InitError>)
    ensures r.Ok? <==> Admissible(shuffled, numColumns)
    ensures r.Ok? ==> r.value == CategoricalRows(shuffled)
    ensures r == Err(NoColumns) <==> shuffled != [] && numColumns == 0
    ensures r == Err(ShortRow) <==>
      shuffled != [] && numColumns > 0 && !Features.RowsAtLeast(shuffled, numColumns - 1)
    ensures r == Err(ColumnCountMismatch) <==>
      && numColumns != Columns.ExpectedColumns
      && (shuffled == [] || (numColumns > 0 && Features.RowsAtLeast(shuffled, numColumns - 1)))
    ensures r == Err(CategoryNotInt32) <==>
      && numColumns == Columns.ExpectedColumns
      && Features.RowsAtLeast(shuffled, numColumns - 1)
      && exists i :: 0 <= i < |shuffled| && !CategoricalFits(shuffled[i])
    ensures r != Err(NoRecords) && r != Err(ShuffleIncomplete)
  {
    match Features.Separate(shuffled, numColumns)
    case Err(e) => Err(if e == Features.NoColumns then NoColumns else ShortRow)
    case Ok(separated) =>
      if numColumns != Columns.ExpectedColumns then Err(ColumnCountMismatch)
      else
        var features := separated.features;
        SeparatedRows(shuffled, separated);
        FeatureRowsAgree(shuffled);
        match Categorize(features)
        case None => Err(CategoryNotInt32)
        case Some(categoricalFeatures) =>
          assert categoricalFeatures == CategoricalRows(features);
          Ok(categoricalFeatures)
  }

  /** Every record of a reordering is some record of the original and the
      other way round, so properties that hold of all records, or of some
      record, hold of both alike. */
  lemma PermutedRowFacts(records: seq<seq<real>>, order: seq<int>, numColumns: nat)
    requires Shuffle.IsPermutation(order, |records|)
    ensures var shuffled := Shuffle.Permute(records, order);
      && (numColumns > 0 ==>
            (Features.RowsAtLeast(shuffled, numColumns - 1) <==> Features.RowsAtLeast(records, numColumns - 1)))
      && ((forall i :: 0 <= i < |shuffled| ==> CategoricalFits(shuffled[i]))
          <==> (forall i :: 0 <= i < |records| ==> CategoricalFits(records[i])))
  {
    var shuffled := Shuffle.Permute(records, order);
    forall j | 0 <= j < |records|
      ensures exists i :: 0 <= i < |shuffled| && shuffled[i] == records[j]
    {
      assert j in order;
      var i :| 0 <= i < |order| && order[i] == j;
      assert shuffled[i] == records[j];
    }
  }

  /** The traps after shuffling do not depend on the order the shuffle
      chose: the reordered records are admissible exactly when the records
      are, and a failing check reports the same error either way. */
  lemma CheckRecordsPermuted(records: seq<seq<real>>, order: seq<int>, numColumns: nat)
    requires Shuffle.IsPermutation(order, |records|)
    ensures Admissible(Shuffle.Permute(records, order), numColumns) <==> Admissible(records, numColumns)
    ensures CheckRecords(Shuffle.Permute(records, order), numColumns).Err? ==>
      CheckRecords(Shuffle.Permute(records, order), numColumns) == CheckRecords(records, numColumns)
  {
    PermutedRowFacts(records, order, numColumns);
  }

  /** `HousingData.init` after loading: take the column count from the
      first record, shuffle, check the records, build both vocabularies, cut
      at `TrainCount(numRecords)` and assemble. `draws` stands for the calls
      to `Int.random(in: 0..<numRecords)`, `zscore` for the statistics of the
      training rows. */
  method Init(records: seq<seq<real>>, draws: seq<int>, zscore: Normalization.ZScore)
    returns (order: seq<int>, shuffled: seq<seq<real>>, r: Result<HousingData, InitError>)
    requires forall k :: 0 <= k < |draws| ==> 0 <= draws[k] < |records|
    ensures records == [] ==> r == Err(NoRecords)
    ensures records != [] ==> (r == Err(ShuffleIncomplete) <==> Collections.Elements(draws) != Shuffle.Range(|records|))
    ensures records != [] && Collections.Elements(draws) == Shuffle.Range(|records|) ==>
      Shuffle.IsPermutation(order, |records|) && shuffled == Shuffle.Permute(records, order)
    ensures r.Ok? ==> Shuffle.IsPermutation(order, |records|) && shuffled == Shuffle.Permute(records, order)
    ensures records != [] && Collections.Elements(draws) == Shuffle.Range(|records|) ==>
      multiset(shuffled) == multiset(records)
    ensures records != [] && Collections.Elements(draws) == Shuffle.Range(|records|) ==>
      (r.Ok? <==> Admissible(records, |records[0]|))
    ensures records != [] && Collections.Elements(draws) == Shuffle.Range(|records|) && r.Err? ==>
      CheckRecords(shuffled, |records[0]|) == Err(r.error) && CheckRecords(records, |records[0]|) == Err(r.error)
    ensures r.Ok? ==> Valid(r.value) && r.value.numRecords == |records|
    ensures r.Ok? ==> r.value.numTrainRecords == Features.TrainCount(|records|)
    ensures r.Ok? ==> Assemblable(shuffled, Features.TrainCount(|records|), r.value.allCategoriesValues, r.value.allCategoriesValues)
    ensures r.Ok? ==> r.value == Assemble(shuffled, Features.TrainCount(|records|), zscore, r.value.allCategoriesValues, r.value.allCategoriesValues)
  {
    order, shuffled := [], [];
    if records == [] {
      return order, shuffled, Err(NoRecords);
    }
    var numRecords := |records|;
    var numColumns := |records[0]|;
    var shuffle := Shuffle.ShuffleOrder(numRecords, draws);
    if shuffle.None? {
      return order, shuffled, Err(ShuffleIncomplete);
    }
    order := shuffle.value;
    shuffled := Shuffle.Permute(records, order);
    Shuffle.PermutePreservesMultiset(records, order);
    CheckRecordsPermuted(records, order, numColumns);
    match CheckRecords(shuffled, numColumns)
    case Err(e) =>
      r := Err(e);
    case Ok(categoricalFeatures) =>
      var allCategoriesValues := Vocabulary.AllCategoriesValues(categoricalFeatures);
      var sortedCategoricalValues := Vocabulary.SortedCategoricalValues(categoricalFeatures);
      Vocabulary.VocabulariesAgree(categoricalFeatures, allCategoriesValues, sortedCategoricalValues);
      var numTrainRecords := Features.TrainCount(numRecords);
      r := Ok(Assemble(shuffled, numTrainRecords, zscore, allCategoriesValues, sortedCategoricalValues));
  }

  /** The labels: the training partition holds the label cells of the first
      `numTrain` shuffled records, the test partition those of the rest, in
      order. */
  lemma AssembleLabels(shuffled: seq<seq<real>>, numTrain: nat, zscore: Normalization.ZScore,
                       allCategoriesValues: seq<seq<int>>, sortedCategoricalValues: seq<seq<int>>)
    requires Assemblable(shuffled, numTrain, allCategoriesValues, sortedCategoricalValues)
    ensures var d := Assemble(shuffled, numTrain, zscore, allCategoriesValues, sortedCategoricalValues);
      && d.yTrain + d.yTest == LabelRows(shuffled)
      && (forall i :: 0 <= i < numTrain ==> d.yTrain[i] == shuffled[i][FeatureWidth..])
      && (forall i :: 0 <= i < |shuffled| - numTrain ==> d.yTest[i] == shuffled[numTrain + i][FeatureWidth..])
  {
    var features := FeatureRows(shuffled);
    var numerical := NumericalFeatures(features);
    var categorical := CategoricalRows(features);
    FeatureRowsAgree(shuffled);
    Vocabulary.VocabulariesAgree(categorical, allCategoriesValues, sortedCategoricalValues);
    Vocabulary.RowsInVocabulary(categorical, sortedCategoricalValues);
    var ordinal := Vocabulary.OrdinalEncode(categorical, sortedCategoricalValues);
    var labels := LabelRows(shuffled);
    SplitContents(numerical, ordinal, labels, allCategoriesValues, numTrain, zscore(numerical[..numTrain]));
    var d := Assemble(shuffled, numTrain, zscore, allCategoriesValues, sortedCategoricalValues);
    forall i | 0 <= i < |shuffled| - numTrain
      ensures d.yTest[i] == shuffled[numTrain + i][FeatureWidth..]
    {
      assert d.yTest[i] == labels[numTrain + i] == shuffled[numTrain + i][FeatureWidth..];
    }
  }

  /** The numerical features: cell `c` of a partition row is numerical
      column `c` of the matching shuffled record, normalized with the
      transform drawn from the training rows alone, for the test partition
      as for the training one. */
  lemma AssembleNumerical(shuffled: seq<seq<real>>, numTrain: nat, zscore: Normalization.ZScore,
                          allCategoriesValues: seq<seq<int>>, sortedCategoricalValues: seq<seq<int>>)
    requires Assemblable(shuffled, numTrain, allCategoriesValues, sortedCategoricalValues)
    ensures var d := Assemble(shuffled, numTrain, zscore, allCategoriesValues, sortedCategoricalValues);
      var f := zscore(NumericalFeatures(shuffled)[..numTrain]);
      && (forall i, c :: 0 <= i < numTrain && 0 <= c < |Columns.NumericalColumns| ==>
            d.xNumericalTrain[i][c] == f(c, NumericalCell(shuffled[i], c)))
      && (forall i, c :: 0 <= i < |shuffled| - numTrain && 0 <= c < |Columns.NumericalColumns| ==>
            d.xNumericalTest[i][c] == f(c, NumericalCell(shuffled[numTrain + i], c)))
  {
    var features := FeatureRows(shuffled);
    var numerical := NumericalFeatures(features);
    var categorical := CategoricalRows(features);
    FeatureRowsAgree(shuffled);
    Vocabulary.VocabulariesAgree(categorical, allCategoriesValues, sortedCategoricalValues);
    Vocabulary.RowsInVocabulary(categorical, sortedCategoricalValues);
    var ordinal := Vocabulary.OrdinalEncode(categorical, sortedCategoricalValues);
    SplitContents(numerical, ordinal, LabelRows(shuffled), allCategoriesValues, numTrain, zscore(numerical[..numTrain]));
  }

  /** The categorical features: the stored vocabularies are
      `allCategoriesValues`, and entry `i` of categorical row `k` of a
      partition is the position, in vocabulary `k`, of the truncated
      categorical cell `k` of the matching shuffled record. */
  lemma AssembleCategorical(shuffled: seq<seq<real>>, numTrain: nat, zscore: Normalization.ZScore,
                            allCategoriesValues: seq<seq<int>>, sortedCategoricalValues: seq<seq<int>>)
    requires Assemblable(shuffled, numTrain, allCategoriesValues, sortedCategoricalValues)
    ensures var d := Assemble(shuffled, numTrain, zscore, allCategoriesValues, sortedCategoricalValues);
      && d.allCategoriesValues == allCategoriesValues
      && (forall i, k :: 0 <= i < |shuffled| && 0 <= k < 2 ==> CategoryCell(shuffled[i], k) in allCategoriesValues[k])
      && (forall k, i :: 0 <= k < 2 && 0 <= i < numTrain ==>
            d.xCategoricalTrain[k][i] == Vocabulary.Ordinal(allCategoriesValues[k], CategoryCell(shuffled[i], k)))
      && (forall k, i :: 0 <= k < 2 && 0 <= i < |shuffled| - numTrain ==>
            d.xCategoricalTest[k][i] == Vocabulary.Ordinal(allCategoriesValues[k], CategoryCell(shuffled[numTrain + i], k)))
  {
    var features := FeatureRows(shuffled);
    var numerical := NumericalFeatures(features);
    var categorical := CategoricalRows(features);
    FeatureRowsAgree(shuffled);
    Vocabulary.VocabulariesAgree(categorical, allCategoriesValues, sortedCategoricalValues);
    Vocabulary.RowsInVocabulary(categorical, sortedCategoricalValues);
    var ordinal := Vocabulary.OrdinalEncode(categorical, sortedCategoricalValues);
    SplitCodes(numerical, ordinal, LabelRows(shuffled), allCategoriesValues, numTrain, zscore(numerical[..numTrain]));
    forall i, k | 0 <= i < |shuffled| && 0 <= k < 2
      ensures CategoryCell(shuffled[i], k) in allCategoriesValues[k]
      ensures ordinal[i][k] == Vocabulary.Ordinal(allCategoriesValues[k], CategoryCell(shuffled[i], k))
    {
      assert categorical[i][k] == CategoryCell(shuffled[i], k);
    }
  }

  /** The stored vocabulary of a categorical column holds exactly the
      truncated values the column takes over the records, in ascending
      order without repeats. */
  lemma StoredVocabulary(shuffled: seq<seq<real>>, allCategoriesValues: seq<seq<int>>, k: nat)
    requires Features.RowsAtLeast(shuffled, FeatureWidth)
    requires Vocabulary.VocabulariesOf(allCategoriesValues, CategoricalRows(shuffled))
    requires k < 2
    ensures Vocabulary.StrictlyAscending(allCategoriesValues[k])
    ensures forall x :: x in allCategoriesValues[k] <==> exists i :: 0 <= i < |shuffled| && CategoryCell(shuffled[i], k) == x
  {
    var categorical := CategoricalRows(shuffled);
    var column := Transpose.Column(categorical, k);
    forall x
      ensures x in allCategoriesValues[k] <==> exists i :: 0 <= i < |shuffled| && CategoryCell(shuffled[i], k) == x
    {
      if x in allCategoriesValues[k] {
        assert x in Collections.Elements(allCategoriesValues[k]);
        var i :| 0 <= i < |column| && column[i] == x;
        assert CategoryCell(shuffled[i], k) == x;
      }
      if exists i :: 0 <= i < |shuffled| && CategoryCell(shuffled[i], k) == x {
        var i :| 0 <= i < |shuffled| && CategoryCell(shuffled[i], k) == x;
        Collections.InElements(column, i);
      }
    }
  }

  /** One element of the batch `prepareTrainingBatch` returns: the four
      named feature values of a `MLDictionaryFeatureProvider`. */
  datatype TrainingRecord = TrainingRecord(
    numericalInput: seq<real>,
    categoricalInput1: int,
    categoricalInput2: int,
    outputTrue: real)

  /** `yTrain[r][0]` on an empty label row traps. */
  datatype BatchError = EmptyLabel(record: nat)

  /** Training record `r`: numerical row `r`, entry `r` of both categorical
      rows, and the first label cell. */
  function RecordAt(d: HousingData, r: nat): TrainingRecord
    requires Valid(d) && r < d.numTrainRecords && d.yTrain[r] != []
  {
    TrainingRecord(d.xNumericalTrain[r], d.xCategoricalTrain[0][r], d.xCategoricalTrain[1][r], d.yTrain[r][0])
  }

  /** The first `n` iterations of the loop over `0..<numTrainRecords`. */
  function BatchUpTo(d: HousingData, n: nat): (b: Result<seq<TrainingRecord>, BatchError>)
    requires Valid(d) && n <= d.numTrainRecords
    ensures b.Ok? <==> forall r :: 0 <= r < n ==> d.yTrain[r] != []
    ensures b.Ok? ==> |b.value| == n && forall r :: 0 <= r < n ==> b.value[r] == RecordAt(d, r)
    ensures b.Err? ==> b.error.record < n && d.yTrain[b.error.record] == []
    ensures b.Err? ==> forall r :: 0 <= r < b.error.record ==> d.yTrain[r] != []
  {
    if n == 0 then Ok([])
    else
      match BatchUpTo(d, n - 1)
      case Err(e) => Err(e)
      case Ok(front) =>
        if d.yTrain[n - 1] == [] then Err(EmptyLabel(n - 1)) else Ok(front + [RecordAt(d, n - 1)])
  }

  /** `prepareTrainingBatch`: one record per training row, in row order;
      the first training row with an empty label traps. */
  function TrainingBatch(d: HousingData): (b: Result<seq<TrainingRecord>, BatchError>)
    requires Valid(d)
    ensures b.Ok? <==> forall r :: 0 <= r < d.numTrainRecords ==> d.yTrain[r] != []
    ensures b.Ok? ==> |b.value| == d.numTrainRecords
    ensures b.Ok? ==> forall r :: 0 <= r < d.numTrainRecords ==>
      && b.value[r].numericalInput == d.xNumericalTrain[r]
      && |b.value[r].numericalInput| == d.numNumericalFeatures
      && b.value[r].categoricalInput1 == d.xCategoricalTrain[0][r]
      && b.value[r].categoricalInput2 == d.xCategoricalTrain[1][r]
      && b.value[r].outputTrue == d.yTrain[r][0]
    ensures b.Err? ==> b.error.record < d.numTrainRecords && d.yTrain[b.error.record] == []
    ensures b.Err? ==> forall r :: 0 <= r < b.error.record ==> d.yTrain[r] != []
  {
    BatchUpTo(d, d.numTrainRecords)
  }

  /** The loop of `prepareTrainingBatch` itself, with the inner loop that
      copies the numerical cells into the input array. */
  method PrepareTrainingBatch(d: HousingData) returns (b: Result<seq<TrainingRecord>, BatchError>)
    requires Valid(d)
    ensures b == TrainingBatch(d)
  {
    var featureProviders: seq<TrainingRecord> := [];
    var r := 0;
    while r < d.numTrainRecords
      invariant 0 <= r <= d.numTrainRecords
      invariant BatchUpTo(d, r) == Ok(featureProviders)
    {
      var numericalInput: seq<real> := [];
      var c := 0;
      while c < d.numNumericalFeatures
        invariant 0 <= c <= d.numNumericalFeatures
        invariant numericalInput == d.xNumericalTrain[r][..c]
      {
        numericalInput := numericalInput + [d.xNumericalTrain[r][c]];
        c := c + 1;
      }
      assert numericalInput == d.xNumericalTrain[r];
      if d.yTrain[r] == [] {
        assert forall k :: 0 <= k < r ==> d.yTrain[k] != [];
        assert TrainingBatch(d).Err? && TrainingBatch(d).error.record == r;
        return Err(EmptyLabel(r));
      }
      featureProviders := featureProviders + [TrainingRecord(numericalInput, d.xCategoricalTrain[0][r],
                                                             d.xCategoricalTrain[1][r], d.yTrain[r][0])];
      r := r + 1;
    }
    b := Ok(featureProviders);
  }

  /** From the records to the batch: training record `r` carries the
      normalized numerical cells, the two ordinals and the label cell of
      shuffled record `r`, so the four inputs of a record come from the same
      record. The batch is built exactly when every training record has a
      label cell. */
  lemma BatchAlignment(shuffled: seq<seq<real>>, numTrain: nat, zscore: Normalization.ZScore,
                       allCategoriesValues: seq<seq<int>>, sortedCategoricalValues: seq<seq<int>>)
    requires Assemblable(shuffled, numTrain, allCategoriesValues, sortedCategoricalValues)
    ensures var d := Assemble(shuffled, numTrain, zscore, allCategoriesValues, sortedCategoricalValues);
      var b := TrainingBatch(d);
      var f := zscore(NumericalFeatures(shuffled)[..numTrain]);
      && (b.Ok? <==> forall r :: 0 <= r < numTrain ==> |shuffled[r]| > FeatureWidth)
      && (b.Ok? ==> forall r, c :: 0 <= r < numTrain && 0 <= c < |Columns.NumericalColumns| ==>
            b.value[r].numericalInput[c] == f(c, NumericalCell(shuffled[r], c)))
      && (b.Ok? ==> forall r :: 0 <= r < numTrain ==>
            && CategoryCell(shuffled[r], 0) in allCategoriesValues[0]
            && CategoryCell(shuffled[r], 1) in allCategoriesValues[1]
            && b.value[r].categoricalInput1 == Vocabulary.Ordinal(allCategoriesValues[0], CategoryCell(shuffled[r], 0))
            && b.value[r].categoricalInput2 == Vocabulary.Ordinal(allCategoriesValues[1], CategoryCell(shuffled[r], 1))
            && b.value[r].outputTrue == shuffled[r][FeatureWidth])
  {
    var d := Assemble(shuffled, numTrain, zscore, allCategoriesValues, sortedCategoricalValues);
    AssembleLabels(shuffled, numTrain, zscore, allCategoriesValues, sortedCategoricalValues);
    AssembleNumerical(shuffled, numTrain, zscore, allCategoriesValues, sortedCategoricalValues);
    AssembleCategorical(shuffled, numTrain, zscore, allCategoriesValues, sortedCategoricalValues);
    forall r | 0 <= r < numTrain
      ensures d.yTrain[r] != [] <==> |shuffled[r]| > FeatureWidth
      ensures d.yTrain[r] != [] ==> d.yTrain[r][0] == shuffled[r][FeatureWidth]
    {
      assert d.yTrain[r] == shuffled[r][FeatureWidth..];
    }
  }

}
