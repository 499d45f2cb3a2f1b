/** `BostonHousingModel`: the simpler pipeline over an all-numerical table.
    Every record is split into its first `numColumns - 1` cells (the
    features) and the rest (the label), the first four fifths of the records
    in file order are the training partition, the features of both
    partitions are normalized with the training statistics, and
    `prepareTrainingBatch` turns the training rows into fixed-size input
    arrays of 13 cells. */
module BostonHousingModel {
  import opened Results
  import Features
  import Normalization

  /** Where `init` traps. */
  datatype InitError =
    | NoRecords   // `dataRecords[0]` on an empty table
    | NoColumns   // `0..<numColumns-1` with `numColumns == 0`
    | ShortRow    // a record shorter than `numColumns - 1`

  /** The stored properties of the struct. */
  datatype BostonHousingModel = BostonHousingModel(
    numRecords: nat,
    numColumns: nat,
    numTrainRecords: nat,
    numTestRecords: nat,
    xTrain: seq<seq<real>>,
    yTrain: seq<seq<real>>,
    xTest: seq<seq<real>>,
    yTest: seq<seq<real>>)

  /** What every value built by `init` satisfies: the partitions add up to
      the records and every feature row has `numColumns - 1` cells. */
  predicate Valid(m: BostonHousingModel)
  {
    && m.numColumns > 0
    && m.numTrainRecords + m.numTestRecords == m.numRecords
    && |m.xTrain| == m.numTrainRecords && |m.yTrain| == m.numTrainRecords
    && |m.xTest| == m.numTestRecords && |m.yTest| == m.numTestRecords
    && (forall r :: 0 <= r < m.numTrainRecords ==> |m.xTrain[r]| == m.numColumns - 1)
    && (forall r :: 0 <= r < m.numTestRecords ==> |m.xTest[r]| == m.numColumns - 1)
  }

  /** The feature cells of the first `count` records: the rows the mean and
      the deviation are computed from. */
  function TrainFeatures(records: seq<seq<real>>, count: nat, width: nat): (rows: seq<seq<real>>)
    requires count <= |records| && Features.RowsAtLeast(records, width)
    ensures |rows| == count
    ensures forall i :: 0 <= i < count ==> rows[i] == records[i][..width]
  {
    seq(count, i requires 0 <= i < count => records[i][..width])
  }

  /** The struct built from the separated rows: the first `numTrain` rows
      form the training partition, the rest the test partition, and the
      features of both go through `f`. */
  function Partition(numColumns: nat, features: seq<seq<real>>, labels: seq<seq<real>>, numTrain: nat,
                     f: (nat, real) -> real): (m: BostonHousingModel)
    requires numColumns > 0 && |features| == |labels| && numTrain <= |features|
    requires forall i :: 0 <= i < |features| ==> |features[i]| == numColumns - 1
    ensures Valid(m)
    ensures m.numRecords == |features| && m.numColumns == numColumns && m.numTrainRecords == numTrain
    ensures forall i :: 0 <= i < numTrain ==> m.yTrain[i] == labels[i]
    ensures forall i :: 0 <= i < m.numTestRecords ==> m.yTest[i] == labels[numTrain + i]
    ensures forall i, c :: 0 <= i < numTrain && 0 <= c < numColumns - 1 ==> m.xTrain[i][c] == f(c, features[i][c])
    ensures forall i, c :: 0 <= i < m.numTestRecords && 0 <= c < numColumns - 1 ==>
      m.xTest[i][c] == f(c, features[numTrain + i][c])
  {
    var w := numColumns - 1;
    var trainFeatures := features[..numTrain];
    var testFeatures := features[numTrain..];
    Normalization.NormalizedShape(trainFeatures, w, f);
    Normalization.NormalizedShape(testFeatures, w, f);
    BostonHousingModel(
      |features|, numColumns, numTrain, |features| - numTrain,
      Normalization.NormalizeRows(trainFeatures, w, f), labels[..numTrain],
      Normalization.NormalizeRows(testFeatures, w, f), labels[numTrain..])
  }

  /** `init`, after the file has been read and parsed into `records`. The
      number of columns is taken from the first record; the training
      partition is the first `Features.TrainCount` records in file order;
      the statistics come from the training features only and normalize
      both partitions. */
  function Init(records: seq<seq<real>>, zscore: Normalization.ZScore): (r: Result<BostonHousingModel, InitError>)
    ensures r == Err(NoRecords) <==> records == []
    ensures r == Err(NoColumns) <==> records != [] && |records[0]| == 0
    ensures r == Err(ShortRow) <==>
      records != [] && |records[0]| > 0 && !Features.RowsAtLeast(records, |records[0]| - 1)
    ensures r.Ok? ==> Valid(r.value)
    ensures r.Ok? ==> && r.value.numRecords == |records|
                      && r.value.numColumns == |records[0]|
                      && r.value.numTrainRecords == Features.TrainCount(|records|)
                      && Features.RowsAtLeast(records, |records[0]| - 1)
    ensures r.Ok? ==> forall i :: 0 <= i < r.value.numTrainRecords ==>
      r.value.yTrain[i] == records[i][r.value.numColumns - 1..]
    ensures r.Ok? ==> forall i :: 0 <= i < r.value.numTestRecords ==>
      r.value.yTest[i] == records[r.value.numTrainRecords + i][r.value.numColumns - 1..]
  {
    if records == [] then Err(NoRecords)
    else
      var numColumns := |records[0]|;
      match Features.Separate(records, numColumns)
      case Err(e) => if e == Features.NoColumns then Err(NoColumns) else Err(ShortRow)
      case Ok(separated) =>
        var numTrain := Features.TrainCount(|records|);
        assert separated.features[..numTrain] == TrainFeatures(records, numTrain, numColumns - 1);
        Ok(Partition(numColumns, separated.features, separated.labels, numTrain,
                     zscore(separated.features[..numTrain])))
  }

  /** The features of both partitions are the records' feature cells
      normalized with the transform drawn from the training features only:
      the test rows do not influence their own normalization. */
  lemma InitNormalizes(records: seq<seq<real>>, zscore: Normalization.ZScore)
    requires Init(records, zscore).Ok?
    ensures var m := Init(records, zscore).value;
      var w := m.numColumns - 1;
      var f := zscore(TrainFeatures(records, m.numTrainRecords, w));
      && (forall i, c :: 0 <= i < m.numTrainRecords && 0 <= c < w ==> m.xTrain[i][c] == f(c, records[i][c]))
      && (forall i, c :: 0 <= i < m.numTestRecords && 0 <= c < w ==>
            m.xTest[i][c] == f(c, records[m.numTrainRecords + i][c]))
  {
    var numColumns := |records[0]|;
    var separated := Features.Separate(records, numColumns).value;
    var numTrain := Features.TrainCount(|records|);
    var w := numColumns - 1;
    assert separated.features[..numTrain] == TrainFeatures(records, numTrain, w);
    var m := Partition(numColumns, separated.features, separated.labels, numTrain,
                       zscore(separated.features[..numTrain]));
    assert Init(records, zscore) == Ok(m);
    PartitionCells(records, separated.features, separated.labels, numColumns, numTrain,
                   zscore(separated.features[..numTrain]));
  }

  /** Partitioning feature rows that are prefixes of the records:
      normalized cell `c` of a partition row is cell `c` of the matching
      record through `f`. */
  lemma PartitionCells(records: seq<seq<real>>, features: seq<seq<real>>, labels: seq<seq<real>>,
                       numColumns: nat, numTrain: nat, f: (nat, real) -> real)
    requires numColumns > 0 && |features| == |records| && |labels| == |records| && numTrain <= |records|
    requires forall i :: 0 <= i < |records| ==> numColumns - 1 <= |records[i]| && features[i] == records[i][..numColumns - 1]
    ensures var m := Partition(numColumns, features, labels, numTrain, f);
      && (forall i, c :: 0 <= i < numTrain && 0 <= c < numColumns - 1 ==> m.xTrain[i][c] == f(c, records[i][c]))
      && (forall i, c :: 0 <= i < m.numTestRecords && 0 <= c < numColumns - 1 ==>
            m.xTest[i][c] == f(c, records[numTrain + i][c]))
  {
  }

  /** The statistics step replaced by the identity transform. */
  function KeepValues(rows: seq<seq<real>>): (nat, real) -> real
  {
    (c, x) => x
  }

  /** With the identity in place of the normalization, every record is its
      feature row followed by its label row, training records first: the
      partition loses and reorders nothing. */
  lemma PartitionRebuildsRecords(records: seq<seq<real>>, m: BostonHousingModel)
    requires Init(records, KeepValues) == Ok(m)
    ensures forall i :: 0 <= i < m.numTrainRecords ==> m.xTrain[i] + m.yTrain[i] == records[i]
    ensures forall i :: 0 <= i < m.numTestRecords ==> m.xTest[i] + m.yTest[i] == records[m.numTrainRecords + i]
  {
    var w := m.numColumns - 1;
    InitNormalizes(records, KeepValues);
    forall i | 0 <= i < m.numTrainRecords
      ensures m.xTrain[i] + m.yTrain[i] == records[i]
    {
      RowRebuilt(m.xTrain[i], m.yTrain[i], records[i], w);
    }
    forall i | 0 <= i < m.numTestRecords
      ensures m.xTest[i] + m.yTest[i] == records[m.numTrainRecords + i]
    {
      RowRebuilt(m.xTest[i], m.yTest[i], records[m.numTrainRecords + i], w);
    }
  }

  /** A row that agrees with the first `w` cells of a record, followed by
      the rest of the record, is the record. */
  lemma RowRebuilt(x: seq<real>, y: seq<real>, record: seq<real>, w: nat)
    requires w <= |record| && |x| == w && y == record[w..]
    requires forall c :: 0 <= c < w ==> x[c] == record[c]
    ensures x + y == record
  {
  }

  /** `MLMultiArray(shape: [13], …)`: the size of the input array. */
  const InputSize: nat := 13

  /** One element of the batch: the input array, whose cells past the ones
      the loop writes are never initialised (`None`), and the first label
      cell. */
  datatype TrainingRecord = TrainingRecord(input: seq<Option<real>>, outputTrue: real)

  /** Where `prepareTrainingBatch` traps: writing input cell 13 of a record
      with more than 13 features, or `yTrain[r][0]` on an empty label. */
  datatype BatchError = InputTooWide | EmptyLabel(record: nat)

  /** The input array of one record: its first `width` cells are the
      features, the rest are untouched. */
  function InputCells(row: seq<real>, width: nat): (cells: seq<Option<real>>)
    requires width <= InputSize && width <= |row|
    ensures |cells| == InputSize
    ensures forall c :: 0 <= c < width ==> cells[c] == Some(row[c])
    ensures forall c :: width <= c < InputSize ==> cells[c] == None
  {
    seq(InputSize, c requires 0 <= c < InputSize => if c < width then Some(row[c]) else None)
  }

  /** The first `n` iterations of the loop over `0..<numTrainRecords`. */
  function BatchUpTo(m: BostonHousingModel, n: nat): (b: Result<seq<TrainingRecord>, BatchError>)
    requires Valid(m) && n <= m.numTrainRecords
    ensures b == Err(InputTooWide) <==> n > 0 && m.numColumns - 1 > InputSize
    ensures b.Ok? <==> n == 0 || (m.numColumns - 1 <= InputSize && forall r :: 0 <= r < n ==> m.yTrain[r] != [])
    ensures b.Ok? ==> |b.value| == n
    ensures b.Ok? ==> forall r :: 0 <= r < n ==>
      b.value[r] == TrainingRecord(InputCells(m.xTrain[r], m.numColumns - 1), m.yTrain[r][0])
    ensures b.Err? && b.error.EmptyLabel? ==>
      && m.numColumns - 1 <= InputSize
      && b.error.record < n && m.yTrain[b.error.record] == []
      && forall r :: 0 <= r < b.error.record ==> m.yTrain[r] != []
  {
    if n == 0 then Ok([])
    else
      match BatchUpTo(m, n - 1)
      case Err(e) => Err(e)
      case Ok(front) =>
        if m.numColumns - 1 > InputSize then Err(InputTooWide)
        else if m.yTrain[n - 1] == [] then Err(EmptyLabel(n - 1))
        else Ok(front + [TrainingRecord(InputCells(m.xTrain[n - 1], m.numColumns - 1), m.yTrain[n - 1][0])])
  }

  /** `prepareTrainingBatch`: one record per training row, in row order.
      The first record already traps when the features do not fit the
      13-cell input; otherwise the first training row with an empty label
      does. */
  function TrainingBatch(m: BostonHousingModel): (b: Result<seq<TrainingRecord>, BatchError>)
    requires Valid(m)
    ensures b == Err(InputTooWide) <==> m.numTrainRecords > 0 && m.numColumns - 1 > InputSize
    ensures b.Ok? <==> (m.numTrainRecords == 0
      || (m.numColumns - 1 <= InputSize && forall r :: 0 <= r < m.numTrainRecords ==> m.yTrain[r] != []))
    ensures b.Ok? ==> |b.value| == m.numTrainRecords
    ensures b.Ok? ==> forall r :: 0 <= r < m.numTrainRecords ==>
      && |b.value[r].input| == InputSize
      && (forall c :: 0 <= c < m.numColumns - 1 ==> b.value[r].input[c] == Some(m.xTrain[r][c]))
      && (forall c :: m.numColumns - 1 <= c < InputSize ==> b.value[r].input[c] == None)
      && b.value[r].outputTrue == m.yTrain[r][0]
    ensures b.Err? && b.error.EmptyLabel? ==>
      && b.error.record < m.numTrainRecords && m.yTrain[b.error.record] == []
      && forall r :: 0 <= r < b.error.record ==> m.yTrain[r] != []
  {
    BatchUpTo(m, m.numTrainRecords)
  }

  /** The loop of `prepareTrainingBatch` itself, writing the input array
      cell by cell. */
  method PrepareTrainingBatch(m: BostonHousingModel) returns (b: Result<seq<TrainingRecord>, BatchError>)
    requires Valid(m)
    ensures b == TrainingBatch(m)
  {
    var featureProviders: seq<TrainingRecord> := [];
    var r := 0;
    while r < m.numTrainRecords
      invariant 0 <= r <= m.numTrainRecords
      invariant BatchUpTo(m, r) == Ok(featureProviders)
    {
      var input: seq<Option<real>> := seq(InputSize, k => None);
      var c := 0;
      while c < m.numColumns - 1
        invariant 0 <= c <= m.numColumns - 1 && c <= InputSize
        invariant |input| == InputSize
        invariant forall k :: 0 <= k < c ==> input[k] == Some(m.xTrain[r][k])
        invariant forall k :: c <= k < InputSize ==> input[k] == None
      {
        if c >= InputSize {
          return Err(InputTooWide);
        }
        input := input[c := Some(m.xTrain[r][c])];
        c := c + 1;
      }
      assert input == InputCells(m.xTrain[r], m.numColumns - 1);
      if m.yTrain[r] == [] {
        assert forall k :: 0 <= k < r ==> m.yTrain[k] != [];
        assert TrainingBatch(m).Err? && TrainingBatch(m).error.record == r;
        return Err(EmptyLabel(r));
      }
      featureProviders := featureProviders + [TrainingRecord(input, m.yTrain[r][0])];
      r := r + 1;
    }
    b := Ok(featureProviders);
  }

  /** From the records to the batch: the batch is built exactly when the
      records have at most 14 columns and every training record has a cell
      past its features; record `r` then holds the normalized features of
      record `r` and its first label cell. */
  lemma BatchFromRecords(records: seq<seq<real>>, zscore: Normalization.ZScore)
    requires Init(records, zscore).Ok?
    ensures var m := Init(records, zscore).value;
      var b := TrainingBatch(m);
      var w := |records[0]| - 1;
      var f := zscore(TrainFeatures(records, m.numTrainRecords, w));
      && (b.Ok? <==> w <= InputSize && forall r :: 0 <= r < m.numTrainRecords ==> |records[r]| > w)
      && (b.Ok? ==> forall r, c :: 0 <= r < m.numTrainRecords && 0 <= c < w ==>
            b.value[r].input[c] == Some(f(c, records[r][c])))
      && (b.Ok? ==> forall r :: 0 <= r < m.numTrainRecords ==> b.value[r].outputTrue == records[r][w])
  {
    var m := Init(records, zscore).value;
    var w := |records[0]| - 1;
    InitNormalizes(records, zscore);
    forall r | 0 <= r < m.numTrainRecords
      ensures m.yTrain[r] != [] <==> |records[r]| > w
      ensures m.yTrain[r] != [] ==> m.yTrain[r][0] == records[r][w]
    {
      assert m.yTrain[r] == records[r][w..];
    }
  }

  /** When every record has as many cells as the first, each label row is
      the one-cell list of its record's last value, and the batch is built
      exactly when there are at most 13 features. */
  lemma UniformRecords(records: seq<seq<real>>, zscore: Normalization.ZScore)
    requires Init(records, zscore).Ok?
    requires forall i :: 0 <= i < |records| ==> |records[i]| == |records[0]|
    ensures var m := Init(records, zscore).value;
      && (forall i :: 0 <= i < m.numTrainRecords ==> m.yTrain[i] == [records[i][|records[i]| - 1]])
      && (forall i :: 0 <= i < m.numTestRecords ==>
            m.yTest[i] == [records[m.numTrainRecords + i][|records[m.numTrainRecords + i]| - 1]])
      && (TrainingBatch(m).Ok? <==> |records[0]| - 1 <= InputSize)
  {
  }

}
