# Boston Housing data preparation, modelled in Dafny

This project models the data-preparation core of the CoreML transfer-learning
demo. That core turns the parsed Boston Housing table into training and test
partitions for an updatable CoreML model. It has two pipelines:

- `HousingData` (`HousingData.swift`):
  - shuffles the records by drawing random row indices into a set;
  - separates each record into 13 features and a label;
  - splits the features into two categorical columns (CHAS and RAD, read
    as `Int32`) and eleven numerical ones;
  - builds a sorted vocabulary for each categorical column and replaces
    each value by its position in it (ordinal encoding);
  - cuts the records at `ceil(0.8 * numRecords)`;
  - z-score normalizes the numerical features with statistics from the
    training rows;
  - transposes the categorical matrices to one row per column;
  - `prepareTrainingBatch` pairs everything back into one record per
    training row.
- `BostonHousingModel` (`BostonHousingModel.swift`):
  - separates features and label without shuffling;
  - cuts at the same count;
  - normalizes;
  - `prepareTrainingBatch` copies each training row into a fixed 13-cell
    input array.

Modules, one per file:

| module | file | what it holds |
|---|---|---|
| `Results` | `results.dfy` | `Option` and `Result` |
| `Collections` | `collections.dfy` | the values of a sequence, and picking from a non-empty set |
| `Transpose` | `transpose.dfy` | `matrixTranspose` |
| `Shuffle` | `shuffle.dfy` | the index-set shuffle and the permutation it yields |
| `Columns` | `columns.dfy` | the fixed column layout; `Int32(x)` on a Float cell |
| `Features` | `features.dfy` | feature/label separation and the training count, shared by both pipelines |
| `Vocabulary` | `vocabulary.dfy` | vocabularies and ordinal encoding |
| `Normalization` | `normalize.dfy` | the shape of the in-place normalization |
| `HousingData` | `housing_data.dfy` | `HousingData.init` and `prepareTrainingBatch` |
| `BostonHousingModel` | `boston_housing_model.dfy` | `BostonHousingModel.init` and `prepareTrainingBatch` |

How the source is represented:

- Table cells are `real`. Values are only moved and compared.
- The statistics step is an abstract `Normalization.ZScore`: a function from
  the training feature rows to a per-column transform `f(c, x)`. The model
  passes it only the training rows. So the test partition is normalized with
  training statistics by construction.
- Every Swift trap that a table of finite values can reach becomes an `Err`:
  - an empty table;
  - a zero column count;
  - a short record;
  - the `assert` on the column count, modelled as in a debug build;
  - a categorical cell outside `Int32`;
  - an empty label row;
  - a too-wide input array.
- Subscripts and force-unwraps that the code itself keeps in range are
  preconditions, and the callers discharge them. This covers
  `firstIndex(of:)!`, the transpose's `$0[index]` and the partition slices.

The `Int.random` calls are an input sequence `draws`. The traversal order of
the Swift `Set` is an arbitrary choice made by `Shuffle.EnumerateSet`.

## Model

| member | source | states |
|---|---|---|
| Transpose.Column | CoreML_Training/CoreML_Training/HousingData.swift:39 | `matrix.map{$0[index]}` has one entry per row, entry `i` being cell `index` of row `i` |
| Transpose.AppendColumns | CoreML_Training/CoreML_Training/HousingData.swift:37-41 | after `k` iterations the result has `k` rows, each as long as the matrix, with `r[j][i] == m[i][j]` |
| Transpose.MatrixTranspose | CoreML_Training/CoreML_Training/HousingData.swift:35-42 | the empty matrix comes back empty; otherwise the result has one row per cell of the first row, each as long as the row count, with `r[j][i] == m[i][j]`; it is defined whenever every row is at least as long as the first |
| Transpose.TransposeTwice | CoreML_Training/CoreML_Training/HousingData.swift:35-42 | transposing a non-empty rectangular matrix with non-empty rows twice gives back the matrix |
| Transpose.TransposeLosesEmptyRows | CoreML_Training/CoreML_Training/HousingData.swift:38 | when the first row is empty the transpose is empty, so the round trip loses the rows |
| Shuffle.RangeSize | CoreML_Training/CoreML_Training/HousingData.swift:58 | the indices `0..<n` are `n` values |
| Shuffle.SubsetOfRange | CoreML_Training/CoreML_Training/HousingData.swift:58 | a set of indices below `n` holds at most `n` of them, and exactly `n` only when it holds all of them, which is why `index.count < numRecords` is the right exit test |
| Shuffle.CollectIndices | CoreML_Training/CoreML_Training/HousingData.swift:57-60 | the set is the first `used` draws; every earlier prefix was short of `n`, so the loop stops at the first full set; it stops short only when the draws run out; a full set is exactly `0..<n` |
| Shuffle.EnumerateSet | CoreML_Training/CoreML_Training/HousingData.swift:61 | iterating a set lists each member exactly once and nothing else |
| Shuffle.Permute | CoreML_Training/CoreML_Training/HousingData.swift:61 | `index.map{ dataRecords[$0] }` has one row per index, row `k` being record `p[k]` |
| Shuffle.PermutePreservesMultiset | CoreML_Training/CoreML_Training/HousingData.swift:61 | reordering by a permutation keeps every record with its multiplicity |
| Shuffle.ShuffleOrder | CoreML_Training/CoreML_Training/HousingData.swift:57-61 | the shuffle completes exactly when the draws cover every row index, and then yields a permutation of `0..<numRecords` |
| Columns.ColumnPartition | CoreML_Training/CoreML_Training/HousingData.swift:66-71 | the categorical columns [3, 8] and the eleven numerical columns are disjoint and, with the label column 13, cover exactly columns 0..13, so the expected count is 14 |
| Columns.Select | CoreML_Training/CoreML_Training/HousingData.swift:82 | `columns.map{ row[$0] }` has one cell per listed column, cell `k` being `row[cols[k]]` |
| Columns.Truncate | CoreML_Training/CoreML_Training/HousingData.swift:74 | the Float-to-integer conversion rounds toward zero: within 1 below a non-negative value and within 1 above a negative one |
| Columns.ToInt32 | CoreML_Training/CoreML_Training/HousingData.swift:74 | `Int32(x)` succeeds exactly when `Int32.min - 1 < x < Int32.max + 1`, and then yields a 32-bit value that is `x` rounded toward zero |
| Features.Separate | CoreML_Training/CoreML_Training/HousingData.swift:62-63 | it fails exactly on a non-empty table with zero columns (`NoColumns`) or with a row shorter than `numColumns - 1` (`ShortRow`); otherwise feature row `i` is the first `numColumns - 1` cells of record `i`, label row `i` is the rest, together they are the record, and a record of exactly `numColumns` cells has the one-cell label of its last value |
| Features.TrainCount | CoreML_Training/CoreML_Training/HousingData.swift:98 | the training count is the least `t` with `5t >= 4n`, that is `ceil(0.8 * n)`; it never exceeds `n`, so both slices are valid, and it is positive when `n` is |
| Vocabulary.AscendingPositions | CoreML_Training/CoreML_Training/HousingData.swift:78 | on a sorted set, comparing entries is comparing positions |
| Vocabulary.Minimum | CoreML_Training/CoreML_Training/HousingData.swift:78 | a non-empty finite set of values has a least one |
| Vocabulary.VocabularyUnique | CoreML_Training/CoreML_Training/HousingData.swift:78 | two strictly ascending sequences with the same values are equal, so `Set(xs).sorted()` is determined by the values alone |
| Vocabulary.AppendLeast | CoreML_Training/CoreML_Training/HousingData.swift:78 | appending the least remaining value keeps the sorted prefix below everything still to place |
| Vocabulary.SortedSet | CoreML_Training/CoreML_Training/HousingData.swift:78 | `Set(xs).sorted()` is strictly ascending, holds exactly the values of the set and has one entry per value |
| Vocabulary.Gather | CoreML_Training/CoreML_Training/HousingData.swift:75-77 | the `reduce(into:)` over the rows yields two lists, list `k` being column `k` of the categorical rows in row order |
| Vocabulary.AllCategoriesValues | CoreML_Training/CoreML_Training/HousingData.swift:74-78 | `allCategoriesValues[k]` is strictly ascending and holds exactly the values categorical column `k` takes over all records |
| Vocabulary.CollectValues | CoreML_Training/CoreML_Training/HousingData.swift:85-90 | after the loop `categoricalValues[k]` is exactly the set of values of column `k` |
| Vocabulary.SortedCategoricalValues | CoreML_Training/CoreML_Training/HousingData.swift:85-92 | `sortedCategoricalValues[k]` is strictly ascending and holds exactly the values of column `k` |
| Vocabulary.VocabulariesAgree | CoreML_Training/CoreML_Training/HousingData.swift:74-92 | `allCategoriesValues` and `sortedCategoricalValues` are equal, so the stored vocabulary is the one the encoding used |
| Vocabulary.FirstIndexOf | CoreML_Training/CoreML_Training/HousingData.swift:94-95 | `firstIndex(of:)` finds nothing exactly when the value is absent; otherwise it yields the first position holding the value |
| Vocabulary.Ordinal | CoreML_Training/CoreML_Training/HousingData.swift:94-95 | for a value in the vocabulary the force-unwrap succeeds and yields a position in range that holds the value |
| Vocabulary.OrdinalOrderPreserving | CoreML_Training/CoreML_Training/HousingData.swift:94-95 | on a vocabulary the encoding is strictly order-preserving and one-to-one |
| Vocabulary.RowsInVocabulary | CoreML_Training/CoreML_Training/HousingData.swift:94-95 | every categorical value of every row is in its column's vocabulary, so no `firstIndex(of:)!` fails |
| Vocabulary.OrdinalEncode | CoreML_Training/CoreML_Training/HousingData.swift:94-95 | the encoded rows have the shape of the categorical rows; each code is in `[0, |vocab[k]|)`, and the vocabulary holds the original value at that code |
| Vocabulary.OrdinalsDense | CoreML_Training/CoreML_Training/HousingData.swift:94-95 | every code from 0 to the vocabulary size minus one is used by some row |
| Vocabulary.VocabularyNoLongerThanColumn | CoreML_Training/CoreML_Training/HousingData.swift:94-95 | a vocabulary is no longer than its column, so every code is below the record count |
| Vocabulary.AscendingSize | CoreML_Training/CoreML_Training/HousingData.swift:78 | a strictly ascending sequence has as many entries as distinct values |
| Vocabulary.ElementsSize | CoreML_Training/CoreML_Training/HousingData.swift:78 | a sequence has at least as many entries as distinct values |
| Normalization.NormalizedShape | CoreML_Training/CoreML_Training/BostonHousingModel.swift:67-77 | normalizing keeps the row count and each row's length, transforms exactly the first `width` cells of a row and leaves the others |
| Normalization.NormalizeInPlace | CoreML_Training/CoreML_Training/HousingData.swift:131-141 | the nested in-place loops keep the shape, write each of the first `width` cells once with `f(c, x)`, and leave the other cells |
| HousingData.CategoricalCells | CoreML_Training/CoreML_Training/HousingData.swift:79 | `categoricalColumns.map{ Int32(row[$0]) }` is the two truncated categorical cells, which are what `Int32` yields on them when it does not trap |
| HousingData.Categorize | CoreML_Training/CoreML_Training/HousingData.swift:79 | the categorical features exist exactly when every categorical cell fits `Int32`, and then hold the two truncated cells of every row |
| HousingData.NumericalFeatures | CoreML_Training/CoreML_Training/HousingData.swift:82 | every numerical row has eleven cells, cell `c` being numerical column `c` of the record |
| HousingData.FeatureRows | CoreML_Training/CoreML_Training/HousingData.swift:62 | each feature row is the first 13 cells of its record |
| HousingData.LabelRows | CoreML_Training/CoreML_Training/HousingData.swift:63 | each label row is the cells of its record from column 13 on |
| HousingData.CategoricalRows | CoreML_Training/CoreML_Training/HousingData.swift:79 | each row holds two cells, cell `k` being the truncated categorical cell `k` of the record |
| HousingData.FeatureRowsAgree | CoreML_Training/CoreML_Training/HousingData.swift:62-82 | reading the categorical and numerical columns from the feature rows or from the whole records gives the same values |
| HousingData.SeparatedRows | CoreML_Training/CoreML_Training/HousingData.swift:62-63 | with 14 columns the separation yields exactly the feature rows and label rows |
| HousingData.CheckRecords | CoreML_Training/CoreML_Training/HousingData.swift:62-79 | the traps after shuffling are passed exactly when the records are admissible, and on success the categorical features are returned; each error occurs exactly when its fault is present and no earlier trap fired: `NoColumns` (:62) on a non-empty table with zero columns, `ShortRow` (:62) on a short row, `ColumnCountMismatch` (:71) when the slices succeed but the count is not 14, `CategoryNotInt32` (:74, :79) when everything before succeeded and a categorical cell does not fit |
| HousingData.PartitionShapeOf | CoreML_Training/CoreML_Training/HousingData.swift:100-103 | normalizing a partition's numerical rows and transposing its ordinal rows gives eleven-cell rows and two code rows of the partition's length, with every code in range |
| HousingData.Split | CoreML_Training/CoreML_Training/HousingData.swift:98-105 | the cut at `numTrain` gives a valid value whose train and test counts add up to the records |
| HousingData.SplitContents | CoreML_Training/CoreML_Training/HousingData.swift:98-105 | the train labels are the prefix and the test labels the suffix, which concatenate to all labels; numerical cells of both partitions pass through `f` |
| HousingData.SplitCodes | CoreML_Training/CoreML_Training/HousingData.swift:99-101 | the given vocabularies are stored; `xCategoricalTrain[k][i]` is code `k` of row `i`, and `xCategoricalTest[k][i]` code `k` of row `numTrain + i` |
| HousingData.Assemble | CoreML_Training/CoreML_Training/HousingData.swift:62-161 | the data built from admissible shuffled records is valid, with the record count and the requested training count |
| HousingData.AssembleLabels | CoreML_Training/CoreML_Training/HousingData.swift:104-105 | `yTrain ++ yTest` is the label rows; `yTrain[i]` is the label of shuffled record `i`, and `yTest[i]` that of record `numTrain + i` |
| HousingData.AssembleNumerical | CoreML_Training/CoreML_Training/HousingData.swift:102-141 | training and test numerical cell `c` of a row is numerical column `c` of the matching shuffled record, normalized with the transform drawn from the training rows alone |
| HousingData.AssembleCategorical | CoreML_Training/CoreML_Training/HousingData.swift:94-101 | the stored vocabularies are `allCategoriesValues`; every categorical value is in them; entry `i` of categorical row `k` of either partition is the position of the matching record's value in vocabulary `k`, so train and test share one mapping |
| HousingData.StoredVocabulary | CoreML_Training/CoreML_Training/HousingData.swift:74-78 | a stored vocabulary is strictly ascending and holds a value exactly when some record has it in that categorical column |
| HousingData.PermutedRowFacts | CoreML_Training/CoreML_Training/HousingData.swift:61-79 | for a permutation of the records, "every record is wide enough" and "every categorical cell fits `Int32`" hold of the shuffled records exactly when they hold of the records |
| HousingData.CheckRecordsPermuted | CoreML_Training/CoreML_Training/HousingData.swift:61-79 | whatever order the shuffle picks, the shuffled records are admissible exactly when the records are, and a failing check reports the same error as on the records in file order |
| HousingData.Init | CoreML_Training/CoreML_Training/HousingData.swift:44-161 | an empty table fails with `NoRecords`; the shuffle fails exactly when the draws miss an index; once the draws cover every index, `shuffled` is the records reordered by a permutation with the same multiset, init succeeds exactly when the records themselves are admissible, and a failure reports the error `CheckRecords` gives on the records; on success the value is the assembled data at `TrainCount(numRecords)` |
| HousingData.BatchUpTo | CoreML_Training/CoreML_Training/HousingData.swift:166-193 | after `n` iterations the batch holds one record per row so far, or names the first row whose label is empty |
| HousingData.TrainingBatch | CoreML_Training/CoreML_Training/HousingData.swift:164-197 | the batch is built exactly when every training label is non-empty; record `r` pairs `xNumericalTrain[r]` (eleven cells), `xCategoricalTrain[0][r]`, `xCategoricalTrain[1][r]` and `yTrain[r][0]`; otherwise the error names the first empty label |
| HousingData.PrepareTrainingBatch | CoreML_Training/CoreML_Training/HousingData.swift:164-197 | the loop, with its cell-by-cell copy of the numerical input, yields exactly that batch |
| HousingData.BatchAlignment | CoreML_Training/CoreML_Training/HousingData.swift:164-197 | from the records: the batch exists exactly when every training record has a label cell; record `r` carries the normalized numerical cells, the two ordinals and the label cell of shuffled record `r` |
| BostonHousingModel.TrainFeatures | CoreML_Training/CoreML_Training/BostonHousingModel.swift:42 | the rows the statistics come from are the first `numColumns - 1` cells of the first `numTrainRecords` records |
| BostonHousingModel.Partition | CoreML_Training/CoreML_Training/BostonHousingModel.swift:37-43 | the first `numTrain` rows form the training partition and the rest the test partition; labels are copied and features go through `f` |
| BostonHousingModel.Init | CoreML_Training/CoreML_Training/BostonHousingModel.swift:29-84 | fails exactly on an empty table, a zero-width first record or a short record; otherwise the counts add up, the partition rows have `numColumns - 1` features, training is the first `TrainCount` records in file order, and every label row is its record's cells past the features |
| BostonHousingModel.PartitionCells | CoreML_Training/CoreML_Training/BostonHousingModel.swift:40-77 | when the feature rows are prefixes of the records, normalized cell `c` of training row `i` is `f` of cell `c` of record `i`, and of test row `i` is `f` of cell `c` of record `numTrain + i` |
| BostonHousingModel.InitNormalizes | CoreML_Training/CoreML_Training/BostonHousingModel.swift:42-77 | every feature cell of both partitions is the record's cell normalized with the transform drawn from the training features only, so test rows do not influence their own normalization |
| BostonHousingModel.RowRebuilt | CoreML_Training/CoreML_Training/BostonHousingModel.swift:32-33 | a feature row followed by its label slice is the record |
| BostonHousingModel.PartitionRebuildsRecords | CoreML_Training/CoreML_Training/BostonHousingModel.swift:32-43 | with the identity for the normalization, `xTrain[i] ++ yTrain[i]` is record `i` and `xTest[i] ++ yTest[i]` is record `numTrain + i`: nothing is lost or reordered |
| BostonHousingModel.UniformRecords | CoreML_Training/CoreML_Training/BostonHousingModel.swift:32-33 | when all records have the first record's width, every label row is the one-cell list of its record's last value, and the batch is built exactly when there are at most 13 features |
| BostonHousingModel.InputCells | CoreML_Training/CoreML_Training/BostonHousingModel.swift:101-106 | the input array has 13 cells; the first `numColumns - 1` hold the features and the rest are never written |
| BostonHousingModel.BatchUpTo | CoreML_Training/CoreML_Training/BostonHousingModel.swift:100-119 | after `n` iterations the batch holds one record per row, or fails at the first record when the features exceed 13 cells, or names the first empty label |
| BostonHousingModel.TrainingBatch | CoreML_Training/CoreML_Training/BostonHousingModel.swift:94-122 | the batch is built exactly when there are no training rows, or the features fit 13 cells and every training label is non-empty; record `r` carries `xTrain[r]` in its first cells and `yTrain[r][0]` |
| BostonHousingModel.PrepareTrainingBatch | CoreML_Training/CoreML_Training/BostonHousingModel.swift:94-122 | the loop, writing the input array cell by cell, yields exactly that batch |
| BostonHousingModel.BatchFromRecords | CoreML_Training/CoreML_Training/BostonHousingModel.swift:100-118 | from the records: the batch exists exactly when there are at most 13 features and every training record has a cell past them; record `r` holds the normalized features of record `r` and that cell |

## Left out

- File loading and parsing (`Bundle.main.url`, `String(contentsOf:)`, the split on newlines and spaces, `compactMap{ Float(...) }`) are I/O and a foreign parser. The model starts from the parsed table.
- The numerical values of `mean` and `std` and the `(x - mean) / std` arithmetic are Float computations. They are abstracted as `Normalization.ZScore`, so nothing is said about the values. The source also divides by the sample variance rather than by its square root, and by `numTrainRecords - 1`, which is zero with one training row. Both are value questions and outside this model.
- NaN and infinity are not modelled, because cells are exact reals. This covers the results of Float division, and also cells that `Float(String($0))` parses from text such as `nan` or `inf`. `Int32(x)` traps on such a categorical cell, and no `Err` of the model stands for that trap.
- `Int.random` is an input sequence of draws. A finite sequence can run out before every index is drawn, which the Swift loop never does. `ShuffleIncomplete` is that model-only outcome.
- The order in which a Swift `Set` is traversed is left open as an arbitrary choice. No distribution over permutations is modelled.
- Features.TrainCount: computed exactly as `ceil(4n/5)`. The source rounds the Float product `Float(n) * 0.8` before taking `ceil`. That agrees with `ceil(4n/5)` for every table below 10,485,760 (5·2^21) records, where the product stays below 2^23 and its rounding error cannot cross an integer. From 2^23 on, Float rounds the product to a whole number, and the first disagreement is n = 10,485,764: the source gives 8,388,611 and `TrainCount` gives 8,388,612. Larger tables are not modelled.
- The `assert(numColumns == ...)` in `HousingData.init` only fires in debug builds. The model follows a debug build and reports `ColumnCountMismatch`.
- Vocabulary.OrdinalEncode: codes are unbounded integers. The source casts them to `Int32`. `Vocabulary.VocabularyNoLongerThanColumn` bounds each code by the record count, so the cast only matters for tables of more than 2^31 records, which are not modelled.
- BostonHousingModel.InputCells: cells the loop never writes are `None`. `MLMultiArray` leaves that memory uninitialised, and the model says nothing about its contents.
- BostonHousingModel.BatchUpTo: writing cell 13 or beyond of the 13-cell input is modelled as a trap, `InputTooWide`. The model does not distinguish the kinds of failure `MLMultiArray` may raise.
- `try? MLDictionaryFeatureProvider(...)` can only fail inside CoreML. The model assumes it succeeds, so a record is never skipped.
- The CoreML calls (`MLMultiArray`, `MLFeatureValue`, `MLArrayBatchProvider`, compilation, training, inference) are foreign framework glue. The batch is a plain sequence of records.
- `HousingModel.swift` is not part of this model. Its `prepareTrainingBatch` (:66-99) repeats the batch assembly `HousingData.TrainingBatch` models. For each training row it pairs `xNumericalTrain[r]`, `xCategoricalTrain[0][r]`, `xCategoricalTrain[1][r]` and `yTrain[r][0]`, but it stores the categorical codes in `.float32` arrays rather than `.int32` ones. Its `inference(testSample:)` returns -1 for a test index outside `0..<numTestRecords` (:28) and otherwise reads the same partition fields. It is CoreML glue around a `HousingData` value. Its `randomizeData` (:23-25) calls a `HousingData(trainPercentage:)` initializer that `HousingData.swift` does not define.
- `ContentView.swift` and the inferencing playground are SwiftUI and CoreML wrappers with no data-preparation logic. They are not part of this model.
