# alaskaDIVA samples and distance core, in Dafny

This project models two classes of the alaskaDIVA Python package and proves properties of
them:

- `Samples` (modules/samples.py): an ordered list of sample records. Each record is a
  dict from column name to value. The class keeps the records, the column names, the
  record count `nsamp` and the index `0 .. nsamp-1`. It builds new instances by
  selection, train/validation partition, random subsampling and k-fold splitting.
  It changes an instance in place by merging, deleting a column and adding a column.
- `Distance` / `Euclidean` (modules/distance.py): a set of records projected onto named
  coordinate columns, together with:
  - the column-wise centroid (median, mean or a percentile);
  - the pairwise Euclidean distance matrix;
  - `proximity_filter`, which thins the records by that matrix.

Modules, one per file:

| file | module | what it holds |
|---|---|---|
| outcomes.dfy | `Outcomes` | `Option`, `Result` and the Python exception kinds the core raises |
| text.dfy | `Text` | the string operations used: `in`, `split(sep)[1]`, `replace(pat, '')`, `int(s)`, `str(i)` |
| records.dfy | `Records` | a record as an insertion-ordered dict; `d[k] = v`, `d.pop(k)`, `dict(zip(header, row))` |
| draws.dfy | `Draws` | `range`, `np.random.choice(..., replace=False)` driven by a supplied permutation, and `a[~np.in1d(a, b)]` |
| column_names.dfy | `ColumnNames` | how `add_column` picks `added_column_<n>` |
| samples.dfy | `SampleStore` | the `Samples` class, plus the operations that return new instances |
| vectors.dfy | `Vectors` | vectors, matrices, the squared Euclidean distance and the distance matrix |
| reducers.dfy | `Reducers` | numpy's median, mean and linear-interpolation percentile, and `centroid` |
| proximity.dfy | `Proximity` | the `np.where` / `np.unique` / claims steps of `proximity_filter` on a boolean mask |
| distance.dfy | `DistanceEngine` | the `Euclidean` class: projection, `calc_dist_matrix`, `proximity_filter` |
| as_written.dfy | `AsWritten` | the statements that cannot do what their surroundings intend, modelled as they stand |

How the model represents the source:

- Python exceptions are values: every operation returns a `Result`, and `Err` names
  the exception kind.
- The random draws take a permutation as a parameter. numpy's legacy
  `choice(a, size, replace=False)` takes the first `size` entries of a permutation of
  `a`.
- Distances are kept squared. Dafny has no square root. `Vectors.Exceeds` compares a
  squared distance with `thresh` exactly as `sqrt(d2) > thresh` would, and
  `Vectors.ExceedsIsRootAbove` proves it.
- How `proximity_filter` thins the records:
  - It flags pairs whose distance is GREATER than `thresh` (distance.py:124).
  - It drops the samples counted more than twice, and thins the samples counted
    exactly twice by the claims loop.
  - On two tight pairs far apart it removes every point
    (`DistanceEngine.TwoClustersFilteredOut`).
  - After the filter, `nsamp`, `index`, `matrix` and the distance matrix are left as
    they were, as in the code.

## Model

| member | source | states |
|---|---|---|
| Text.SplitSecond | modules/samples.py:129 | `s.split(sep)[1]` exists exactly when `sep` occurs in `s` |
| Text.ParseIntToString | modules/samples.py:132 | `int(str(i)) == i` for every integer |
| Text.RemoveAllAbsent | modules/distance.py:48 | `replace('percentile', '')` leaves a string untouched when it holds no `p` |
| Records.Put | modules/samples.py:141 | `d[k] = v`: `k` maps to `v`, other keys keep their values, a new key goes last, and the dict stays well formed |
| Records.Pop | modules/samples.py:94 | `d.pop(k)` leaves every other key with its value, drops `k`, and shrinks the dict by one |
| Records.ZipKeys | modules/samples.py:291 | with distinct header names, `dict(zip(header, row))` lists the paired names in header order |
| Records.ZipValues | modules/samples.py:291 | a header name not repeated later maps to the row value at its position |
| Records.ZipWellFormed | modules/samples.py:291 | zipping builds a dict with each key once |
| Draws.Choice | modules/samples.py:171-173 | ValueError unless `0 <= size <= len(pool)`; otherwise `size` distinct entries of the pool |
| Draws.Without | modules/samples.py:174-175 | `a[~np.in1d(a, b)]` keeps exactly the entries of `a` not in `b`, in order |
| Draws.WithoutCount | modules/samples.py:174-175 | removing a duplicate-free subset from a duplicate-free pool leaves exactly `len(pool) - len(subset)` entries |
| ColumnNames.AddedNumbers | modules/samples.py:126-129 | only IndexError or ValueError can come from collecting the numbers of earlier added columns |
| ColumnNames.Max | modules/samples.py:130-132 | the first entry of the reverse-sorted list is a member and bounds every number |
| ColumnNames.NewColumnName | modules/samples.py:123-134 | a supplied name is used as given; otherwise the name is generated exactly when the numbers of the earlier added columns can be collected (their error otherwise), and it is `added_column_<v>` with `v` one more than the largest number in use, or 1 when there is none |
| ColumnNames.NumberedNameParses | modules/samples.py:128-129 | `added_column_<v>` contains the marker and splits and parses back to `v` |
| ColumnNames.AutoNameIsFresh | modules/samples.py:123-132 | the generated name is never a column of the first record |
| SampleStore.Construct | modules/samples.py:16-54 | IndexError exactly for an empty list without names; otherwise the count and index match the list, and the names are the given ones, the first record's keys, or none |
| SampleStore.Samples.constructor | modules/samples.py:16-54 | the new object holds the fields `Construct` computes |
| SampleStore.Pick | modules/samples.py:239 | `[samples[i] for i in items]`: on a present list, IndexError exactly when some index is out of range; TypeError for an absent list; Python negative indices count from the end |
| SampleStore.Derived | modules/samples.py:239-243 | IndexError exactly for an empty pick (the constructor reads `samples[0]`); otherwise a consistent instance under the parent's names |
| SampleStore.Selection | modules/samples.py:226-245 | ValueError for an unsupported index container; on present records, succeeds iff the list is non-empty and every index is in range, and raises IndexError otherwise; record `k` is the parent's record at index `k` |
| SampleStore.SelectionOfOwnIndex | modules/samples.py:226-245 | selecting by the instance's own index reproduces its records, count, index and names |
| SampleStore.TrainingSizeIsFloor | modules/samples.py:168 | for a non-negative percentage the training size is `floor(percentage * nsamp / 100)` |
| SampleStore.PartitionSites | modules/samples.py:168-175 | the draw succeeds iff the truncated training size lies within `0 .. nsamp` |
| SampleStore.PartitionSplitsIndex | modules/samples.py:168-175 | the training and validation sites are disjoint, together cover the index, and their sizes add to `nsamp`; the validation sites keep index order |
| SampleStore.SamplePartition | modules/samples.py:158-191 | the two instances are the selections of the training and the validation sites |
| SampleStore.SamplePartitionOutcome | modules/samples.py:158-191 | for a consistent instance: ValueError iff the truncated training size is outside `0 .. nsamp`; IndexError when it is 0 or `nsamp`; with a record list, success exactly when it lies strictly between |
| SampleStore.RandomSelection | modules/samples.py:193-224 | the result keeps the parent's names |
| SampleStore.RandomSelectionOfAll | modules/samples.py:202-205 | asking for at least `nsamp` records returns all of them in order |
| SampleStore.RandomSelectionDistinct | modules/samples.py:206-216 | asking for fewer returns that many records, from distinct positions |
| SampleStore.RandomSelectionCopy | modules/samples.py:217-222 | without a count the copy has the same records, count, index and names |
| SampleStore.FoldSizesSum | modules/samples.py:256-258 | the fold sizes (`nsamp // k` each, the remainder added to the last) add up to `nsamp` |
| SampleStore.FiveRecordsTwoFolds | modules/samples.py:256-258 | five records in two folds give sizes two and three |
| SampleStore.ValidationFolds | modules/samples.py:263-270 | one validation fold per size, each drawn from what the earlier folds left |
| SampleStore.FoldsPartitionPool | modules/samples.py:263-270 | each fold has its size and no repeats; folds share no index; when the sizes add to the pool size every index is in some fold |
| SampleStore.FitsWhenSized | modules/samples.py:263-267 | the draws can all be made when each permutation ranges over what is left of the pool |
| SampleStore.MakeFoldsPartition | modules/samples.py:247-274 | `k` folds sized as FoldSizes that split the whole index |
| SampleStore.FoldPairsOk | modules/samples.py:269-272 | the pairs of instances are built iff every fold's pair succeeds, and then list the pair of every fold in fold order |
| SampleStore.FoldPairsFirstErr | modules/samples.py:263-273 | a failing run reports the error of the first failing fold, every earlier fold having succeeded |
| SampleStore.DrawFolds | modules/samples.py:263-273 | the loop returns the pairs of instances of the validation folds (or the first failure) |
| Outcomes.CollectOk | modules/samples.py:263-273 | a loop of steps that may raise returns normally iff every step does, and then returns every step's value in order |
| Outcomes.CollectFirstErr | modules/samples.py:263-273 | a loop that raises raises the error of its first failing step, every earlier step having returned normally |
| Outcomes.CollectErrPrefix | modules/samples.py:263-273 | once the first steps raise, the later steps do not change the outcome |
| SampleStore.MakeFolds | modules/samples.py:247-274 | ZeroDivisionError for `k == 0`; no folds for `k < 0`; otherwise the pairs of the folds of FoldSizes |
| SampleStore.FoldSizesProper | modules/samples.py:256-258 | every fold size is positive and below `nsamp` exactly when `2 <= k <= nsamp` |
| SampleStore.SelectionOfIndex | modules/samples.py:238-243 | a selection of indices of the index succeeds exactly when there is at least one, holds one record per index, and otherwise raises IndexError |
| SampleStore.FoldPairOutcome | modules/samples.py:267-272 | one fold's pair is built exactly when the fold and the rest of the index are both non-empty, and then validates on as many records as the fold has indices and trains on the rest; IndexError otherwise |
| SampleStore.FoldPairsSized | modules/samples.py:263-273 | the pairs of sized folds are all built exactly when every size is strictly between 0 and `nsamp`, with those record counts; IndexError otherwise |
| SampleStore.MakeFoldsOutcome | modules/samples.py:247-274 | on records and for `k > 0`, make_folds succeeds exactly when `2 <= k <= nsamp`, raising IndexError otherwise; pair `f` then validates on `FoldSizes(nsamp, k)[f]` records and trains on the rest |
| SampleStore.ExtractColumn | modules/samples.py:96-107 | AttributeError without a name; KeyError iff some record lacks the column; otherwise each record's value, in order |
| SampleStore.ColumnToAdd | modules/samples.py:123-134 | the supplied name; otherwise TypeError for an absent list, IndexError for an empty one, and else the name NewColumnName generates from the first record's keys, which is never one of them |
| SampleStore.GetDictList | modules/samples.py:276-293 | one zipped record per row (IndexError for no rows); with distinct headers no shorter than the rows, the names are the header and each field holds its row value |
| SampleStore.ZipRowsByHeader | modules/samples.py:290-291 | every zipped row lists the header in order and maps each name to the value at its position |
| SampleStore.PopEach | modules/samples.py:94 | every record loses the key, or KeyError at the first record without it, the earlier ones having lost it already |
| SampleStore.Samples.MergeData | modules/samples.py:72-81 | the other list is appended, the counts added and the index renumbered; TypeError and no change when either list is absent |
| SampleStore.Samples.DeleteColumn | modules/samples.py:83-94 | each record loses the column; AttributeError without a name; KeyError part-way; count, index and names unchanged |
| SampleStore.Samples.AddColumn | modules/samples.py:109-144 | RuntimeError without data; the error of ColumnToAdd (the missing or empty list, a failing name) otherwise; TypeError when a name is given for an absent list; IndexError and no change when there are fewer values than records; succeeds exactly when none of these applies, and then every record gains the column with the value at its position |
| Vectors.SqDistSymmetric | modules/distance.py:79-87 | the distance does not depend on argument order |
| Vectors.SqDistSelf | modules/distance.py:79-87 | a vector is at distance zero from itself |
| Vectors.ExceedsIsRootAbove | modules/distance.py:124 | comparing the squared distance with the threshold agrees with comparing the distance |
| Vectors.DistMatrix | modules/distance.py:89-111 | the distance matrix is square, with one row per sample |
| Vectors.DistMatrixShape | modules/distance.py:89-111 | the distance matrix is symmetric, non-negative and zero on the diagonal |
| Reducers.Sort | modules/distance.py:44 | ascending, and a permutation of the column |
| Reducers.Median | modules/distance.py:44 | the median lies between the column's minimum and maximum |
| Reducers.Percentile | modules/distance.py:49 | the interpolated percentile lies between the column's minimum and maximum |
| Reducers.MedianIsPercentile50 | modules/distance.py:44-49 | the median equals the 50th percentile |
| Reducers.ParseReducer | modules/distance.py:43-51 | `median` and `mean` select their reducers; any other string without `percentile` is a ValueError |
| Reducers.PercentileNameParses | modules/distance.py:47-49 | `percentile_<q>` selects the q-th percentile |
| Reducers.Centroid | modules/distance.py:35-53 | ValueError for a missing matrix or unknown method; otherwise one value per column, that column reduced by the selected median, mean or percentile, and within the column's range |
| Reducers.Reduce | modules/distance.py:43-48 | the selected reduction of a non-empty column lies between its smallest and largest value |
| Reducers.SortBounds | modules/distance.py:44 | every value lies between the first and last entry of the sorted column |
| Reducers.SumBounds | modules/distance.py:46 | `n` values between `lo` and `hi` add up to between `n * lo` and `n * hi` |
| Reducers.MeanWithin | modules/distance.py:46 | `np.mean` of values between `lo` and `hi` is between `lo` and `hi` |
| Reducers.MeanBounds | modules/distance.py:46 | `np.mean` of a column lies within the column's range |
| Reducers.SingleRowCentroid | modules/distance.py:35-53 | on one row every reducer returns that row |
| Proximity.Where | modules/distance.py:124 | `np.where(mask)` lists only true cells of the mask |
| Proximity.CrowdedUpTo | modules/distance.py:130 | `uniq[count > 2]`: exactly the values occurring more than twice |
| Proximity.PairedUpTo | modules/distance.py:132 | `uniq[count == 2]`: exactly the values occurring twice, ascending |
| Proximity.FirstIndex | modules/distance.py:126-128 | `return_index`: the position of the first occurrence |
| Proximity.PairTuples | modules/distance.py:132-134 | IndexError iff a twice-counted value first occurs in the column half; otherwise the cell at each first occurrence |
| Proximity.Claims | modules/distance.py:136-141 | every claimed sample is the second of some tuple |
| Proximity.CollectClaims | modules/distance.py:136-141 | the loop builds exactly the claims list |
| Proximity.Survivors | modules/distance.py:145-147 | ascending, no longer than the sample count, holding exactly the sample numbers not removed |
| Proximity.OccurrencesTwiceDegree | modules/distance.py:124-128 | on a symmetric mask a sample occurs twice per flagged partner in `np.concatenate(bad_loc)` |
| Proximity.SymmetricNoError | modules/distance.py:132-134 | on a symmetric mask the filter never raises |
| Proximity.IsolatedSurvives | modules/distance.py:124-149 | a sample flagged against no other survives |
| Proximity.CrowdedRemoved | modules/distance.py:130 | a sample flagged against two or more others is removed |
| Proximity.AllCrowdedRemoved | modules/distance.py:130-147 | when every sample is flagged against two or more others, none survives |
| Proximity.MutualPairKeepsLower | modules/distance.py:132-141 | of two samples flagged only against each other, the lower-numbered survives and the other is removed |
| Proximity.TwoClustersAllRemoved | modules/distance.py:124-147 | two pairs each flagged against the other pair only: no sample survives |
| DistanceEngine.Project | modules/distance.py:28-30 | KeyError iff a record lacks a named column; otherwise a rectangular matrix whose cell `[i][j]` is record `i`'s value for name `j` |
| DistanceEngine.Setup | modules/distance.py:22-30 | TypeError for an absent list, otherwise the projection |
| DistanceEngine.Euclidean.constructor | modules/distance.py:60-73 | records, names, counts, index and matrix set; no distance matrix yet |
| DistanceEngine.PairwiseDistances | modules/distance.py:94-111 | the coordinate-by-coordinate loop yields the distance matrix |
| DistanceEngine.Euclidean.CalcDistMatrix | modules/distance.py:89-111 | the distance matrix is set to that of the sample matrix; nothing else changes |
| DistanceEngine.ThresholdMask | modules/distance.py:124 | cell `[r][c]` is true iff the distance exceeds `thresh` |
| DistanceEngine.DistanceMaskShape | modules/distance.py:124 | the mask of a distance matrix is symmetric, and irreflexive for a non-negative threshold |
| DistanceEngine.PickAt | modules/distance.py:149 | IndexError iff a surviving number is out of range; otherwise the records at those numbers |
| DistanceEngine.Filtered | modules/distance.py:145-149 | the surviving records, in their original order |
| DistanceEngine.FilterShrinks | modules/distance.py:113-149 | filtering by a distance matrix never raises and never lengthens the list |
| DistanceEngine.TwoClustersFilteredOut | modules/distance.py:113-149 | points (0,0), (0.1,0.1), (10,10), (10.1,10.1) at threshold 1.0: all four are removed |
| DistanceEngine.Euclidean.ProximityFilter | modules/distance.py:113-149 | TypeError before a distance matrix exists; otherwise `samples` becomes the filtered records and nothing else changes |
| AsWritten.DeleteAsWritten | modules/samples.py:94 | as written, the records are replaced by the popped values |
| AsWritten.DeleteLeavesPoppedValues | modules/samples.py:94 | deleting `x` from `{x:1,y:2},{x:3,y:4}` leaves `1, 3` instead of `{y:2},{y:4}` |
| AsWritten.NameAsWritten | modules/samples.py:123-134 | as written, a supplied name becomes `added_column_1` |
| AsWritten.NameAsWrittenDiffers | modules/samples.py:123-134 | for a record with key `x`: a supplied `z` is replaced, and a generated name raises IndexError |
| AsWritten.AddColumnAsWritten | modules/samples.py:121-144 | as written, only an empty list gets through, unchanged |
| AsWritten.AddColumnAsWrittenFails | modules/samples.py:121-144 | missing data is not reported, and a two-key record raises AttributeError |
| AsWritten.MakeFoldsAsWritten | modules/samples.py:256-272 | as written, every positive fold count raises TypeError |
| AsWritten.FoldsAsWrittenNeverBuilt | modules/samples.py:269-270 | no positive fold count builds folds as written, while on the same instance the intended code draws one validation fold per requested fold |
| AsWritten.SetupAsWritten | modules/distance.py:22-25 | as written, the constructor always raises |
| AsWritten.SetupAsWrittenRaises | modules/distance.py:22-25 | one record with one coordinate: the intended constructor gives `[[1.0]]`, the written one AttributeError |
| AsWritten.StackShapeAsWritten | modules/distance.py:94-107 | as written, the stacking succeeds iff there is exactly one sample and at least one coordinate |

## Left out

- The csv branch of `Samples.__init__` (samples.py:34-36) and `save_to_file` read and write files. `Handler` is not part of this model.
- `__repr__`, the `Timer` decorator, `warnings.warn` and the `print` in `random_selection` only produce output.
- Randomness: each `np.random.choice` draw is a permutation the caller supplies.
- Floating point: values and distances are exact reals. Rounding, NaN and infinities are not modelled.
- `np.linalg.norm` takes a square root. The model keeps distances squared, and `Vectors.Exceeds` compares them with `thresh` as the root would be compared.
- DistanceEngine.Euclidean.ProximityFilter: `thresh` is required. The default `centroid('percentile_90')` is a vector, not a scalar, and would be broadcast against the matrix; that path is not modelled.
- DistanceEngine.Project: a text value where a number is needed is reported as TypeError at projection. numpy would instead build a string matrix and fail later.
- `np.matrix` is a list of rows here. The `(1, 0)` shape numpy gives an empty projection is not modelled.
- DistanceEngine.Euclidean.ProximityFilter: the index array given to `np.delete` is treated as integers. When no sample is counted exactly twice, `np.array(bad_pts2)` (distance.py:143) is an empty float array, and `np.concatenate` (distance.py:145) then makes the whole `bad_pts` float, even when `bad_pts1` is not empty. Older numpy casts such an array to integers with a DeprecationWarning; current numpy raises IndexError for any non-integer index array. The model follows the older cast. With no sample counted exactly twice, these members therefore hold only under that cast: DistanceEngine.FilterShrinks (its no-raise part), DistanceEngine.TwoClustersFilteredOut, Proximity.SymmetricNoError, Proximity.CrowdedRemoved, Proximity.AllCrowdedRemoved, Proximity.TwoClustersAllRemoved and Proximity.IsolatedSurvives.
- Records are values. In Python, instances built by selection share the same dict objects with their parent, so a later `pop` changes both. That aliasing is not modelled.
- `Distance` and `Euclidean` are one class, `DistanceEngine.Euclidean`.
- AsWritten.StackShapeAsWritten: models `calc_dist_matrix`'s stacking on the shapes of ordinary 3-D arrays. It leaves out how `np.matrix` handles `np.newaxis`.
- Text.ParseInt: accepts an optional sign and decimal digits only. Python's `int` also accepts surrounding whitespace and `_` separators.
- Vectors.DistMatrixShape: states that the diagonal is zero, not the converse (a zero distance only between equal vectors).
- SampleStore.Samples.constructor and DistanceEngine.Euclidean.constructor require construction to succeed. Their error paths are stated on `SampleStore.Construct` and `DistanceEngine.Setup`.
- SampleStore.RandomSelection: its own contract states only the names. The record contents are stated by RandomSelectionOfAll, RandomSelectionDistinct and RandomSelectionCopy.
- `Opt.__copy__` (samples.py:260) lives in `common`, which is not part of this model. It is taken to be a copy of the list.

## Findings

| source | as written | input that shows it | evidently intended | confidence | as-written member | corrected member |
|---|---|---|---|---|---|---|
| modules/distance.py:24 | `len(self.names)` is read before `self.names` is assigned, so every construction with records raises AttributeError | `Euclidean([{x: 1.0}], ['x'])` | assign `names` first, then take its length | high, not executed | AsWritten.SetupAsWritten | DistanceEngine.Setup |
| modules/distance.py:97-107 | tiles of shape `(1, n, n)` are stacked with their transposes `(n, n, 1)`; `vstack` needs `n == 1` | two samples, one coordinate | the pairwise distance matrix | high, not executed | AsWritten.StackShapeAsWritten | DistanceEngine.PairwiseDistances |
| modules/samples.py:94 | the record list is rebound to the popped values | delete `x` from `{x:1,y:2},{x:3,y:4}` | each record loses the column | high, not executed | AsWritten.DeleteAsWritten | SampleStore.Samples.DeleteColumn |
| modules/samples.py:122 | the RuntimeError is built but never raised | `add_column('z', None)` on an empty list | raise RuntimeError | high, not executed | AsWritten.AddColumnAsWritten | SampleStore.Samples.AddColumn |
| modules/samples.py:137 | `for i, samp in self.samples` unpacks each dict's keys, so it raises ValueError or AttributeError | `add_column('z', [5.0])` on `[{x:1,y:2}]` | enumerate the records | high, not executed | AsWritten.AddColumnAsWritten | SampleStore.Samples.AddColumn |
| modules/samples.py:133-134 | the `else` belongs to `if column_name is None`: a supplied name becomes `added_column_1`, and with no numbered column `added_num_list[0]` raises | `add_column('z', ...)` and `add_column(None, ...)` on `[{x:1}]` | keep the supplied name; start at `added_column_1` | high, not executed | AsWritten.NameAsWritten | SampleStore.ColumnToAdd |
| modules/samples.py:269-270 | a Python list is indexed by a numpy boolean mask, a TypeError | `make_folds(2)` on five records | keep the indices not in the fold | high, not executed | AsWritten.MakeFoldsAsWritten | SampleStore.MakeFolds |
