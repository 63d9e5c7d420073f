/**
 * The Samples store of modules/samples.py: an ordered list of records, the field names,
 * the record count `nsamp` and the index `0 .. nsamp-1`.
 *
 * The operations that change an instance in place (construction, merge_data,
 * delete_column, add_column) are methods of the class `Samples`. The operations that
 * return a NEW instance (selection, sample_partition, random_selection, make_folds,
 * get_dict_list) are functions and methods over `Collection`, the value of an
 * instance's fields; `Samples.View()` gives that value for an object.
 */
module SampleStore {
  import opened Outcomes
  import opened Records
  import opened Draws
  import ColumnNames

  /** The fields of a Samples instance. */
  datatype Collection = Collection(
    samples: Option<seq<Record>>,
    nsamp: nat,
    index: seq<nat>,
    names: seq<string>,
    nvar: nat,
    nfeat: Option<nat>)
  {
    /** `nsamp` counts the records and `index` numbers them. */
    predicate Valid() {
      nsamp == Count(samples) && index == Range(nsamp)
    }
  }

  /** The number of records; an absent list holds none. */
  function Count(samples: Option<seq<Record>>): nat {
    if samples.Some? then |samples.value| else 0
  }

  /** `Samples(samples=..., names=...)` without a csv file: the record list (or none) is
      kept, the names default to the keys of the first record, and a record list that is
      empty while no names are given raises IndexError (`self.samples[0]`). */
  function Construct(samples: Option<seq<Record>>, names: Option<seq<string>>): (r: Result<Collection>)
    ensures r.Err? <==> samples == Some([]) && names.None?
    ensures r.Err? ==> r.error == IndexError
    ensures r.Ok? ==> r.value.Valid() && r.value.samples == samples && r.value.nfeat.None?
    ensures r.Ok? ==> r.value.nvar == |r.value.names|
    ensures r.Ok? && names.Some? ==> r.value.names == names.value
    ensures r.Ok? && names.None? && samples.Some? ==> r.value.names == samples.value[0].keys
    ensures r.Ok? && names.None? && samples.None? ==> r.value.names == [] && r.value.nsamp == 0
  {
    var nsamp := Count(samples);
    var index := if nsamp > 0 then Range(nsamp) else [];
    if names.Some? then
      Ok(Collection(samples, nsamp, index, names.value, |names.value|, None))
    else if samples.Some? then
      if samples.value == [] then Err(IndexError)
      else Ok(Collection(samples, nsamp, index, samples.value[0].keys, |samples.value[0].keys|, None))
    else
      Ok(Collection(samples, nsamp, index, [], 0, None))
  }

  /** Python's `a[i]` on a list of length `n`: a negative index counts from the end. */
  function Wrap(i: int, n: nat): int {
    if i < 0 then i + n else i
  }

  predicate InBounds(i: int, n: nat) {
    -(n as int) <= i < n
  }

  /** `list(samples[i] for i in items)`: TypeError on an absent list, IndexError on an
      index out of range. */
  function Pick(samples: Option<seq<Record>>, items: seq<int>): (r: Result<seq<Record>>)
    ensures items == [] ==> r == Ok([])
    ensures items != [] && samples.None? ==> r == Err(TypeError)
    ensures samples.Some? ==>
      (r.Ok? <==> forall k :: 0 <= k < |items| ==> InBounds(items[k], |samples.value|))
    ensures samples.Some? && r.Err? ==> r.error == IndexError
    ensures r.Ok? ==> |r.value| == |items|
    ensures r.Ok? ==> forall k :: 0 <= k < |items| ==>
      0 <= Wrap(items[k], Count(samples)) < Count(samples) && r.value[k] == samples.value[Wrap(items[k], Count(samples))]
  {
    if items == [] then Ok([])
    else if samples.None? then Err(TypeError)
    else
      var n := |samples.value|;
      if forall k :: 0 <= k < |items| ==> InBounds(items[k], n) then
        Ok(seq(|items|, k requires 0 <= k < |items| => samples.value[Wrap(items[k], n)]))
      else Err(IndexError)
  }

  /** The instance built by selection and its relatives: `Samples(samples=picked)`, then
      the parent's names, a fresh count and index, and `nfeat = len(samples[0])`. */
  function Derived(picked: seq<Record>, names: seq<string>): (r: Result<Collection>)
    ensures r.Err? <==> picked == []
    ensures r.Err? ==> r.error == IndexError
    ensures r.Ok? ==> r.value.Valid() && r.value.samples == Some(picked) && r.value.names == names
  {
    match Construct(Some(picked), None)
    case Err(e) => Err(e)
    case Ok(c) => Ok(c.(names := names, nsamp := |picked|, index := Range(|picked|), nfeat := Some(picked[0].Size())))
  }

  /** The container an index list arrives in; only the first three are accepted. */
  datatype IndexList = PyList(items: seq<int>) | PyTuple(items: seq<int>) | NdArray(items: seq<int>) | Unsupported

  /** `selection(index_list)` (samples.py:226-245): the records at the given indices, in
      the given order, under the parent's names. */
  function Selection(c: Collection, indexList: IndexList): (r: Result<Collection>)
    ensures indexList.Unsupported? ==> r == Err(ValueError)
    ensures !indexList.Unsupported? && c.samples.Some? ==>
      (r.Ok? <==> indexList.items != [] && forall k :: 0 <= k < |indexList.items| ==> InBounds(indexList.items[k], |c.samples.value|))
    ensures !indexList.Unsupported? && c.samples.Some? && r.Err? ==> r.error == IndexError
    ensures r.Ok? ==> r.value.Valid() && r.value.names == c.names && c.samples.Some? && r.value.samples.Some?
    ensures r.Ok? ==> |r.value.samples.value| == |indexList.items|
    ensures r.Ok? ==> forall k :: 0 <= k < |indexList.items| ==>
      && 0 <= Wrap(indexList.items[k], Count(c.samples)) < Count(c.samples)
      && r.value.samples.value[k] == c.samples.value[Wrap(indexList.items[k], Count(c.samples))]
  {
    if indexList.Unsupported? then Err(ValueError)
    else
      match Pick(c.samples, indexList.items)
      case Err(e) => Err(e)
      case Ok(picked) => Derived(picked, c.names)
  }

  /** Selecting by the collection's own index reproduces every record, in order, with the
      same names, count and index. */
  lemma SelectionOfOwnIndex(c: Collection)
    requires c.Valid() && c.samples.Some? && c.samples.value != []
    ensures Selection(c, PyList(c.index)).Ok?
    ensures var s := Selection(c, PyList(c.index)).value;
      s.samples == c.samples && s.nsamp == c.nsamp && s.index == c.index && s.names == c.names
  {
    var s := Selection(c, PyList(c.index)).value;
    assert s.samples.value == c.samples.value;
  }

  /** Python's `int(x)` on a float: truncation toward zero. */
  function Trunc(x: real): (r: int)
    ensures x >= 0.0 ==> r as real <= x < r as real + 1.0
    ensures x < 0.0 ==> r as real - 1.0 < x <= r as real
  {
    if x >= 0.0 then x.Floor else -((-x).Floor)
  }

  /** `int((percentage * nsamp) / 100.0)`. */
  function TrainingSize(percentage: real, nsamp: nat): int {
    Trunc(percentage * nsamp as real / 100.0)
  }

  /** The training and validation sites of sample_partition (samples.py:168-175): the
      training sites are drawn without replacement, the validation sites are the rest of
      the index in index order. */
  function PartitionSites(c: Collection, percentage: real, perm: seq<nat>): (r: Result<(seq<nat>, seq<nat>)>)
    requires IsPermutation(perm, |c.index|)
    ensures c.Valid() ==> (r.Ok? <==> 0 <= TrainingSize(percentage, c.nsamp) <= c.nsamp)
    ensures r.Err? ==> r.error == ValueError
  {
    match Choice(c.index, TrainingSize(percentage, c.nsamp), perm)
    case Err(e) => Err(e)
    case Ok(trn) => Ok((trn, Without(c.index, trn)))
  }

  /** The two sites lists split the index: the training list has the truncated percentage
      of the records, no index is in both lists, every index is in one of them, and the
      validation list keeps index order. */
  lemma PartitionSplitsIndex(c: Collection, percentage: real, perm: seq<nat>)
    requires c.Valid() && IsPermutation(perm, |c.index|)
    requires PartitionSites(c, percentage, perm).Ok?
    ensures var (trn, val) := PartitionSites(c, percentage, perm).value;
      && |trn| == TrainingSize(percentage, c.nsamp)
      && |trn| + |val| == c.nsamp
      && (forall x :: x in trn ==> x !in val)
      && (forall x :: x in c.index <==> x in trn || x in val)
      && Distinct(trn) && Increasing(val)
  {
    var (trn, val) := PartitionSites(c, percentage, perm).value;
    assert Distinct(c.index);
    assert Increasing(c.index);
    WithoutCount(c.index, trn);
  }

  /** For a non-negative percentage, the training size is `floor(percentage * nsamp / 100)`. */
  lemma TrainingSizeIsFloor(percentage: real, nsamp: nat)
    requires percentage >= 0.0
    ensures TrainingSize(percentage, nsamp) == (percentage * nsamp as real / 100.0).Floor
  {
    assert percentage * nsamp as real >= 0.0;
  }

  /** `sample_partition(percentage)` (samples.py:158-191): the training and validation
      instances built from the two sites lists. */
  function SamplePartition(c: Collection, percentage: real, perm: seq<nat>): (r: Result<(Collection, Collection)>)
    requires IsPermutation(perm, |c.index|)
    ensures r.Ok? ==> PartitionSites(c, percentage, perm).Ok?
    ensures r.Ok? ==> var (trn, val) := PartitionSites(c, percentage, perm).value;
      && Selection(c, PyList(trn)) == Ok(r.value.0)
      && Selection(c, PyList(val)) == Ok(r.value.1)
  {
    match PartitionSites(c, percentage, perm)
    case Err(e) => Err(e)
    case Ok((trn, val)) =>
      match Selection(c, PyList(trn))
      case Err(e) => Err(e)
      case Ok(t) =>
        match Selection(c, PyList(val))
        case Err(e) => Err(e)
        case Ok(v) => Ok((t, v))
  }

  /** Both sites lists hold only positions of existing records. */
  lemma PartitionSitesInRange(c: Collection, percentage: real, perm: seq<nat>)
    requires c.Valid() && IsPermutation(perm, |c.index|)
    requires PartitionSites(c, percentage, perm).Ok?
    ensures forall x :: x in PartitionSites(c, percentage, perm).value.0 ==> x < c.nsamp
    ensures forall x :: x in PartitionSites(c, percentage, perm).value.1 ==> x < c.nsamp
  {
    forall x | x in c.index ensures x < c.nsamp {
      var i :| 0 <= i < |c.index| && c.index[i] == x;
    }
  }

  /** When sample_partition returns: for a consistent instance, ValueError when the
      truncated training size is outside `0 .. nsamp` (the draw), IndexError when it is 0 or
      `nsamp` (one of the two instances would be built from no records), and the two
      instances otherwise. */
  lemma SamplePartitionOutcome(c: Collection, percentage: real, perm: seq<nat>)
    requires c.Valid() && IsPermutation(perm, |c.index|)
    ensures var t := TrainingSize(percentage, c.nsamp);
      !(0 <= t <= c.nsamp) ==> SamplePartition(c, percentage, perm) == Err(ValueError)
    ensures var t := TrainingSize(percentage, c.nsamp);
      (t == 0 || t == c.nsamp) ==> SamplePartition(c, percentage, perm) == Err(IndexError)
    ensures var t := TrainingSize(percentage, c.nsamp);
      c.samples.Some? ==> (SamplePartition(c, percentage, perm).Ok? <==> 0 < t < c.nsamp)
  {
    var t := TrainingSize(percentage, c.nsamp);
    if 0 <= t <= c.nsamp {
      PartitionSplitsIndex(c, percentage, perm);
      PartitionSitesInRange(c, percentage, perm);
      var (trn, val) := PartitionSites(c, percentage, perm).value;
      if t == 0 {
        assert trn == [];
        assert Pick(c.samples, trn) == Ok([]);
      } else if t == c.nsamp {
        assert val == [];
        if c.samples.Some? {
          assert forall k :: 0 <= k < |trn| ==> trn[k] in trn;
          assert Selection(c, PyList(trn)).Ok?;
        }
        assert Pick(c.samples, val) == Ok([]);
      } else if c.samples.Some? {
        assert forall k :: 0 <= k < |trn| ==> trn[k] in trn;
        assert forall k :: 0 <= k < |val| ==> val[k] in val;
        assert Selection(c, PyList(trn)).Ok?;
        assert Selection(c, PyList(val)).Ok?;
      }
    }
  }

  /** `random_selection(num)` (samples.py:193-224). */
  function RandomSelection(c: Collection, num: Option<int>, perm: seq<nat>): (r: Result<Collection>)
    requires IsPermutation(perm, |c.index|)
    ensures r.Ok? ==> r.value.names == c.names && r.value.samples.Some? == c.samples.Some?
  {
    match num
    case None =>
      (match Construct(c.samples, None)
       case Err(e) => Err(e)
       case Ok(s) => Ok(s.(names := c.names, nsamp := c.nsamp, index := c.index, nfeat := c.nfeat)))
    case Some(n) =>
      var drawn := if n >= c.nsamp then Ok(c.index) else Choice(c.index, n, perm);
      match drawn
      case Err(e) => Err(e)
      case Ok(sites) =>
        match Pick(c.samples, sites)
        case Err(e) => Err(e)
        case Ok(picked) => Derived(picked, c.names)
  }

  /** Asking for at least as many records as there are returns all of them, in order. */
  lemma RandomSelectionOfAll(c: Collection, n: int, perm: seq<nat>)
    requires c.Valid() && IsPermutation(perm, |c.index|)
    requires c.samples.Some? && c.samples.value != [] && n >= c.nsamp
    ensures RandomSelection(c, Some(n), perm).Ok?
    ensures RandomSelection(c, Some(n), perm).value.samples == c.samples
  {
    var picked := Pick(c.samples, c.index).value;
    assert picked == c.samples.value;
  }

  /** Asking for fewer records returns that many records, taken from distinct positions. */
  lemma RandomSelectionDistinct(c: Collection, n: int, perm: seq<nat>) returns (sites: seq<nat>)
    requires c.Valid() && IsPermutation(perm, |c.index|)
    requires c.samples.Some? && 0 < n < c.nsamp
    ensures RandomSelection(c, Some(n), perm).Ok?
    ensures |sites| == n && Distinct(sites) && forall k :: 0 <= k < n ==> sites[k] < c.nsamp
    ensures RandomSelection(c, Some(n), perm).value.samples == Some(seq(n, k requires 0 <= k < n => c.samples.value[sites[k]]))
  {
    assert Distinct(c.index);
    sites := Choice(c.index, n, perm).value;
    forall k | 0 <= k < n ensures sites[k] < c.nsamp {
      assert sites[k] in c.index;
    }
    var picked := Pick(c.samples, sites).value;
    assert picked == seq(n, k requires 0 <= k < n => c.samples.value[sites[k]]);
  }

  /** Without a count, the copy has the same records, count and index. */
  lemma RandomSelectionCopy(c: Collection, perm: seq<nat>)
    requires IsPermutation(perm, |c.index|) && c.samples != Some([])
    ensures RandomSelection(c, None, perm).Ok?
    ensures var s := RandomSelection(c, None, perm).value;
      s.samples == c.samples && s.nsamp == c.nsamp && s.index == c.index && s.names == c.names
  {
  }

  /** `self.nsamp // n_folds` for every fold, with `self.nsamp % n_folds` added to the
      last one (samples.py:256-258). */
  function FoldSizes(n: nat, k: nat): (sizes: seq<nat>)
    requires k > 0
    ensures |sizes| == k
  {
    seq(k, f requires 0 <= f < k => if f == k - 1 then n / k + n % k else n / k)
  }

  function Sum(s: seq<nat>): nat {
    if s == [] then 0 else s[0] + Sum(s[1..])
  }

  /** A list of equal entries `q` followed by `last` adds up to `(len - 1) * q + last`. */
  lemma {:induction false} SumEqualThenLast(s: seq<nat>, q: nat, last: nat)
    requires |s| > 0 && s[|s| - 1] == last
    requires forall i :: 0 <= i < |s| - 1 ==> s[i] == q
    ensures Sum(s) == (|s| - 1) * q + last
  {
    if |s| > 1 {
      SumEqualThenLast(s[1..], q, last);
      assert (|s| - 1) * q == (|s| - 2) * q + q;
    }
  }

  /** The fold sizes add up to the number of records. */
  lemma FoldSizesSum(n: nat, k: nat)
    requires k > 0
    ensures Sum(FoldSizes(n, k)) == n
  {
    var q := n / k;
    SumEqualThenLast(FoldSizes(n, k), q, q + n % k);
    assert (k - 1) * q + q == k * q;
  }

  /** The draws of make_folds can all be made: each permutation ranges over the pool
      left at its turn, and each fold fits in that pool. */
  ghost predicate Fits(pool: seq<nat>, sizes: seq<nat>, perms: seq<seq<nat>>)
    decreases |sizes|
  {
    && |perms| == |sizes|
    && (sizes != [] ==>
          && IsPermutation(perms[0], |pool|)
          && sizes[0] <= |pool|
          && Fits(Without(pool, Take(pool, sizes[0], perms[0])), sizes[1..], perms[1..]))
  }

  /** The validation folds of make_folds: each drawn without replacement from the pool
      that the earlier folds left (samples.py:263-270). */
  function ValidationFolds(pool: seq<nat>, sizes: seq<nat>, perms: seq<seq<nat>>): (r: seq<seq<nat>>)
    requires Fits(pool, sizes, perms)
    ensures |r| == |sizes|
    decreases |sizes|
  {
    if sizes == [] then []
    else
      var v := Take(pool, sizes[0], perms[0]);
      [v] + ValidationFolds(Without(pool, v), sizes[1..], perms[1..])
  }

  /** The folds drawn from a duplicate-free pool have the requested sizes, come from the
      pool, repeat nothing and share no index; when the sizes add up to the pool's size
      they cover all of it. */
  lemma {:induction false} FoldsPartitionPool(pool: seq<nat>, sizes: seq<nat>, perms: seq<seq<nat>>)
    requires Fits(pool, sizes, perms) && Distinct(pool)
    ensures var folds := ValidationFolds(pool, sizes, perms);
      && (forall f :: 0 <= f < |folds| ==> |folds[f]| == sizes[f] && Distinct(folds[f]))
      && (forall f, x :: 0 <= f < |folds| && x in folds[f] ==> x in pool)
      && (forall f, g, x :: 0 <= f < g < |folds| && x in folds[f] ==> x !in folds[g])
      && (Sum(sizes) == |pool| ==> forall x :: x in pool ==> exists f :: 0 <= f < |folds| && x in folds[f])
    decreases |sizes|
  {
    if sizes != [] {
      var v := Take(pool, sizes[0], perms[0]);
      var rest := Without(pool, v);
      FoldsPartitionPool(rest, sizes[1..], perms[1..]);
      var tail := ValidationFolds(rest, sizes[1..], perms[1..]);
      var folds := ValidationFolds(pool, sizes, perms);
      assert folds == [v] + tail;
      assert forall f :: 1 <= f < |folds| ==> folds[f] == tail[f - 1];
      WithoutCount(pool, v);
      if Sum(sizes) == |pool| {
        assert Sum(sizes[1..]) == |rest|;
        forall x | x in pool ensures exists f :: 0 <= f < |folds| && x in folds[f] {
          if x !in v {
            assert x in rest;
            var g :| 0 <= g < |tail| && x in tail[g];
            assert x in folds[g + 1];
          } else {
            assert x in folds[0];
          }
        }
      }
    }
  }

  lemma SumSnoc(s: seq<nat>, f: nat)
    requires 0 < f <= |s|
    ensures Sum(s[..f]) == s[0] + Sum(s[1..][..f - 1])
  {
    assert s[..f][1..] == s[1..][..f - 1];
  }

  /** The draws can all be made when the sizes fit in the pool and each permutation ranges
      over exactly the part of the pool the earlier folds leave. */
  lemma {:induction false} FitsWhenSized(pool: seq<nat>, sizes: seq<nat>, perms: seq<seq<nat>>)
    requires Distinct(pool) && |perms| == |sizes| && Sum(sizes) <= |pool|
    requires forall f :: 0 <= f < |sizes| ==> Sum(sizes[..f]) <= |pool| && IsPermutation(perms[f], |pool| - Sum(sizes[..f]))
    ensures Fits(pool, sizes, perms)
    decreases |sizes|
  {
    if sizes != [] {
      assert sizes[..0] == [];
      var v := Take(pool, sizes[0], perms[0]);
      var rest := Without(pool, v);
      WithoutCount(pool, v);
      forall f | 0 <= f < |sizes[1..]|
        ensures Sum(sizes[1..][..f]) <= |rest| && IsPermutation(perms[1..][f], |rest| - Sum(sizes[1..][..f]))
      {
        SumSnoc(sizes, f + 1);
      }
      FitsWhenSized(rest, sizes[1..], perms[1..]);
    }
  }

  /** make_folds draws folds that split the whole index: fold `f` has the size FoldSizes
      gives it, no index is in two folds and every index is in one. */
  lemma MakeFoldsPartition(c: Collection, k: int, perms: seq<seq<nat>>)
    requires c.Valid() && k > 0 && Fits(c.index, FoldSizes(c.nsamp, k), perms)
    ensures var folds := ValidationFolds(c.index, FoldSizes(c.nsamp, k), perms);
      && |folds| == k
      && (forall f :: 0 <= f < k ==> |folds[f]| == FoldSizes(c.nsamp, k)[f])
      && (forall f, g, x :: 0 <= f < g < k && x in folds[f] ==> x !in folds[g])
      && (forall x :: x in c.index ==> exists f :: 0 <= f < k && x in folds[f])
  {
    FoldSizesSum(c.nsamp, k);
    FoldsPartitionPool(c.index, FoldSizes(c.nsamp, k), perms);
  }

  /** The two instances of one fold: training on the index outside the fold, validating
      on the fold (samples.py:269-272). */
  function FoldPair(c: Collection, fold: seq<nat>): Result<(Collection, Collection)> {
    match Selection(c, PyList(Without(c.index, fold)))
    case Err(e) => Err(e)
    case Ok(trn) =>
      match Selection(c, NdArray(fold))
      case Err(e) => Err(e)
      case Ok(val) => Ok((trn, val))
  }

  /** One draw of make_folds: the next fold is the one Choice takes from what is left,
      and the remaining folds are drawn from the pool without it. */
  lemma ValidationFoldsStep(pool: seq<nat>, todo: seq<nat>, perms: seq<seq<nat>>, drawn: seq<seq<nat>>, all: seq<seq<nat>>)
    requires todo != [] && Fits(pool, todo, perms)
    requires all == drawn + ValidationFolds(pool, todo, perms)
    ensures Choice(pool, todo[0], perms[0]).Ok?
    ensures var val := Choice(pool, todo[0], perms[0]).value;
      && Fits(Without(pool, val), todo[1..], perms[1..])
      && all == (drawn + [val]) + ValidationFolds(Without(pool, val), todo[1..], perms[1..])
      && all[|drawn|] == val
  {
    var val := Take(pool, todo[0], perms[0]);
    assert Choice(pool, todo[0], perms[0]) == Ok(val);
  }

  /** `make_folds(n_folds)` (samples.py:247-274), with the membership masks of lines
      269-270 read as the list filters they are meant to be. */
  method MakeFolds(c: Collection, k: int, perms: seq<seq<nat>>) returns (r: Result<seq<(Collection, Collection)>>)
    requires c.Valid()
    requires k > 0 ==> Fits(c.index, FoldSizes(c.nsamp, k), perms)
    ensures k == 0 ==> r == Err(ZeroDivisionError)
    ensures k < 0 ==> r == Ok([])
    ensures k > 0 ==> r == FoldPairs(c, ValidationFolds(c.index, FoldSizes(c.nsamp, k), perms))
  {
    if k == 0 {
      return Err(ZeroDivisionError);
    }
    if k < 0 {
      return Ok([]);
    }
    r := DrawFolds(c, c.index, FoldSizes(c.nsamp, k), perms);
  }

  /** The outcome of building the pair of instances of each fold, in fold order. */
  function FoldResults(c: Collection, folds: seq<seq<nat>>): (rs: seq<Result<(Collection, Collection)>>)
    ensures |rs| == |folds|
    decreases |folds|
  {
    if folds == [] then []
    else FoldResults(c, folds[..|folds| - 1]) + [FoldPair(c, folds[|folds| - 1])]
  }

  /** Entry f of FoldResults is the pair built from fold f. */
  lemma {:induction false} FoldResultsAt(c: Collection, folds: seq<seq<nat>>, f: nat)
    requires f < |folds|
    ensures FoldResults(c, folds)[f] == FoldPair(c, folds[f])
    decreases |folds|
  {
    var init := folds[..|folds| - 1];
    var rs := FoldResults(c, init);
    assert FoldResults(c, folds) == rs + [FoldPair(c, folds[|folds| - 1])];
    if f < |init| {
      FoldResultsAt(c, init, f);
      assert init[f] == folds[f];
      assert (rs + [FoldPair(c, folds[|folds| - 1])])[f] == rs[f];
    }
  }

  /** The outcomes for the first n folds are the first n outcomes. */
  lemma {:induction false} FoldResultsPrefix(c: Collection, folds: seq<seq<nat>>, n: nat)
    requires n <= |folds|
    ensures FoldResults(c, folds[..n]) == FoldResults(c, folds)[..n]
    decreases |folds|
  {
    if n < |folds| {
      var init := folds[..|folds| - 1];
      FoldResultsPrefix(c, init, n);
      assert init[..n] == folds[..n];
    } else {
      assert folds[..n] == folds;
    }
  }

  /** The pairs of instances of the folds in turn; the first fold whose selection fails
      ends the run with its error. */
  function FoldPairs(c: Collection, folds: seq<seq<nat>>): Result<seq<(Collection, Collection)>> {
    Collect(FoldResults(c, folds))
  }

  /** FoldPairs succeeds exactly when every fold's pair does, and then lists them in fold order. */
  lemma FoldPairsOk(c: Collection, folds: seq<seq<nat>>)
    ensures FoldPairs(c, folds).Ok? <==> forall f :: 0 <= f < |folds| ==> FoldPair(c, folds[f]).Ok?
    ensures FoldPairs(c, folds).Ok? ==>
      (|FoldPairs(c, folds).value| == |folds| &&
       forall f :: 0 <= f < |folds| ==> FoldPair(c, folds[f]) == Ok(FoldPairs(c, folds).value[f]))
  {
    CollectOk(FoldResults(c, folds));
    forall f | 0 <= f < |folds| ensures FoldResults(c, folds)[f] == FoldPair(c, folds[f]) {
      FoldResultsAt(c, folds, f);
    }
  }

  /** A failing FoldPairs reports the error of the first fold whose pair fails. */
  lemma FoldPairsFirstErr(c: Collection, folds: seq<seq<nat>>) returns (f: nat)
    requires FoldPairs(c, folds).Err?
    ensures f < |folds| && FoldPair(c, folds[f]) == Err(FoldPairs(c, folds).error)
    ensures forall g :: 0 <= g < f ==> FoldPair(c, folds[g]).Ok?
  {
    f := CollectFirstErr(FoldResults(c, folds));
    FoldResultsAt(c, folds, f);
    forall g | 0 <= g < f ensures FoldPair(c, folds[g]).Ok? {
      FoldResultsAt(c, folds, g);
    }
  }

  /** With at least two folds and at least as many records, every fold gets a record and
      leaves one out. */
  lemma FoldSizesInside(n: nat, k: nat)
    requires 2 <= k <= n
    ensures forall f :: 0 <= f < k ==> 0 < FoldSizes(n, k)[f] < n
  {
    var q, rem := n / k, n % k;
    assert n == k * q + rem && rem < k;
    assert q >= 1;
    assert k * q >= 2 * q;
  }

  /** Every fold is non-empty and leaves a non-empty training part exactly when there are
      at least two folds and no more folds than records. */
  lemma FoldSizesProper(n: nat, k: nat)
    requires k > 0
    ensures (forall f :: 0 <= f < k ==> 0 < FoldSizes(n, k)[f] < n) <==> 2 <= k <= n
  {
    if 2 <= k <= n {
      FoldSizesInside(n, k);
    } else if k == 1 {
      assert FoldSizes(n, k)[0] == n;
    } else {
      assert n / k == 0;
      assert FoldSizes(n, k)[0] == 0;
    }
  }

  /** Selecting indices of the index: the selection is made exactly when there is at least
      one, it then holds one record per index, and an empty list raises IndexError. */
  lemma SelectionOfIndex(c: Collection, indexList: IndexList)
    requires c.Valid() && c.samples.Some? && !indexList.Unsupported?
    requires forall x :: x in indexList.items ==> x in c.index
    ensures Selection(c, indexList).Ok? <==> indexList.items != []
    ensures Selection(c, indexList).Err? ==> Selection(c, indexList).error == IndexError
    ensures Selection(c, indexList).Ok? ==> Selection(c, indexList).value.nsamp == |indexList.items|
  {
    forall i | 0 <= i < |indexList.items| ensures InBounds(indexList.items[i], |c.samples.value|) {
      assert indexList.items[i] in indexList.items;
    }
  }

  /** The pair of one fold drawn from the index: it is built exactly when the fold and the
      rest of the index are both non-empty, each part then holds as many records as it has
      indices, and otherwise `Samples(samples=[])` raises IndexError. */
  lemma FoldPairOutcome(c: Collection, fold: seq<nat>)
    requires c.Valid() && c.samples.Some?
    requires Distinct(fold) && forall x :: x in fold ==> x in c.index
    ensures FoldPair(c, fold).Ok? <==> 0 < |fold| < c.nsamp
    ensures FoldPair(c, fold).Err? ==> FoldPair(c, fold).error == IndexError
    ensures FoldPair(c, fold).Ok? ==>
      FoldPair(c, fold).value.0.nsamp == c.nsamp - |fold| && FoldPair(c, fold).value.1.nsamp == |fold|
  {
    WithoutCount(c.index, fold);
    SelectionOfIndex(c, PyList(Without(c.index, fold)));
    SelectionOfIndex(c, NdArray(fold));
  }

  /** The pairs of duplicate-free folds drawn from the index, fold `f` holding `sizes[f]`
      indices: they are all built exactly when every fold and every training part is
      non-empty, and otherwise the first failing pair raises IndexError. */
  lemma FoldPairsSized(c: Collection, sizes: seq<nat>, folds: seq<seq<nat>>)
    requires c.Valid() && c.samples.Some? && |folds| == |sizes|
    requires forall f :: 0 <= f < |folds| ==> |folds[f]| == sizes[f] && Distinct(folds[f])
    requires forall f, x :: 0 <= f < |folds| && x in folds[f] ==> x in c.index
    ensures FoldPairs(c, folds).Ok? <==> forall f :: 0 <= f < |sizes| ==> 0 < sizes[f] < c.nsamp
    ensures FoldPairs(c, folds).Err? ==> FoldPairs(c, folds).error == IndexError
    ensures FoldPairs(c, folds).Ok? ==>
      && |FoldPairs(c, folds).value| == |sizes|
      && forall f :: 0 <= f < |sizes| ==>
        FoldPairs(c, folds).value[f].1.nsamp == sizes[f] && FoldPairs(c, folds).value[f].0.nsamp == c.nsamp - sizes[f]
  {
    forall f | 0 <= f < |folds|
      ensures FoldPair(c, folds[f]).Ok? <==> 0 < sizes[f] < c.nsamp
      ensures FoldPair(c, folds[f]).Err? ==> FoldPair(c, folds[f]).error == IndexError
      ensures FoldPair(c, folds[f]).Ok? ==>
        FoldPair(c, folds[f]).value.0.nsamp == c.nsamp - sizes[f] && FoldPair(c, folds[f]).value.1.nsamp == sizes[f]
    {
      FoldPairOutcome(c, folds[f]);
    }
    FoldPairsOk(c, folds);
    if FoldPairs(c, folds).Err? {
      var f := FoldPairsFirstErr(c, folds);
    }
  }

  /** `make_folds(k)` on records, for `k > 0`: every pair is built exactly when
      `2 <= k <= nsamp`; otherwise a fold or its training part is empty and IndexError is
      raised. The validation part of pair `f` then holds `FoldSizes(nsamp, k)[f]` records
      and its training part the rest. */
  lemma MakeFoldsOutcome(c: Collection, k: int, perms: seq<seq<nat>>)
    requires c.Valid() && c.samples.Some? && k > 0 && Fits(c.index, FoldSizes(c.nsamp, k), perms)
    ensures FoldPairs(c, ValidationFolds(c.index, FoldSizes(c.nsamp, k), perms)).Ok? <==> 2 <= k <= c.nsamp
    ensures !(2 <= k <= c.nsamp) ==>
      FoldPairs(c, ValidationFolds(c.index, FoldSizes(c.nsamp, k), perms)) == Err(IndexError)
    ensures FoldPairs(c, ValidationFolds(c.index, FoldSizes(c.nsamp, k), perms)).Ok? ==>
      && |FoldPairs(c, ValidationFolds(c.index, FoldSizes(c.nsamp, k), perms)).value| == k
      && forall f :: 0 <= f < k ==>
        && FoldPairs(c, ValidationFolds(c.index, FoldSizes(c.nsamp, k), perms)).value[f].1.nsamp == FoldSizes(c.nsamp, k)[f]
        && FoldPairs(c, ValidationFolds(c.index, FoldSizes(c.nsamp, k), perms)).value[f].0.nsamp == c.nsamp - FoldSizes(c.nsamp, k)[f]
  {
    var sizes := FoldSizes(c.nsamp, k);
    FoldsPartitionPool(c.index, sizes, perms);
    FoldPairsSized(c, sizes, ValidationFolds(c.index, sizes, perms));
    FoldSizesProper(c.nsamp, k);
  }

  /** The loop of make_folds (samples.py:263-273): fold by fold, draw the validation
      indices from what is left of the pool and build the pair of instances. */
  method DrawFolds(c: Collection, pool0: seq<nat>, sizes: seq<nat>, perms: seq<seq<nat>>) returns (r: Result<seq<(Collection, Collection)>>)
    requires Fits(pool0, sizes, perms)
    ensures r == FoldPairs(c, ValidationFolds(pool0, sizes, perms))
  {
    ghost var all := ValidationFolds(pool0, sizes, perms);
    ghost var drawn: seq<seq<nat>> := [];
    var pool := pool0;
    var todo, todoPerms := sizes, perms;
    var folds: seq<(Collection, Collection)> := [];
    while todo != []
      invariant Fits(pool, todo, todoPerms)
      invariant all == drawn + ValidationFolds(pool, todo, todoPerms)
      invariant FoldPairs(c, drawn) == Ok(folds)
      decreases |todo|
    {
      var val := Choice(pool, todo[0], todoPerms[0]).value;
      ValidationFoldsStep(pool, todo, todoPerms, drawn, all);
      assert all[..|drawn| + 1] == drawn + [val];
      assert (drawn + [val])[..|drawn|] == drawn;
      var pair := FoldPair(c, val);
      assert FoldResults(c, drawn + [val]) == FoldResults(c, drawn) + [pair];
      if pair.Err? {
        FoldResultsPrefix(c, all, |drawn| + 1);
        CollectErrPrefix(FoldResults(c, all), |drawn| + 1);
        return Err(pair.error);
      }
      CollectSnoc(FoldResults(c, drawn), pair.value, folds);
      pool := Without(pool, val);
      todo, todoPerms := todo[1..], todoPerms[1..];
      drawn := drawn + [val];
      folds := folds + [pair.value];
    }
    assert all == drawn;
    return Ok(folds);
  }

  /** Five records in two folds give a fold of two and a last fold of three. */
  lemma FiveRecordsTwoFolds()
    ensures FoldSizes(5, 2) == [2, 3]
  {
  }

  /** `extract_column(column_name)` (samples.py:96-107): every record's value for the
      column, in record order. */
  function ExtractColumn(c: Collection, name: Option<string>): (r: Result<seq<Value>>)
    ensures name.None? ==> r == Err(AttributeError)
    ensures name.Some? && c.samples.None? ==> r == Err(TypeError)
    ensures r.Err? && name.Some? && c.samples.Some? ==> r.error == KeyError
    ensures name.Some? && c.samples.Some? ==>
      (r.Ok? <==> forall i :: 0 <= i < |c.samples.value| ==> name.value in c.samples.value[i].fields)
    ensures r.Ok? && c.Valid() ==> |r.value| == c.nsamp
    ensures r.Ok? ==> c.samples.Some? && |r.value| == |c.samples.value|
    ensures r.Ok? ==> forall i :: 0 <= i < |r.value| ==>
      name.value in c.samples.value[i].fields && r.value[i] == c.samples.value[i].fields[name.value]
  {
    if name.None? then Err(AttributeError)
    else if c.samples.None? then Err(TypeError)
    else
      var recs := c.samples.value;
      if forall i :: 0 <= i < |recs| ==> name.value in recs[i].fields then
        Ok(seq(|recs|, i requires 0 <= i < |recs| => recs[i].fields[name.value]))
      else Err(KeyError)
  }

  /** The column add_column writes: the supplied name, or one generated from the keys of
      the first record (TypeError on an absent list, IndexError on an empty one). */
  function ColumnToAdd(samples: Option<seq<Record>>, name: Option<string>): (r: Result<string>)
    ensures name.Some? ==> r == Ok(name.value)
    ensures name.None? && samples.None? ==> r == Err(TypeError)
    ensures name.None? && samples == Some([]) ==> r == Err(IndexError)
    ensures name.None? && samples.Some? && samples.value != [] ==>
      r == ColumnNames.NewColumnName(samples.value[0].keys, None)
    ensures name.None? && r.Ok? ==> samples.Some? && samples.value != [] && r.value !in samples.value[0].keys
  {
    if name.Some? then Ok(name.value)
    else if samples.None? then Err(TypeError)
    else if samples.value == [] then Err(IndexError)
    else
      var r := ColumnNames.NewColumnName(samples.value[0].keys, None);
      if r.Ok? then ColumnNames.AutoNameIsFresh(samples.value[0].keys); r else r
  }

  /** `get_dict_list(numpy_arr, header)` (samples.py:276-293): one record per row, zipping
      the header with the row, then a new instance over those records. */
  method GetDictList(arr: seq<seq<real>>, header: seq<string>) returns (r: Result<Collection>)
    ensures r.Err? <==> arr == []
    ensures r.Ok? ==> r.value.Valid() && r.value.nsamp == |arr|
    ensures r.Ok? ==> r.value.samples == Some(seq(|arr|, i requires 0 <= i < |arr| => Zip(header, arr[i])))
    ensures r.Ok? && Distinct(header) && (forall i :: 0 <= i < |arr| ==> |arr[i]| >= |header|) ==>
      && r.value.names == header
      && forall i, j :: 0 <= i < |arr| && 0 <= j < |header| ==>
           header[j] in r.value.samples.value[i].fields && r.value.samples.value[i].fields[header[j]] == Num(arr[i][j])
  {
    var out: seq<Record> := [];
    var i := 0;
    while i < |arr|
      invariant 0 <= i <= |arr|
      invariant out == seq(i, j requires 0 <= j < i => Zip(header, arr[j]))
    {
      out := out + [Zip(header, arr[i])];
      i := i + 1;
    }
    r := Construct(Some(out), None);
    if r.Ok? && Distinct(header) && (forall i :: 0 <= i < |arr| ==> |arr[i]| >= |header|) {
      ZipRowsByHeader(header, arr);
    }
  }

  /** With distinct header names and rows at least as long as the header, every zipped
      row lists the header in order and maps each name to the value at its position. */
  lemma ZipRowsByHeader(header: seq<string>, arr: seq<seq<real>>)
    requires Distinct(header) && forall i :: 0 <= i < |arr| ==> |arr[i]| >= |header|
    ensures forall i :: 0 <= i < |arr| ==> Zip(header, arr[i]).keys == header
    ensures forall i, j :: 0 <= i < |arr| && 0 <= j < |header| ==>
      header[j] in Zip(header, arr[i]).fields && Zip(header, arr[i]).fields[header[j]] == Num(arr[i][j])
  {
    assert header[..|header|] == header;
    forall i | 0 <= i < |arr| ensures Zip(header, arr[i]).keys == header {
      ZipKeys(header, arr[i], |header|);
    }
    forall i, j | 0 <= i < |arr| && 0 <= j < |header|
      ensures header[j] in Zip(header, arr[i]).fields && Zip(header, arr[i]).fields[header[j]] == Num(arr[i][j])
    {
      ZipValues(header, arr[i], |header|, j);
    }
  }

  /** The records after popping `key` from the first `m` of them. */
  function PoppedUpTo(recs: seq<Record>, key: string, m: nat): (r: seq<Record>)
    requires m <= |recs| && forall i :: 0 <= i < m ==> key in recs[i].fields
    ensures |r| == |recs|
  {
    seq(m, i requires 0 <= i < m => Pop(recs[i], key)) + recs[m..]
  }

  /** Before record `m` is reached, it is as it was. */
  lemma PoppedUntouched(recs: seq<Record>, key: string, m: nat)
    requires m < |recs| && forall i :: 0 <= i < m ==> key in recs[i].fields
    ensures PoppedUpTo(recs, key, m)[m] == recs[m]
  {
  }

  /** Popping record `m` extends the popped prefix by one. */
  lemma PoppedStep(recs: seq<Record>, key: string, m: nat)
    requires m < |recs| && forall i :: 0 <= i <= m ==> key in recs[i].fields
    ensures PoppedUpTo(recs, key, m)[m := Pop(recs[m], key)] == PoppedUpTo(recs, key, m + 1)
  {
    assert recs[m..] == [recs[m]] + recs[m + 1..];
  }

  /** The state after a KeyError at record `m`: the first record without the key, the
      records before it having lost it already. */
  ghost predicate StoppedAt(orig: seq<Record>, key: string, m: nat, recs: seq<Record>) {
    && m < |orig| && key !in orig[m].fields
    && (forall i :: 0 <= i < m ==> key in orig[i].fields)
    && recs == PoppedUpTo(orig, key, m)
  }

  /** `samp.pop(key)` for each record in turn: every record loses the key, or KeyError at
      the first record without it, the records before it having lost the key already. */
  method PopEach(orig: seq<Record>, key: string) returns (recs: seq<Record>, r: Result<()>)
    ensures r.Ok? <==> forall i :: 0 <= i < |orig| ==> key in orig[i].fields
    ensures r.Err? ==> r.error == KeyError
    ensures |recs| == |orig|
    ensures r.Ok? ==> forall i :: 0 <= i < |orig| ==> recs[i] == Pop(orig[i], key)
    ensures r.Err? ==> exists m :: StoppedAt(orig, key, m, recs)
  {
    recs := orig;
    var i := 0;
    while i < |recs|
      invariant 0 <= i <= |recs| == |orig|
      invariant forall j :: 0 <= j < i ==> key in orig[j].fields
      invariant recs == PoppedUpTo(orig, key, i)
    {
      PoppedUntouched(orig, key, i);
      if key !in recs[i].fields {
        assert StoppedAt(orig, key, i, recs);
        return recs, Err(KeyError);
      }
      PoppedStep(orig, key, i);
      recs := recs[i := Pop(recs[i], key)];
      i := i + 1;
    }
    PoppedAll(orig, key);
    return recs, Ok(());
  }

  /** Once every record is reached, each has lost the key. */
  lemma PoppedAll(recs: seq<Record>, key: string)
    requires forall i :: 0 <= i < |recs| ==> key in recs[i].fields
    ensures forall i :: 0 <= i < |recs| ==> PoppedUpTo(recs, key, |recs|)[i] == Pop(recs[i], key)
  {
    assert recs[|recs|..] == [];
  }

  /** A Samples instance: the fields samples.py keeps and updates in place. */
  class Samples {
    var samples: Option<seq<Record>>
    var nsamp: nat
    var index: seq<nat>
    var names: seq<string>
    var nvar: nat
    var nfeat: Option<nat>

    function View(): Collection
      reads this
    {
      Collection(samples, nsamp, index, names, nvar, nfeat)
    }

    ghost predicate Valid()
      reads this
    {
      View().Valid()
    }

    /** `Samples(samples=..., names=...)` for the inputs on which it does not raise. */
    constructor (samples: Option<seq<Record>>, names: Option<seq<string>>)
      requires Construct(samples, names).Ok?
      ensures View() == Construct(samples, names).value
      ensures Valid()
    {
      var c := Construct(samples, names).value;
      this.samples := c.samples;
      this.nsamp := c.nsamp;
      this.index := c.index;
      this.names := c.names;
      this.nvar := c.nvar;
      this.nfeat := c.nfeat;
    }

    /** `merge_data(samp)` (samples.py:72-81): the other instance's records are appended,
        the counts added and the index renumbered. */
    method MergeData(other: Samples) returns (r: Result<()>)
      requires Valid() && other.Valid()
      modifies this
      ensures r.Err? <==> old(samples).None? || old(other.samples).None?
      ensures r.Err? ==> r.error == TypeError && unchanged(this)
      ensures r.Ok? ==> samples == Some(old(samples).value + old(other.samples).value)
      ensures r.Ok? ==> nsamp == old(nsamp) + old(other.nsamp) && index == Range(nsamp)
      ensures names == old(names) && nvar == old(nvar) && nfeat == old(nfeat)
      ensures Valid()
    {
      var mine, theirs, added := samples, other.samples, other.nsamp;
      if mine.None? || theirs.None? {
        return Err(TypeError);
      }
      samples := Some(mine.value + theirs.value);
      nsamp := nsamp + added;
      index := Range(nsamp);
      return Ok(());
    }

    /** `delete_column(column_name)` (samples.py:83-94), read as popping the key from each
        record in place: AttributeError without a name, TypeError on an absent list, and
        KeyError at the first record without the key, the records before it having already
        lost it. */
    method DeleteColumn(name: Option<string>) returns (r: Result<()>)
      requires Valid()
      modifies this
      ensures name.None? ==> r == Err(AttributeError) && unchanged(this)
      ensures name.Some? && old(samples).None? ==> r == Err(TypeError) && unchanged(this)
      ensures name.Some? && old(samples).Some? ==>
        (r.Ok? <==> forall i :: 0 <= i < |old(samples).value| ==> name.value in old(samples).value[i].fields)
      ensures r.Ok? ==> samples.Some? && |samples.value| == |old(samples).value|
      ensures r.Ok? ==> forall i :: 0 <= i < |samples.value| ==> samples.value[i] == Pop(old(samples).value[i], name.value)
      ensures r.Err? && name.Some? && old(samples).Some? ==>
        && r.error == KeyError && samples.Some?
        && exists m :: StoppedAt(old(samples).value, name.value, m, samples.value)
      ensures nsamp == old(nsamp) && index == old(index) && names == old(names)
      ensures nvar == old(nvar) && nfeat == old(nfeat)
      ensures Valid()
    {
      if name.None? {
        return Err(AttributeError);
      }
      if samples.None? {
        return Err(TypeError);
      }
      var recs, res := PopEach(samples.value, name.value);
      samples := Some(recs);
      return res;
    }

    /** `add_column(column_name, column_data)` (samples.py:109-144), read as intended:
        RuntimeError without data, the name from ColumnToAdd, and each record copied with
        the new key set to the value at its position (IndexError when the data run out). */
    method AddColumn(name: Option<string>, data: Option<seq<Value>>) returns (r: Result<()>)
      requires Valid()
      modifies this
      ensures data.None? ==> r == Err(RuntimeError)
      ensures data.Some? && ColumnToAdd(old(samples), name).Err? ==>
        r == Err(ColumnToAdd(old(samples), name).error)
      ensures data.Some? && ColumnToAdd(old(samples), name).Ok? && old(samples).None? ==>
        r == Err(TypeError)
      ensures (data.Some? && ColumnToAdd(old(samples), name).Ok? && old(samples).Some? &&
               |data.value| < |old(samples).value|) ==> r == Err(IndexError)
      ensures r.Ok? <==>
        data.Some? && ColumnToAdd(old(samples), name).Ok? && old(samples).Some? &&
        |data.value| >= |old(samples).value|
      ensures r.Err? ==> unchanged(this)
      ensures r.Ok? ==> samples.Some? && |samples.value| == |old(samples).value|
      ensures r.Ok? ==> forall i :: 0 <= i < |samples.value| ==>
        samples.value[i] == Put(old(samples).value[i], ColumnToAdd(old(samples), name).value, data.value[i])
      ensures nsamp == old(nsamp) && index == old(index) && names == old(names)
      ensures nvar == old(nvar) && nfeat == old(nfeat)
      ensures Valid()
    {
      if data.None? {
        return Err(RuntimeError);
      }
      var column := ColumnToAdd(samples, name);
      if column.Err? {
        return Err(column.error);
      }
      if samples.None? {
        return Err(TypeError);
      }
      var recs := samples.value;
      var values := data.value;
      var out: seq<Record> := [];
      var i := 0;
      while i < |recs|
        invariant 0 <= i <= |recs|
        invariant i <= |values|
        invariant out == seq(i, j requires 0 <= j < i => Put(recs[j], column.value, values[j]))
      {
        if i >= |values| {
          return Err(IndexError);
        }
        out := out + [Put(recs[i], column.value, values[i])];
        i := i + 1;
      }
      samples := Some(out);
      return Ok(());
    }
  }
}
