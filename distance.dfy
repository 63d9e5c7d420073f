/**
 * The Euclidean distance engine of modules/distance.py: records projected onto named
 * coordinate columns, the pairwise distance matrix (kept squared), and the proximity
 * filter that thins the records by that matrix. `Distance` and its only subclass
 * `Euclidean` are one class here; the centroid reducer is `Reducers.Centroid`.
 */
module DistanceEngine {
  import opened Outcomes
  import opened Records
  import opened Draws
  import opened Vectors
  import opened Proximity

  /** `[[samples[i][names[j]] for j] for i]`: KeyError when a record lacks a named column;
      a text value where a number is needed is reported as TypeError. */
  function Project(samples: seq<Record>, names: seq<string>): (r: Result<Matrix>)
    ensures r.Ok? <==> forall i, j :: 0 <= i < |samples| && 0 <= j < |names| ==>
      names[j] in samples[i].fields && samples[i].fields[names[j]].Num?
    ensures r.Err? ==> (r.error == KeyError <==>
      exists i, j :: 0 <= i < |samples| && 0 <= j < |names| && names[j] !in samples[i].fields)
    ensures r.Err? ==> r.error == KeyError || r.error == TypeError
    ensures r.Ok? ==> |r.value| == |samples| && Rectangular(r.value, |names|)
    ensures r.Ok? ==> forall i, j :: 0 <= i < |samples| && 0 <= j < |names| ==>
      samples[i].fields[names[j]] == Num(r.value[i][j])
  {
    if exists i, j :: 0 <= i < |samples| && 0 <= j < |names| && names[j] !in samples[i].fields then
      Err(KeyError)
    else if exists i, j :: 0 <= i < |samples| && 0 <= j < |names| && samples[i].fields[names[j]].Text? then
      Err(TypeError)
    else
      Ok(seq(|samples|, i requires 0 <= i < |samples| =>
        seq(|names|, j requires 0 <= j < |names| => samples[i].fields[names[j]].x)))
  }

  /** The constructor's checks, with `names` assigned before its length is taken: `len`
      of an absent list is a TypeError, then the projection. */
  function Setup(samples: Option<seq<Record>>, names: Option<seq<string>>): (r: Result<Matrix>)
    ensures samples.None? || names.None? ==> r == Err(TypeError)
    ensures samples.Some? && names.Some? ==> r == Project(samples.value, names.value)
  {
    if samples.None? || names.None? then Err(TypeError)
    else Project(samples.value, names.value)
  }

  /** The squared distances over the first `d` coordinates, between every pair of rows. */
  function PartialDist(m: Matrix, width: nat, d: nat): (acc: Matrix)
    requires Rectangular(m, width) && d <= width
    ensures |acc| == |m| && Rectangular(acc, |m|)
    ensures forall r, c :: 0 <= r < |m| && 0 <= c < |m| ==> acc[r][c] == SqDistUpTo(m[r], m[c], d)
  {
    seq(|m|, r requires 0 <= r < |m| =>
      seq(|m|, c requires 0 <= c < |m| => SqDistUpTo(m[r], m[c], d)))
  }

  /** Over all coordinates the partial distances are the distance matrix. */
  lemma PartialDistComplete(m: Matrix, width: nat)
    requires Rectangular(m, width)
    ensures PartialDist(m, width, width) == DistMatrix(m, width)
  {
    var a := PartialDist(m, width, width);
    var b := DistMatrix(m, width);
    forall r | 0 <= r < |m| ensures a[r] == b[r] {
      assert forall c :: 0 <= c < |m| ==> a[r][c] == b[r][c];
    }
  }

  /** Before any coordinate every partial distance is zero. */
  lemma PartialDistZero(m: Matrix, width: nat)
    requires Rectangular(m, width)
    ensures PartialDist(m, width, 0) == seq(|m|, r requires 0 <= r < |m| => seq(|m|, c requires 0 <= c < |m| => 0.0))
  {
    var a := PartialDist(m, width, 0);
    var b := seq(|m|, r requires 0 <= r < |m| => seq(|m|, c requires 0 <= c < |m| => 0.0));
    forall r | 0 <= r < |m| ensures a[r] == b[r] {
      assert forall c :: 0 <= c < |m| ==> a[r][c] == b[r][c];
    }
  }

  /** The partial distances with coordinate `d` added. */
  function AddCoordinate(acc: Matrix, m: Matrix, width: nat, d: nat): (next: Matrix)
    requires Rectangular(m, width) && d < width && |acc| == |m| && Rectangular(acc, |m|)
    ensures |next| == |m| && Rectangular(next, |m|)
  {
    seq(|m|, r requires 0 <= r < |m| =>
      seq(|m|, c requires 0 <= c < |m| => acc[r][c] + Sq(m[r][d] - m[c][d])))
  }

  /** Adding coordinate `d` to the partial distances over `d` coordinates gives those over
      `d + 1`. */
  lemma AddCoordinateStep(m: Matrix, width: nat, d: nat)
    requires Rectangular(m, width) && d < width
    ensures AddCoordinate(PartialDist(m, width, d), m, width, d) == PartialDist(m, width, d + 1)
  {
    var a := AddCoordinate(PartialDist(m, width, d), m, width, d);
    var b := PartialDist(m, width, d + 1);
    forall r | 0 <= r < |m| ensures a[r] == b[r] {
      assert forall c :: 0 <= c < |m| ==> a[r][c] == b[r][c];
    }
  }

  /** `distance_matrix > thresh`, cell by cell. */
  function ThresholdMask(dm: Matrix, thresh: real): (mask: Mask)
    requires Rectangular(dm, |dm|)
    ensures |mask| == |dm| && Square(mask)
    ensures forall r, c :: 0 <= r < |dm| && 0 <= c < |dm| ==> mask[r][c] == Exceeds(dm[r][c], thresh)
  {
    seq(|dm|, r requires 0 <= r < |dm| =>
      seq(|dm|, c requires 0 <= c < |dm| => Exceeds(dm[r][c], thresh)))
  }

  /** The mask of a distance matrix is symmetric, and for a non-negative threshold no
      sample is flagged against itself. */
  lemma DistanceMaskShape(m: Matrix, width: nat, thresh: real)
    requires Rectangular(m, width)
    ensures var mask := ThresholdMask(DistMatrix(m, width), thresh);
      && Symmetric(mask)
      && (thresh >= 0.0 ==> forall v :: 0 <= v < |mask| ==> !mask[v][v])
  {
    DistMatrixShape(m, width);
    if thresh >= 0.0 {
      assert Sq(thresh) >= 0.0;
    }
  }

  /** `list(samples[i] for i in good)`: the records at the given sample numbers, in
      order; IndexError when one is past the end of the records. */
  function PickAt(samples: seq<Record>, good: seq<nat>): (r: Result<seq<Record>>)
    ensures r.Err? ==> r.error == IndexError
    ensures r.Ok? <==> forall x :: x in good ==> x < |samples|
    ensures r.Ok? ==> |r.value| == |good| && forall k :: 0 <= k < |good| ==>
      good[k] < |samples| && r.value[k] == samples[good[k]]
  {
    if forall k :: 0 <= k < |good| ==> good[k] < |samples| then
      assert forall x :: x in good ==> x < |samples|;
      Ok(seq(|good|, k requires 0 <= k < |good| => samples[good[k]]))
    else
      var k :| 0 <= k < |good| && good[k] >= |samples|;
      assert good[k] in good;
      Err(IndexError)
  }

  /** The records that survive the filter on `mask`, in their original order. */
  function Filtered(samples: seq<Record>, mask: Mask): (r: Result<seq<Record>>)
    requires Square(mask)
    ensures r.Err? ==> r.error == IndexError
    ensures r.Ok? <==> Survivors(mask).Ok? && PickAt(samples, Survivors(mask).value).Ok?
    ensures r.Ok? ==> var good := Survivors(mask).value;
      && Increasing(good) && |r.value| == |good|
      && forall k :: 0 <= k < |good| ==> good[k] < |samples| && r.value[k] == samples[good[k]]
  {
    match Survivors(mask)
    case Err(e) => Err(e)
    case Ok(good) => PickAt(samples, good)
  }

  /** Survivors unfolded at known tuples. */
  lemma SurvivorsAt(mask: Mask, ts: seq<Pair>)
    requires Square(mask) && Tuples(mask) == Ok(ts)
    ensures Survivors(mask) == Ok(Without(Range(|mask|), Crowded(mask) + Claims(ts)))
  {
  }

  /** Filtering the records a distance matrix was built from always succeeds and never
      makes the list longer. */
  lemma FilterShrinks(samples: seq<Record>, m: Matrix, width: nat, thresh: real)
    requires Rectangular(m, width) && |samples| == |m|
    ensures Filtered(samples, ThresholdMask(DistMatrix(m, width), thresh)).Ok?
    ensures |Filtered(samples, ThresholdMask(DistMatrix(m, width), thresh)).value| <= |samples|
  {
    var mask := ThresholdMask(DistMatrix(m, width), thresh);
    DistanceMaskShape(m, width, thresh);
    SymmetricNoError(mask);
  }

  /** The squared distances between four points in two tight pairs far apart. */
  lemma FourPointsDistances(m: Matrix)
    requires m == [[0.0, 0.0], [0.1, 0.1], [10.0, 10.0], [10.1, 10.1]]
    ensures DistMatrix(m, 2) == [[0.0, 0.02, 200.0, 204.02], [0.02, 0.0, 196.02, 200.0],
                                 [200.0, 196.02, 0.0, 0.02], [204.02, 200.0, 0.02, 0.0]]
  {
    var dm := DistMatrix(m, 2);
    var expected := [[0.0, 0.02, 200.0, 204.02], [0.02, 0.0, 196.02, 200.0],
                     [200.0, 196.02, 0.0, 0.02], [204.02, 200.0, 0.02, 0.0]];
    forall r, c | 0 <= r < 4 && 0 <= c < 4 ensures dm[r][c] == expected[r][c] {
      assert dm[r][c] == Sq(m[r][0] - m[c][0]) + Sq(m[r][1] - m[c][1]);
    }
    forall r | 0 <= r < 4 ensures dm[r] == expected[r] {
      assert |dm[r]| == 4;
    }
  }

  /** At threshold 1.0 those distances flag each point against the other pair only. */
  lemma FourPointsMask(dm: Matrix)
    requires dm == [[0.0, 0.02, 200.0, 204.02], [0.02, 0.0, 196.02, 200.0],
                    [200.0, 196.02, 0.0, 0.02], [204.02, 200.0, 0.02, 0.0]]
    ensures ThresholdMask(dm, 1.0) == [[false, false, true, true], [false, false, true, true],
                                       [true, true, false, false], [true, true, false, false]]
  {
    var mask := ThresholdMask(dm, 1.0);
    var expected := [[false, false, true, true], [false, false, true, true],
                     [true, true, false, false], [true, true, false, false]];
    forall r | 0 <= r < 4 ensures mask[r] == expected[r] {
      assert |mask[r]| == 4;
    }
  }

  /** Four points in two tight pairs far apart, with threshold 1.0: each point is
      farther than the threshold from both points of the other pair and from no point of
      its own, so the filter removes all four. */
  lemma TwoClustersFilteredOut(samples: seq<Record>, m: Matrix)
    requires |samples| == 4 && m == [[0.0, 0.0], [0.1, 0.1], [10.0, 10.0], [10.1, 10.1]]
    ensures Filtered(samples, ThresholdMask(DistMatrix(m, 2), 1.0)) == Ok([])
  {
    FourPointsDistances(m);
    FourPointsMask(DistMatrix(m, 2));
    TwoClustersAllRemoved(ThresholdMask(DistMatrix(m, 2), 1.0));
  }

  /** The loops of `calc_dist_matrix`: for each coordinate in turn, the squared
      differences of that coordinate are added for every pair of rows. */
  method PairwiseDistances(m: Matrix, width: nat) returns (dm: Matrix)
    requires Rectangular(m, width)
    ensures dm == DistMatrix(m, width)
  {
    var n := |m|;
    dm := seq(n, r requires 0 <= r < n => seq(n, c requires 0 <= c < n => 0.0));
    PartialDistZero(m, width);
    var d := 0;
    while d < width
      invariant 0 <= d <= width
      invariant dm == PartialDist(m, width, d)
    {
      AddCoordinateStep(m, width, d);
      dm := AddCoordinate(dm, m, width, d);
      d := d + 1;
    }
    PartialDistComplete(m, width);
  }

  class Euclidean {
    var samples: seq<Record>
    var nsamp: nat
    var names: seq<string>
    var nvar: nat
    var index: seq<nat>
    var matrix: Matrix
    var distanceMatrix: Option<Matrix>

    /** The matrix has one row per sample number and one column per name; a computed
        distance matrix belongs to it. */
    ghost predicate Valid()
      reads this
    {
      && nvar == |names| && |matrix| == nsamp && Rectangular(matrix, nvar)
      && index == Range(nsamp)
      && (distanceMatrix.Some? ==> distanceMatrix.value == DistMatrix(matrix, nvar))
    }

    /** `Euclidean(samples, names)`. */
    constructor (samples: Option<seq<Record>>, names: Option<seq<string>>)
      requires Setup(samples, names).Ok?
      ensures Valid()
      ensures this.samples == samples.value && nsamp == |samples.value|
      ensures this.names == names.value && nvar == |names.value|
      ensures index == Range(nsamp) && matrix == Setup(samples, names).value
      ensures distanceMatrix == None
    {
      this.samples := samples.value;
      nsamp := |samples.value|;
      this.names := names.value;
      nvar := |names.value|;
      index := Range(|samples.value|);
      matrix := Setup(samples, names).value;
      distanceMatrix := None;
    }

    /** `calc_dist_matrix`: adds each coordinate's squared differences in turn, ending
        with the (squared) distance between every pair of rows. */
    method CalcDistMatrix()
      requires Valid()
      modifies this
      ensures Valid()
      ensures distanceMatrix == Some(DistMatrix(matrix, nvar))
      ensures samples == old(samples) && nsamp == old(nsamp) && names == old(names)
      ensures nvar == old(nvar) && index == old(index) && matrix == old(matrix)
    {
      var acc := PairwiseDistances(matrix, nvar);
      distanceMatrix := Some(acc);
    }

    /** `proximity_filter(thresh)`: TypeError before the distance matrix exists;
        otherwise `samples` becomes the surviving records, and nothing else changes. */
    method ProximityFilter(thresh: real) returns (r: Result<()>)
      requires Valid()
      modifies this
      ensures Valid()
      ensures nsamp == old(nsamp) && index == old(index) && names == old(names) && nvar == old(nvar)
      ensures matrix == old(matrix) && distanceMatrix == old(distanceMatrix)
      ensures distanceMatrix.None? ==> r == Err(TypeError) && samples == old(samples)
      ensures distanceMatrix.Some? ==>
        var f := Filtered(old(samples), ThresholdMask(distanceMatrix.value, thresh));
        && (f.Err? ==> r == Err(f.error) && samples == old(samples))
        && (f.Ok? ==> r == Ok(()) && samples == f.value)
    {
      if distanceMatrix.None? {
        return Err(TypeError);
      }
      var mask := ThresholdMask(distanceMatrix.value, thresh);
      var tuples := Tuples(mask);
      if tuples.Err? {
        return Err(IndexError);
      }
      var claims := CollectClaims(tuples.value);
      var good := Without(Range(nsamp), Crowded(mask) + claims);
      SurvivorsAt(mask, tuples.value);
      var picked := PickAt(samples, good);
      if picked.Err? {
        return Err(IndexError);
      }
      samples := picked.value;
      r := Ok(());
    }
  }
}
