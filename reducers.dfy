/**
 * `Distance.centroid` (modules/distance.py:35-53): a column-wise reduction of the sample
 * matrix by median, mean or a percentile, chosen by a method string. The reductions
 * follow numpy: the median of an even count is the mean of the two middle values, and a
 * percentile interpolates linearly between the two order statistics around the position
 * `q / 100 * (n - 1)`.
 */
module Reducers {
  import opened Outcomes
  import opened Text
  import opened Vectors

  predicate Sorted(s: seq<real>) {
    forall i, j :: 0 <= i < j < |s| ==> s[i] <= s[j]
  }

  /** `x` put into its place in a sorted list. */
  function Insert(x: real, s: seq<real>): (r: seq<real>)
    requires Sorted(s)
    ensures Sorted(r) && multiset(r) == multiset(s) + multiset{x} && |r| == |s| + 1
    ensures forall i :: 0 <= i < |r| ==> r[i] == x || r[i] in s
  {
    if s == [] || x <= s[0] then [x] + s
    else
      var rest := Insert(x, s[1..]);
      assert s == [s[0]] + s[1..];
      InsertHead(x, s, rest);
      [s[0]] + rest
  }

  lemma InsertHead(x: real, s: seq<real>, rest: seq<real>)
    requires Sorted(s) && s != [] && s[0] < x && Sorted(rest)
    requires forall i :: 0 <= i < |rest| ==> rest[i] == x || rest[i] in s[1..]
    ensures Sorted([s[0]] + rest)
  {
    var r := [s[0]] + rest;
    forall i, j | 0 <= i < j < |r| ensures r[i] <= r[j] {
      if i > 0 {
        assert r[i] == rest[i - 1] && r[j] == rest[j - 1];
      } else {
        assert r[j] == rest[j - 1];
        if r[j] != x {
          var k :| 0 <= k < |s[1..]| && s[1..][k] == r[j];
          assert s[k + 1] == r[j];
        }
      }
    }
  }

  /** The values in ascending order. */
  function Sort(s: seq<real>): (r: seq<real>)
    ensures Sorted(r) && multiset(r) == multiset(s) && |r| == |s|
  {
    if s == [] then []
    else
      assert s == [s[0]] + s[1..];
      Insert(s[0], Sort(s[1..]))
  }

  function Sum(s: seq<real>): real {
    if s == [] then 0.0 else s[0] + Sum(s[1..])
  }

  /** `np.mean` of a non-empty list. */
  function Mean(s: seq<real>): real
    requires s != []
  {
    Sum(s) / |s| as real
  }

  /** Every value lies between the first and the last of its sorted list. */
  lemma SortBounds(s: seq<real>)
    requires s != []
    ensures forall i :: 0 <= i < |s| ==> Sort(s)[0] <= s[i] <= Sort(s)[|s| - 1]
  {
    var t := Sort(s);
    forall i | 0 <= i < |s| ensures t[0] <= s[i] <= t[|s| - 1] {
      assert s[i] in multiset(s);
      assert s[i] in multiset(t);
      var k :| 0 <= k < |t| && t[k] == s[i];
    }
  }

  /** A list of values between `lo` and `hi` adds up to between `n * lo` and `n * hi`. */
  lemma {:induction false} SumBounds(s: seq<real>, lo: real, hi: real)
    requires forall i :: 0 <= i < |s| ==> lo <= s[i] <= hi
    ensures |s| as real * lo <= Sum(s) <= |s| as real * hi
  {
    if s != [] {
      SumBounds(s[1..], lo, hi);
      var n := (|s| - 1) as real;
      assert |s| as real * lo == n * lo + lo;
      assert |s| as real * hi == n * hi + hi;
    }
  }

  /** Dividing by a positive count keeps a total of `n` values within their bounds. */
  lemma DivideBounds(x: real, n: real, lo: real, hi: real)
    requires n > 0.0 && n * lo <= x <= n * hi
    ensures lo <= x / n <= hi
  {
    assert x / n - lo == (x - n * lo) / n;
    assert hi - x / n == (n * hi - x) / n;
  }

  /** The mean of values between `lo` and `hi` is between `lo` and `hi`. */
  lemma MeanWithin(s: seq<real>, lo: real, hi: real)
    requires s != [] && forall i :: 0 <= i < |s| ==> lo <= s[i] <= hi
    ensures lo <= Mean(s) <= hi
  {
    SumBounds(s, lo, hi);
    DivideBounds(Sum(s), |s| as real, lo, hi);
  }

  /** The mean lies within the range of the values. */
  lemma MeanBounds(s: seq<real>)
    requires s != []
    ensures Sort(s)[0] <= Mean(s) <= Sort(s)[|s| - 1]
  {
    SortBounds(s);
    MeanWithin(s, Sort(s)[0], Sort(s)[|s| - 1]);
  }

  /** `np.median` of a non-empty list. */
  function Median(s: seq<real>): (r: real)
    requires s != []
    ensures Sort(s)[0] <= r <= Sort(s)[|s| - 1]
  {
    var t := Sort(s);
    var n := |t|;
    if n % 2 == 1 then t[n / 2] else (t[n / 2 - 1] + t[n / 2]) / 2.0
  }

  /** `q * (n - 1)`: a hundred times numpy's interpolation position `q / 100 * (n - 1)`,
      which lies within `0 .. n-1`. */
  function Scaled(q: int, n: nat): (num: int)
    requires 0 <= q <= 100 && n > 0
    ensures 0 <= num <= 100 * (n - 1)
  {
    IntMulBounds(q, n - 1);
    q * (n - 1)
  }

  lemma IntMulBounds(q: int, m: nat)
    requires 0 <= q <= 100
    ensures 0 <= q * m <= 100 * m
  {
    IntMulNonNegative(q, m);
    IntMulNonNegative(100 - q, m);
    assert 100 * m - q * m == (100 - q) * m;
  }

  lemma IntMulNonNegative(a: int, b: int)
    requires a >= 0 && b >= 0
    ensures a * b >= 0
  {
  }

  lemma MulNonNegative(x: real, y: real)
    requires x >= 0.0 && y >= 0.0
    ensures x * y >= 0.0
  {
  }

  /** numpy's linear interpolation: the point a fraction `f` of the way from `a` to `b`. */
  function Lerp(a: real, b: real, f: real): (r: real)
    requires a <= b && 0.0 <= f <= 1.0
    ensures a <= r <= b
  {
    MulNonNegative(b - a, f);
    MulNonNegative(b - a, 1.0 - f);
    a + (b - a) * f
  }

  /** Sorted entries are bounded by the first and the last. */
  lemma SortedBounds(t: seq<real>, i: nat)
    requires Sorted(t) && i < |t|
    ensures t[0] <= t[i] <= t[|t| - 1]
  {
  }

  /** The whole part of a position within `0 .. n-1` indexes a list of n; the fraction is below one. */
  lemma PositionSplit(num: int, n: nat)
    requires n > 0 && 0 <= num <= 100 * (n - 1)
    ensures 0 <= num / 100 < n && 0 <= num % 100 < 100
  {
  }

  /** `np.percentile(s, q)` with numpy's default linear interpolation: the position
      `q / 100 * (n - 1)` is split into its whole part `lo` and the fraction `frac`. */
  function Percentile(s: seq<real>, q: int): (r: real)
    requires s != [] && 0 <= q <= 100
    ensures Sort(s)[0] <= r <= Sort(s)[|s| - 1]
  {
    var t := Sort(s);
    var num := Scaled(q, |t|);
    PositionSplit(num, |t|);
    var lo := num / 100;
    var frac := (num % 100) as real / 100.0;
    SortedBounds(t, lo);
    if lo + 1 < |t| then
      SortedBounds(t, lo + 1);
      Lerp(t[lo], t[lo + 1], frac)
    else t[lo]
  }

  /** The median is the 50th percentile. */
  lemma MedianIsPercentile50(s: seq<real>)
    requires s != []
    ensures Median(s) == Percentile(s, 50)
  {
    var t := Sort(s);
    var n := |t|;
    var num := Scaled(50, n);
    if n % 2 == 1 {
      assert num == 100 * (n / 2);
      assert num / 100 == n / 2 && num % 100 == 0;
      if n / 2 + 1 < n {
        assert Lerp(t[n / 2], t[n / 2 + 1], 0.0) == t[n / 2];
      }
    } else {
      assert num == 100 * (n / 2 - 1) + 50;
      assert num / 100 == n / 2 - 1 && num % 100 == 50;
      assert Lerp(t[n / 2 - 1], t[n / 2], 0.5) == (t[n / 2 - 1] + t[n / 2]) / 2.0;
    }
  }

  /** The reducers `centroid` knows. */
  datatype Reducer = MedianOf | MeanOf | PercentileOf(q: int)

  /** Python's `s[1:]`. */
  function Drop1(s: string): string {
    if s == [] then [] else s[1..]
  }

  /** The method-string dispatch of centroid: `'median'`, `'mean'`, or any string containing
      `'percentile'`, whose number is read after removing every `'percentile'` and skipping
      one more character. ValueError for a number that does not parse and for any other
      string. */
  function ParseReducer(methodName: string): (r: Result<Reducer>)
    ensures methodName == "median" ==> r == Ok(MedianOf)
    ensures methodName == "mean" ==> r == Ok(MeanOf)
    ensures methodName != "median" && methodName != "mean" && !Contains(methodName, "percentile") ==> r == Err(ValueError)
    ensures r.Err? ==> r.error == ValueError
  {
    if methodName == "median" then Ok(MedianOf)
    else if methodName == "mean" then Ok(MeanOf)
    else if Contains(methodName, "percentile") then
      match ParseInt(Drop1(RemoveAll(methodName, "percentile")))
      case None => Err(ValueError)
      case Some(q) => Ok(PercentileOf(q))
    else Err(ValueError)
  }

  /** `'percentile_' + str(q)` selects the q-th percentile. */
  lemma PercentileNameParses(q: int)
    ensures ParseReducer("percentile_" + IntToString(q)) == Ok(PercentileOf(q))
  {
    var digits := IntToString(q);
    var methodName := "percentile_" + digits;
    assert methodName[0] == 'p';
    assert OccursAt(methodName, "percentile", 0);
    assert methodName[|"percentile"|..] == "_" + digits;
    RemoveAllAbsent("_" + digits, "percentile");
    assert RemoveAll(methodName, "percentile") == "_" + digits;
    assert Drop1("_" + digits) == digits;
    ParseIntToString(q);
  }

  /** Column `j` of the matrix. */
  function Column(m: Matrix, width: nat, j: nat): (col: seq<real>)
    requires Rectangular(m, width) && j < width
    ensures |col| == |m| && forall i :: 0 <= i < |m| ==> col[i] == m[i][j]
  {
    seq(|m|, i requires 0 <= i < |m| => m[i][j])
  }

  /** The reduction a method string selects, applied to one non-empty column: its value
      lies within the column's range. */
  function Reduce(kind: Reducer, col: seq<real>): (r: real)
    requires col != [] && (kind.PercentileOf? ==> 0 <= kind.q <= 100)
    ensures Sort(col)[0] <= r <= Sort(col)[|col| - 1]
  {
    match kind
    case MedianOf => Median(col)
    case MeanOf => MeanBounds(col); Mean(col)
    case PercentileOf(q) => Percentile(col, q)
  }

  /** `np.<reducer>(matrix, axis=0)`: each column of a non-empty matrix reduced. */
  function ReduceColumns(kind: Reducer, m: Matrix, width: nat): (r: seq<real>)
    requires Rectangular(m, width) && m != [] && (kind.PercentileOf? ==> 0 <= kind.q <= 100)
    ensures |r| == width && forall j :: 0 <= j < width ==> r[j] == Reduce(kind, Column(m, width, j))
  {
    seq(width, j requires 0 <= j < width => Reduce(kind, Column(m, width, j)))
  }

  /** `centroid(method)`: ValueError for an absent matrix, an unknown method, or a
      percentile outside 0..100; otherwise one value per column, the column reduced by
      the selected median, mean or percentile, which lies within the column's range. */
  function Centroid(m: Option<Matrix>, width: nat, methodName: string): (r: Result<Vector>)
    requires m.Some? ==> Rectangular(m.value, width)
    ensures m.None? ==> r == Err(ValueError)
    ensures m.Some? && ParseReducer(methodName).Err? ==> r == Err(ValueError)
    ensures r.Err? ==> r.error == ValueError
    ensures r.Ok? <==>
      && m.Some? && ParseReducer(methodName).Ok?
      && (ParseReducer(methodName).value.PercentileOf? ==> 0 <= ParseReducer(methodName).value.q <= 100)
    ensures r.Ok? && m.value != [] ==> |r.value| == width
    ensures r.Ok? && m.value != [] ==>
      forall j :: 0 <= j < width ==> r.value[j] == Reduce(ParseReducer(methodName).value, Column(m.value, width, j))
    ensures r.Ok? && m.value != [] ==>
      forall j :: 0 <= j < width ==>
        Sort(Column(m.value, width, j))[0] <= r.value[j] <= Sort(Column(m.value, width, j))[|m.value| - 1]
  {
    if m.None? then Err(ValueError)
    else
      match ParseReducer(methodName)
      case Err(e) => Err(e)
      case Ok(kind) =>
        if kind.PercentileOf? && !(0 <= kind.q <= 100) then Err(ValueError)
        else if m.value == [] then Ok([])
        else Ok(ReduceColumns(kind, m.value, width))
  }

  /** On a one-row matrix the median, the mean and every percentile return that row. */
  lemma SingleRowCentroid(row: Vector, methodName: string)
    requires ParseReducer(methodName).Ok?
    requires ParseReducer(methodName).value.PercentileOf? ==> 0 <= ParseReducer(methodName).value.q <= 100
    ensures Centroid(Some([row]), |row|, methodName) == Ok(row)
  {
    var kind := ParseReducer(methodName).value;
    var r := Centroid(Some([row]), |row|, methodName).value;
    forall j | 0 <= j < |row| ensures r[j] == row[j] {
      var col := Column([row], |row|, j);
      assert col == [row[j]];
      assert Sort(col) == [row[j]];
      match kind
      case MedianOf =>
      case MeanOf =>
        assert Sum(col) == row[j];
      case PercentileOf(q) =>
        assert Scaled(q, 1) == 0;
    }
    assert r == row;
  }
}
