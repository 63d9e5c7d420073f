/**
 * The thinning rule of `Euclidean.proximity_filter` (modules/distance.py:113-149), on the
 * boolean mask `distance_matrix > thresh`:
 *  - `bad_loc = np.where(mask)` lists the true cells in row-major order;
 *  - the concatenation of its row and column halves counts, for each sample, how often
 *    it takes part in a flagged pair;
 *  - samples counted more than twice are dropped (`bad_pts1`);
 *  - each sample counted exactly twice contributes the pair at its first occurrence, and
 *    the claims loop keeps the first sample of such a pair and drops its partner
 *    (`bad_pts2`), unless the first sample was itself already dropped;
 *  - the survivors are the sample numbers not dropped, in order (`np.delete`).
 */
module Proximity {
  import opened Outcomes
  import opened Draws

  type Mask = seq<seq<bool>>
  type Pair = (nat, nat)

  predicate Square(mask: Mask) {
    forall r :: 0 <= r < |mask| ==> |mask[r]| == |mask|
  }

  predicate Symmetric(mask: Mask)
    requires Square(mask)
  {
    forall r, c :: 0 <= r < |mask| && 0 <= c < |mask| ==> mask[r][c] == mask[c][r]
  }

  /** The number of true entries among the first `k` of `row`. */
  function CountTrue(row: seq<bool>, k: nat): nat
    requires k <= |row|
  {
    if k == 0 then 0 else CountTrue(row, k - 1) + (if row[k - 1] then 1 else 0)
  }

  /** How many samples are flagged against sample `v`. */
  function Degree(mask: Mask, v: nat): nat
    requires Square(mask) && v < |mask|
  {
    CountTrue(mask[v], |mask|)
  }

  lemma {:induction false} CountTrueOne(row: seq<bool>, k: nat, a: nat)
    requires a < k <= |row| && row[a]
    ensures CountTrue(row, k) >= 1
  {
    if a < k - 1 {
      CountTrueOne(row, k - 1, a);
    }
  }

  /** Two distinct true entries make a count of at least two. */
  lemma {:induction false} CountTrueTwo(row: seq<bool>, k: nat, a: nat, b: nat)
    requires a < b < k <= |row| && row[a] && row[b]
    ensures CountTrue(row, k) >= 2
  {
    if b < k - 1 {
      CountTrueTwo(row, k - 1, a, b);
    } else {
      CountTrueOne(row, k - 1, a);
    }
  }

  /** A sample flagged against exactly one other has a unique partner. */
  lemma UniquePartner(mask: Mask, v: nat, a: nat, b: nat)
    requires Square(mask) && v < |mask| && a < |mask| && b < |mask|
    requires Degree(mask, v) == 1 && mask[v][a] && mask[v][b]
    ensures a == b
  {
    if a < b {
      CountTrueTwo(mask[v], |mask|, a, b);
    } else if b < a {
      CountTrueTwo(mask[v], |mask|, b, a);
    }
  }

  /** The cells `(r, c)` of one row with `c < k` and the cell true, by increasing `c`. */
  function RowPairs(row: seq<bool>, r: nat, k: nat): seq<Pair>
    requires k <= |row|
  {
    if k == 0 then []
    else RowPairs(row, r, k - 1) + (if row[k - 1] then [(r, k - 1)] else [])
  }

  /** `np.where(mask)` over the first `k` rows, as a list of cells in row-major order. */
  function WhereUpTo(mask: Mask, k: nat): seq<Pair>
    requires Square(mask) && k <= |mask|
  {
    if k == 0 then [] else WhereUpTo(mask, k - 1) + RowPairs(mask[k - 1], k - 1, |mask|)
  }

  /** Every cell RowPairs lists lies in row `r`, below column `k`, and is true. */
  lemma {:induction false} RowPairsCells(row: seq<bool>, r: nat, k: nat)
    requires k <= |row|
    ensures forall i :: 0 <= i < |RowPairs(row, r, k)| ==>
      RowPairs(row, r, k)[i].0 == r && RowPairs(row, r, k)[i].1 < k && row[RowPairs(row, r, k)[i].1]
  {
    if k > 0 {
      RowPairsCells(row, r, k - 1);
      var init := RowPairs(row, r, k - 1);
      var tail: seq<Pair> := if row[k - 1] then [(r, k - 1)] else [];
      var ps := RowPairs(row, r, k);
      assert ps == init + tail;
      forall i | 0 <= i < |ps| ensures ps[i].0 == r && ps[i].1 < k && row[ps[i].1] {
        if i < |init| {
          assert ps[i] == init[i];
        } else {
          assert ps[i] == (r, k - 1);
        }
      }
    }
  }

  /** Every cell WhereUpTo lists lies below row `k` and is true. */
  lemma {:induction false} WhereUpToCells(mask: Mask, k: nat)
    requires Square(mask) && k <= |mask|
    ensures forall i :: 0 <= i < |WhereUpTo(mask, k)| ==>
      WhereUpTo(mask, k)[i].0 < k && WhereUpTo(mask, k)[i].1 < |mask| &&
      mask[WhereUpTo(mask, k)[i].0][WhereUpTo(mask, k)[i].1]
  {
    if k > 0 {
      WhereUpToCells(mask, k - 1);
      var init := WhereUpTo(mask, k - 1);
      var row := RowPairs(mask[k - 1], k - 1, |mask|);
      RowPairsCells(mask[k - 1], k - 1, |mask|);
      var ps := WhereUpTo(mask, k);
      assert ps == init + row;
      forall i | 0 <= i < |ps| ensures ps[i].0 < k && ps[i].1 < |mask| && mask[ps[i].0][ps[i].1] {
        if i < |init| {
          assert ps[i] == init[i];
        } else {
          assert ps[i] == row[i - |init|];
        }
      }
    }
  }

  function Where(mask: Mask): (ps: seq<Pair>)
    requires Square(mask)
    ensures forall i :: 0 <= i < |ps| ==> ps[i].0 < |mask| && ps[i].1 < |mask| && mask[ps[i].0][ps[i].1]
  {
    WhereUpToCells(mask, |mask|);
    WhereUpTo(mask, |mask|)
  }

  /** `bad_loc[0]`: the row of each cell. */
  function Firsts(ps: seq<Pair>): (xs: seq<nat>)
    ensures |xs| == |ps| && forall i :: 0 <= i < |ps| ==> xs[i] == ps[i].0
  {
    seq(|ps|, i requires 0 <= i < |ps| => ps[i].0)
  }

  /** `bad_loc[1]`: the column of each cell. */
  function Seconds(ps: seq<Pair>): (xs: seq<nat>)
    ensures |xs| == |ps| && forall i :: 0 <= i < |ps| ==> xs[i] == ps[i].1
  {
    seq(|ps|, i requires 0 <= i < |ps| => ps[i].1)
  }

  /** `np.concatenate(bad_loc)`. */
  function Concat(ps: seq<Pair>): seq<nat> {
    Firsts(ps) + Seconds(ps)
  }

  /** The values below `k` that occur more than twice, ascending: `uniq[count > 2]`. */
  function CrowdedUpTo(xs: seq<nat>, k: nat): (r: seq<nat>)
    ensures forall v :: v in r <==> v < k && multiset(xs)[v] > 2
    ensures forall i :: 0 <= i < |r| ==> r[i] < k
  {
    if k == 0 then []
    else CrowdedUpTo(xs, k - 1) + (if multiset(xs)[k - 1] > 2 then [k - 1] else [])
  }

  /** The values below `k` that occur exactly twice, ascending: `uniq[count == 2]`. */
  function PairedUpTo(xs: seq<nat>, k: nat): (r: seq<nat>)
    ensures forall v :: v in r <==> v < k && multiset(xs)[v] == 2
    ensures forall i :: 0 <= i < |r| ==> r[i] < k
    ensures Increasing(r)
  {
    if k == 0 then []
    else
      var init := PairedUpTo(xs, k - 1);
      if multiset(xs)[k - 1] == 2 then
        assert forall i :: 0 <= i < |init| ==> init[i] < k - 1;
        init + [k - 1]
      else init
  }

  /** The position of the first occurrence of `v`: np.unique's `return_index`. */
  function FirstIndex(xs: seq<nat>, v: nat): (i: nat)
    requires v in xs
    ensures i < |xs| && xs[i] == v && forall j :: 0 <= j < i ==> xs[j] != v
  {
    if xs[0] == v then 0 else 1 + FirstIndex(xs[1..], v)
  }

  /** `bad_pts2_tup_list`: for each value counted twice, the cell at its first occurrence;
      IndexError when that occurrence lies in the column half of the concatenation. */
  function PairTuples(ps: seq<Pair>, vs: seq<nat>): (r: Result<seq<Pair>>)
    requires forall k :: 0 <= k < |vs| ==> vs[k] in Concat(ps)
    ensures r.Ok? <==> forall k :: 0 <= k < |vs| ==> FirstIndex(Concat(ps), vs[k]) < |ps|
    ensures r.Err? ==> r.error == IndexError
    ensures r.Ok? ==> |r.value| == |vs| && forall k :: 0 <= k < |vs| ==>
      FirstIndex(Concat(ps), vs[k]) < |ps| && r.value[k] == ps[FirstIndex(Concat(ps), vs[k])]
  {
    if forall k :: 0 <= k < |vs| ==> FirstIndex(Concat(ps), vs[k]) < |ps| then
      Ok(seq(|vs|, k requires 0 <= k < |vs| => ps[FirstIndex(Concat(ps), vs[k])]))
    else Err(IndexError)
  }

  /** `bad_pts2`: walking the tuples in order, a tuple whose first sample has not been
      claimed yet claims its second sample. */
  function Claims(ts: seq<Pair>): (c: seq<nat>)
    ensures forall x :: x in c ==> exists i :: 0 <= i < |ts| && ts[i].1 == x
  {
    if ts == [] then []
    else
      var c := Claims(ts[..|ts| - 1]);
      var t := ts[|ts| - 1];
      if t.0 in c then c else c + [t.1]
  }

  /** The samples counted twice, ascending. */
  function Paired(mask: Mask): (vs: seq<nat>)
    requires Square(mask)
    ensures forall v :: v in vs <==> v < |mask| && multiset(Concat(Where(mask)))[v] == 2
    ensures Increasing(vs)
  {
    PairedUpTo(Concat(Where(mask)), |mask|)
  }

  /** The samples counted more than twice (`bad_pts1`). */
  function Crowded(mask: Mask): (vs: seq<nat>)
    requires Square(mask)
    ensures forall v :: v in vs <==> v < |mask| && multiset(Concat(Where(mask)))[v] > 2
  {
    CrowdedUpTo(Concat(Where(mask)), |mask|)
  }

  /** `bad_pts2_tup_list` for the mask. */
  function Tuples(mask: Mask): (r: Result<seq<Pair>>)
    requires Square(mask)
    ensures r.Err? ==> r.error == IndexError
    ensures r.Ok? ==> |r.value| == |Paired(mask)|
  {
    var vs := Paired(mask);
    assert forall k :: 0 <= k < |vs| ==> vs[k] in Concat(Where(mask)) by {
      forall k | 0 <= k < |vs| ensures vs[k] in Concat(Where(mask)) {
        assert vs[k] in vs;
        assert vs[k] in multiset(Concat(Where(mask)));
      }
    }
    PairTuples(Where(mask), vs)
  }

  /** The samples to drop: `bad_pts1 + bad_pts2`. */
  function Removed(mask: Mask): (r: Result<seq<nat>>)
    requires Square(mask)
    ensures r.Err? ==> r.error == IndexError
    ensures r.Ok? <==> Tuples(mask).Ok?
    ensures r.Ok? ==> forall x :: x in r.value <==> x in Crowded(mask) || x in Claims(Tuples(mask).value)
  {
    match Tuples(mask)
    case Err(e) => Err(e)
    case Ok(ts) => Ok(Crowded(mask) + Claims(ts))
  }

  lemma RangeIncreasing(n: nat)
    ensures Increasing(Range(n))
    ensures forall x: nat :: x in Range(n) <==> x < n
  {
    forall x: nat | x < n ensures x in Range(n) {
      assert Range(n)[x] == x;
    }
  }

  /** The loop that builds `bad_pts2` from `bad_pts2_tup_list`. */
  method CollectClaims(ts: seq<Pair>) returns (claims: seq<nat>)
    ensures claims == Claims(ts)
  {
    claims := [];
    var i := 0;
    while i < |ts|
      invariant 0 <= i <= |ts|
      invariant claims == Claims(ts[..i])
    {
      ClaimsPrefixStep(ts, i + 1);
      if ts[i].0 !in claims {
        claims := claims + [ts[i].1];
      }
      i := i + 1;
    }
    assert ts[..i] == ts;
  }

  /** The sample numbers that survive: `np.delete(range(n), bad_pts1 + bad_pts2)`,
      ascending. */
  function Survivors(mask: Mask): (r: Result<seq<nat>>)
    requires Square(mask)
    ensures r.Err? ==> r.error == IndexError
    ensures r.Ok? <==> Removed(mask).Ok?
    ensures r.Ok? ==> Increasing(r.value) && |r.value| <= |mask|
    ensures r.Ok? ==> forall x: nat :: x in r.value <==> x < |mask| && x !in Removed(mask).value
  {
    match Removed(mask)
    case Err(e) => Err(e)
    case Ok(bad) =>
      WithoutRange(|mask|, bad);
      Ok(Without(Range(|mask|), bad))
  }

  lemma WithoutRange(n: nat, bad: seq<nat>)
    ensures Increasing(Without(Range(n), bad)) && |Without(Range(n), bad)| <= n
    ensures forall x: nat :: x in Without(Range(n), bad) <==> x < n && x !in bad
  {
    RangeIncreasing(n);
  }

  // ---------------------------------------------------------------------------
  // Counting: on a symmetric mask every sample is counted twice per partner.

  /** How many rows below `k` flag column `v`. */
  function ColCount(mask: Mask, v: nat, k: nat): nat
    requires Square(mask) && v < |mask| && k <= |mask|
  {
    if k == 0 then 0 else ColCount(mask, v, k - 1) + (if mask[k - 1][v] then 1 else 0)
  }

  lemma FirstsAppend(a: seq<Pair>, b: seq<Pair>)
    ensures multiset(Firsts(a + b)) == multiset(Firsts(a)) + multiset(Firsts(b))
  {
    assert Firsts(a + b) == Firsts(a) + Firsts(b);
  }

  lemma SecondsAppend(a: seq<Pair>, b: seq<Pair>)
    ensures multiset(Seconds(a + b)) == multiset(Seconds(a)) + multiset(Seconds(b))
  {
    assert Seconds(a + b) == Seconds(a) + Seconds(b);
  }

  /** A list holding one value throughout counts it once per entry. */
  lemma {:induction false} ConstantCount(xs: seq<nat>, r: nat, v: nat)
    requires forall i :: 0 <= i < |xs| ==> xs[i] == r
    ensures multiset(xs)[v] == if v == r then |xs| else 0
  {
    if xs != [] {
      ConstantCount(xs[1..], r, v);
      assert xs == [xs[0]] + xs[1..];
    }
  }

  lemma {:induction false} RowPairsSize(row: seq<bool>, r: nat, k: nat)
    requires k <= |row|
    ensures |RowPairs(row, r, k)| == CountTrue(row, k)
  {
    if k > 0 {
      RowPairsSize(row, r, k - 1);
    }
  }

  lemma RowFirstsCount(row: seq<bool>, r: nat, k: nat, v: nat)
    requires k <= |row|
    ensures multiset(Firsts(RowPairs(row, r, k)))[v] == if v == r then CountTrue(row, k) else 0
  {
    RowPairsSize(row, r, k);
    RowPairsCells(row, r, k);
    ConstantCount(Firsts(RowPairs(row, r, k)), r, v);
  }

  lemma {:induction false} RowSecondsCount(row: seq<bool>, r: nat, k: nat, v: nat)
    requires k <= |row|
    ensures multiset(Seconds(RowPairs(row, r, k)))[v] == if v < k && row[v] then 1 else 0
  {
    if k > 0 {
      RowSecondsCount(row, r, k - 1, v);
      var init := RowPairs(row, r, k - 1);
      var tail: seq<Pair> := if row[k - 1] then [(r, k - 1)] else [];
      assert RowPairs(row, r, k) == init + tail;
      SecondsAppend(init, tail);
      assert multiset(Seconds(RowPairs(row, r, k)))[v] == multiset(Seconds(init))[v] + multiset(Seconds(tail))[v];
      assert multiset(Seconds(tail))[v] == if row[k - 1] && v == k - 1 then 1 else 0 by {
        if row[k - 1] {
          assert Seconds(tail) == [k - 1];
        } else {
          assert Seconds(tail) == [];
        }
      }
    }
  }

  lemma {:induction false} WhereFirstsCount(mask: Mask, k: nat, v: nat)
    requires Square(mask) && k <= |mask| && v < |mask|
    ensures multiset(Firsts(WhereUpTo(mask, k)))[v] == if v < k then Degree(mask, v) else 0
  {
    if k > 0 {
      WhereFirstsCount(mask, k - 1, v);
      WhereFirstsStep(mask, k, v);
    } else {
      assert Firsts(WhereUpTo(mask, k)) == [];
    }
  }

  /** Row `k - 1` adds the degree of `v` to its count in the row half when `v == k - 1`. */
  lemma WhereFirstsStep(mask: Mask, k: nat, v: nat)
    requires Square(mask) && 0 < k <= |mask| && v < |mask|
    requires multiset(Firsts(WhereUpTo(mask, k - 1)))[v] == if v < k - 1 then Degree(mask, v) else 0
    ensures multiset(Firsts(WhereUpTo(mask, k)))[v] == if v < k then Degree(mask, v) else 0
  {
    var init := WhereUpTo(mask, k - 1);
    var row := RowPairs(mask[k - 1], k - 1, |mask|);
    assert WhereUpTo(mask, k) == init + row;
    RowFirstsCount(mask[k - 1], k - 1, |mask|, v);
    FirstsAppend(init, row);
  }

  lemma {:induction false} WhereSecondsCount(mask: Mask, k: nat, v: nat)
    requires Square(mask) && k <= |mask| && v < |mask|
    ensures multiset(Seconds(WhereUpTo(mask, k)))[v] == ColCount(mask, v, k)
  {
    if k > 0 {
      WhereSecondsCount(mask, k - 1, v);
      WhereSecondsStep(mask, k, v);
    } else {
      assert Seconds(WhereUpTo(mask, k)) == [];
    }
  }

  /** Row `k - 1` adds one to the column-half count of `v` when it flags `v`. */
  lemma WhereSecondsStep(mask: Mask, k: nat, v: nat)
    requires Square(mask) && 0 < k <= |mask| && v < |mask|
    requires multiset(Seconds(WhereUpTo(mask, k - 1)))[v] == ColCount(mask, v, k - 1)
    ensures multiset(Seconds(WhereUpTo(mask, k)))[v] == ColCount(mask, v, k)
  {
    var init := WhereUpTo(mask, k - 1);
    var row := RowPairs(mask[k - 1], k - 1, |mask|);
    assert WhereUpTo(mask, k) == init + row;
    RowSecondsCount(mask[k - 1], k - 1, |mask|, v);
    SecondsAppend(init, row);
  }

  lemma {:induction false} SymmetricColCount(mask: Mask, v: nat, k: nat)
    requires Square(mask) && Symmetric(mask) && v < |mask| && k <= |mask|
    ensures ColCount(mask, v, k) == CountTrue(mask[v], k)
  {
    if k > 0 {
      SymmetricColCount(mask, v, k - 1);
      assert mask[k - 1][v] == mask[v][k - 1];
    }
  }

  /** On a symmetric mask a sample occurs in `np.concatenate(bad_loc)` twice for every
      sample flagged against it: once in the row half and once in the column half. */
  lemma OccurrencesTwiceDegree(mask: Mask, v: nat)
    requires Square(mask) && Symmetric(mask) && v < |mask|
    ensures multiset(Concat(Where(mask)))[v] == 2 * Degree(mask, v)
    ensures multiset(Firsts(Where(mask)))[v] == Degree(mask, v)
  {
    WhereFirstsCount(mask, |mask|, v);
    WhereSecondsCount(mask, |mask|, v);
    SymmetricColCount(mask, v, |mask|);
  }

  /** On a symmetric mask, a sample counted twice first occurs in the row half, at a cell
      that pairs it with the one sample flagged against it. */
  lemma PairedFirstCell(mask: Mask, v: nat)
    requires Square(mask) && Symmetric(mask) && v < |mask|
    requires multiset(Concat(Where(mask)))[v] == 2
    ensures v in Concat(Where(mask))
    ensures var ps := Where(mask); var loc := FirstIndex(Concat(ps), v);
      loc < |ps| && ps[loc].0 == v && mask[v][ps[loc].1] && Degree(mask, v) == 1
  {
    var ps := Where(mask);
    var xs := Concat(ps);
    OccurrencesTwiceDegree(mask, v);
    assert v in multiset(Firsts(ps));
    var j :| 0 <= j < |ps| && Firsts(ps)[j] == v;
    assert xs[j] == v;
    var loc := FirstIndex(xs, v);
    assert loc <= j;
    assert xs[loc] == Firsts(ps)[loc];
  }

  /** On a symmetric mask the filter never raises. */
  lemma SymmetricNoError(mask: Mask)
    requires Square(mask) && Symmetric(mask)
    ensures Survivors(mask).Ok?
  {
    var ps := Where(mask);
    var vs := Paired(mask);
    forall k | 0 <= k < |vs| ensures vs[k] in Concat(ps) && FirstIndex(Concat(ps), vs[k]) < |ps| {
      assert vs[k] in vs;
      PairedFirstCell(mask, vs[k]);
    }
  }

  /** On a symmetric mask the `i`-th tuple pairs the `i`-th sample counted twice with the
      one sample flagged against it. */
  lemma TupleAt(mask: Mask, i: nat)
    requires Square(mask) && Symmetric(mask) && Tuples(mask).Ok? && i < |Tuples(mask).value|
    ensures var vs := Paired(mask); var t := Tuples(mask).value[i];
      && i < |vs| && t.0 == vs[i] && t.1 < |mask| && mask[vs[i]][t.1] && Degree(mask, vs[i]) == 1
  {
    var vs := Paired(mask);
    assert vs[i] in vs;
    PairedFirstCell(mask, vs[i]);
  }

  lemma {:induction false} NonZeroCount(row: seq<bool>, k: nat)
    requires k <= |row| && CountTrue(row, k) != 0
    ensures exists c :: 0 <= c < k && row[c]
  {
    if !row[k - 1] {
      NonZeroCount(row, k - 1);
    }
  }

  /** A sample flagged against no other sample survives. */
  lemma IsolatedSurvives(mask: Mask, v: nat)
    requires Square(mask) && Symmetric(mask) && v < |mask|
    requires forall c :: 0 <= c < |mask| ==> !mask[v][c]
    ensures Survivors(mask).Ok? && v in Survivors(mask).value
  {
    SymmetricNoError(mask);
    if Degree(mask, v) != 0 {
      NonZeroCount(mask[v], |mask|);
    }
    OccurrencesTwiceDegree(mask, v);
  }

  /** A sample flagged against two or more samples is removed. */
  lemma CrowdedRemoved(mask: Mask, v: nat)
    requires Square(mask) && Symmetric(mask) && v < |mask|
    requires Degree(mask, v) >= 2
    ensures Survivors(mask).Ok? && v !in Survivors(mask).value
  {
    SymmetricNoError(mask);
    OccurrencesTwiceDegree(mask, v);
    assert v in Crowded(mask);
  }

  // ---------------------------------------------------------------------------
  // The claims loop.

  lemma ClaimsPrefixStep(ts: seq<Pair>, i: nat)
    requires 0 < i <= |ts|
    ensures ts[..i][..i - 1] == ts[..i - 1] && ts[..i][i - 1] == ts[i - 1]
  {
  }

  /** What an earlier prefix claims stays claimed. */
  lemma {:induction false} ClaimsGrow(ts: seq<Pair>, i: nat, j: nat)
    requires i <= j <= |ts|
    ensures forall x :: x in Claims(ts[..i]) ==> x in Claims(ts[..j])
    decreases j
  {
    if i < j {
      ClaimsGrow(ts, i, j - 1);
      ClaimsPrefixStep(ts, j);
    }
  }

  /** A claimed sample was claimed by some tuple whose first sample was unclaimed then. */
  lemma {:induction false} ClaimsSource(ts: seq<Pair>, x: nat) returns (i: nat)
    requires x in Claims(ts)
    ensures i < |ts| && ts[i].1 == x && ts[i].0 !in Claims(ts[..i])
    decreases |ts|
  {
    var n := |ts|;
    var init := ts[..n - 1];
    if x in Claims(init) {
      i := ClaimsSource(init, x);
      assert init[..i] == ts[..i];
    } else {
      i := n - 1;
      assert init == ts[..i];
    }
  }

  /** The tuple at position `i` claims its second sample when its first is unclaimed. */
  lemma ClaimsTake(ts: seq<Pair>, i: nat)
    requires i < |ts| && ts[i].0 !in Claims(ts[..i])
    ensures ts[i].1 in Claims(ts)
  {
    ClaimsPrefixStep(ts, i + 1);
    assert ts[i].1 in Claims(ts[..i + 1]);
    ClaimsGrow(ts, i + 1, |ts|);
    assert ts[..|ts|] == ts;
  }

  /** In a symmetric mask where `p` and `q` are flagged only against each other, `p` and
      `q` get the tuples `(p, q)` and `(q, p)`, and no other tuple names `p` second. */
  lemma MutualTuples(mask: Mask, p: nat, q: nat) returns (ip: nat, iq: nat)
    requires Square(mask) && Symmetric(mask) && p < q < |mask|
    requires mask[p][q] && Degree(mask, p) == 1 && Degree(mask, q) == 1
    ensures Tuples(mask).Ok?
    ensures var ts := Tuples(mask).value;
      && ip < iq < |ts| && ts[ip] == (p, q) && ts[iq] == (q, p)
      && forall i :: 0 <= i < |ts| && ts[i].1 == p ==> i == iq
  {
    SymmetricNoError(mask);
    var vs := Paired(mask);
    var ts := Tuples(mask).value;
    OccurrencesTwiceDegree(mask, p);
    OccurrencesTwiceDegree(mask, q);
    ip :| 0 <= ip < |vs| && vs[ip] == p;
    iq :| 0 <= iq < |vs| && vs[iq] == q;
    TupleAt(mask, ip);
    TupleAt(mask, iq);
    UniquePartner(mask, p, ts[ip].1, q);
    UniquePartner(mask, q, ts[iq].1, p);
    OnlyPartnerNames(mask, p, q, iq);
  }

  /** When `p` is flagged only against `q`, the tuple of `q` is the only one naming `p`
      second. */
  lemma OnlyPartnerNames(mask: Mask, p: nat, q: nat, iq: nat)
    requires Square(mask) && Symmetric(mask) && p < |mask| && q < |mask|
    requires mask[p][q] && Degree(mask, p) == 1 && Tuples(mask).Ok?
    requires iq < |Paired(mask)| && Paired(mask)[iq] == q
    ensures forall i :: 0 <= i < |Tuples(mask).value| && Tuples(mask).value[i].1 == p ==> i == iq
  {
    var vs := Paired(mask);
    var ts := Tuples(mask).value;
    forall i | 0 <= i < |ts| && ts[i].1 == p ensures i == iq {
      TupleAt(mask, i);
      assert mask[vs[i]][p] == mask[p][vs[i]];
      UniquePartner(mask, p, vs[i], q);
      assert vs[i] == vs[iq];
    }
  }

  /** When `p`'s tuple `(p, q)` comes before `q`'s tuple `(q, p)` and no other tuple names
      `p` second, the claims keep `p` and drop `q`. */
  lemma ClaimsOfMutual(ts: seq<Pair>, p: nat, q: nat, ip: nat, iq: nat)
    requires ip < iq < |ts| && ts[ip] == (p, q) && ts[iq] == (q, p)
    requires forall i :: 0 <= i < |ts| && ts[i].1 == p ==> i == iq
    ensures q in Claims(ts) && p !in Claims(ts)
  {
    // p is unclaimed when its tuple comes, so q is claimed.
    ClaimsTake(ts, ip);
    // p is never claimed: its only claimant is the tuple of q, whose first sample q is
    // already claimed by then.
    if p in Claims(ts) {
      var i := ClaimsSource(ts, p);
      ClaimsPrefixStep(ts, ip + 1);
      assert q in Claims(ts[..ip + 1]);
      ClaimsGrow(ts, ip + 1, iq);
      assert false;
    }
  }

  /** Two samples `p < q` flagged only against each other: `p` survives, `q` is removed. */
  lemma MutualPairKeepsLower(mask: Mask, p: nat, q: nat)
    requires Square(mask) && Symmetric(mask) && p < q < |mask|
    requires mask[p][q] && Degree(mask, p) == 1 && Degree(mask, q) == 1
    ensures Survivors(mask).Ok?
    ensures p in Survivors(mask).value && q !in Survivors(mask).value
  {
    var ip, iq := MutualTuples(mask, p, q);
    ClaimsOfMutual(Tuples(mask).value, p, q, ip, iq);
    OccurrencesTwiceDegree(mask, p);
  }

  /** When every sample is flagged against two or more others, none survives. */
  lemma AllCrowdedRemoved(mask: Mask)
    requires Square(mask) && Symmetric(mask)
    requires forall v :: 0 <= v < |mask| ==> Degree(mask, v) >= 2
    ensures Survivors(mask) == Ok([])
  {
    SymmetricNoError(mask);
    var s := Survivors(mask).value;
    if s != [] {
      assert s[0] in s;
      CrowdedRemoved(mask, s[0]);
      assert false;
    }
  }

  /** Two pairs of samples, each pair flagged against the other pair and not within
      itself: every sample is flagged against two others, so the filter keeps none. */
  lemma TwoClustersAllRemoved(mask: Mask)
    requires mask == TwoClusters()
    ensures Square(mask) && Symmetric(mask)
    ensures forall v :: 0 <= v < 4 ==> Degree(mask, v) == 2
    ensures Survivors(mask) == Ok([])
  {
    TwoClustersShape();
    AllCrowdedRemoved(mask);
  }

  /** The mask of two far-apart pairs of samples. */
  function TwoClusters(): (mask: Mask)
    ensures |mask| == 4
  {
    [[false, false, true, true], [false, false, true, true],
     [true, true, false, false], [true, true, false, false]]
  }

  /** That mask is square and symmetric, and flags every sample against two others. */
  lemma TwoClustersShape()
    ensures Square(TwoClusters()) && Symmetric(TwoClusters())
    ensures forall v :: 0 <= v < 4 ==> Degree(TwoClusters(), v) == 2
  {
    var mask := TwoClusters();
    assert Square(mask) && Symmetric(mask);
    TwoOfFour();
    assert mask[0] == mask[1] == [false, false, true, true];
    assert mask[2] == mask[3] == [true, true, false, false];
  }

  lemma TwoOfFour()
    ensures CountTrue([false, false, true, true], 4) == 2
    ensures CountTrue([true, true, false, false], 4) == 2
  {
    var a := [false, false, true, true];
    var b := [true, true, false, false];
    assert CountTrue(a, 2) == 0 && CountTrue(b, 2) == 2;
    assert CountTrue(a, 3) == 1 && CountTrue(b, 3) == 2;
  }
}
