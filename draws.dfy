/**
 * Index lists and random draws. `np.random.choice(pool, size, replace=False)` draws by
 * taking the first `size` entries of a random permutation of the pool's positions; the
 * permutation is a parameter here, so every property below holds for every draw.
 */
module Draws {
  import opened Outcomes

  /** `list(range(n))`. */
  function Range(n: nat): (r: seq<nat>)
    ensures |r| == n && forall i :: 0 <= i < n ==> r[i] == i
  {
    seq(n, i requires 0 <= i < n => i)
  }

  predicate Distinct<T(==)>(s: seq<T>) {
    forall i, j :: 0 <= i < j < |s| ==> s[i] != s[j]
  }

  predicate Increasing(s: seq<nat>) {
    forall i, j :: 0 <= i < j < |s| ==> s[i] < s[j]
  }

  /** `perm` lists each of `0 .. n-1` exactly once. */
  predicate IsPermutation(perm: seq<nat>, n: nat) {
    |perm| == n && Distinct(perm) && forall i :: 0 <= i < n ==> perm[i] < n
  }

  /** The first `size` entries of the pool permuted by `perm`. */
  function Take(pool: seq<nat>, size: nat, perm: seq<nat>): (r: seq<nat>)
    requires IsPermutation(perm, |pool|) && size <= |pool|
    ensures |r| == size
    ensures forall x :: x in r ==> x in pool
    ensures Distinct(pool) ==> Distinct(r)
  {
    var r := seq(size, i requires 0 <= i < size => pool[perm[i]]);
    assert forall x :: x in r ==> x in pool by {
      forall x | x in r ensures x in pool {
        var i :| 0 <= i < size && r[i] == x;
        assert pool[perm[i]] == x;
      }
    }
    r
  }

  /** `np.random.choice(pool, size, replace=False)`: ValueError for a negative size or
      one larger than the pool. */
  function Choice(pool: seq<nat>, size: int, perm: seq<nat>): (r: Result<seq<nat>>)
    requires IsPermutation(perm, |pool|)
    ensures r.Ok? <==> 0 <= size <= |pool|
    ensures r.Err? ==> r.error == ValueError
    ensures r.Ok? ==> |r.value| == size && forall x :: x in r.value ==> x in pool
    ensures r.Ok? && Distinct(pool) ==> Distinct(r.value)
  {
    if size < 0 || size > |pool| then Err(ValueError) else Ok(Take(pool, size, perm))
  }

  /** `s[~np.in1d(s, removed)]`: the entries of `s` not in `removed`, in their order. */
  function Without(s: seq<nat>, removed: seq<nat>): (r: seq<nat>)
    ensures forall x :: x in r <==> x in s && x !in removed
    ensures |r| <= |s|
    ensures Distinct(s) ==> Distinct(r)
    ensures Increasing(s) ==> Increasing(r)
  {
    if s == [] then []
    else
      var rest := Without(s[1..], removed);
      assert Distinct(s) ==> s[0] !in s[1..];
      assert Increasing(s) ==> Increasing([s[0]] + rest) by {
        if Increasing(s) {
          assert Increasing(s[1..]) by {
            forall i, j | 0 <= i < j < |s[1..]| ensures s[1..][i] < s[1..][j] {
              assert s[1..][i] == s[i + 1] && s[1..][j] == s[j + 1];
            }
          }
          forall x | x in rest ensures s[0] < x {
            var i :| 1 <= i < |s| && s[i] == x;
          }
          var t := [s[0]] + rest;
          forall i, j | 0 <= i < j < |t| ensures t[i] < t[j] {
            if i > 0 {
              assert t[i] == rest[i - 1] && t[j] == rest[j - 1];
            } else {
              assert t[j] in rest;
            }
          }
        }
      }
      if s[0] in removed then rest else [s[0]] + rest
  }

  function Elements(s: seq<nat>): set<nat> {
    set x | x in s
  }

  /** A list without repetitions has as many elements as its set. */
  lemma {:induction false} DistinctCard(s: seq<nat>)
    requires Distinct(s)
    ensures |Elements(s)| == |s|
  {
    if s != [] {
      DistinctCard(s[1..]);
      assert s[0] !in s[1..];
      assert Elements(s) == {s[0]} + Elements(s[1..]);
    }
  }

  /** Removing a duplicate-free sub-list from a duplicate-free list leaves the others. */
  lemma WithoutCount(s: seq<nat>, removed: seq<nat>)
    requires Distinct(s) && Distinct(removed)
    requires forall x :: x in removed ==> x in s
    ensures |Without(s, removed)| == |s| - |removed|
  {
    var w := Without(s, removed);
    DistinctCard(s);
    DistinctCard(removed);
    DistinctCard(w);
    assert Elements(w) == Elements(s) - Elements(removed);
    assert Elements(removed) <= Elements(s);
  }

  /** An increasing list of naturals below `bound` has at most `bound` entries. */
  lemma {:induction false} IncreasingBounded(s: seq<nat>, bound: nat)
    requires Increasing(s)
    requires forall k :: 0 <= k < |s| ==> s[k] < bound
    ensures |s| <= bound
  {
    if s != [] {
      var last := s[|s| - 1];
      var init := s[..|s| - 1];
      forall k | 0 <= k < |init| ensures init[k] < last {
        assert init[k] == s[k];
      }
      IncreasingBounded(init, last);
    }
  }
}
