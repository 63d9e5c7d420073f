/**
 * The statements of modules/samples.py and modules/distance.py that cannot do what their
 * surroundings intend, modelled as they stand. The rest of the model uses the intended
 * behaviour; each member here is set beside it by a lemma on a concrete input.
 */
module AsWritten {
  import opened Outcomes
  import opened Records
  import opened Text
  import opened ColumnNames
  import opened SampleStore
  import opened Vectors
  import opened DistanceEngine

  // ---------------------------------------------------------------------------
  // delete_column (samples.py:94): the list is rebound to the popped values.

  /** `list(samp.pop(column_name) for samp in self.samples)`: the values taken out, which
      replace the records. */
  function DeleteAsWritten(recs: seq<Record>, key: string): (r: Result<seq<Value>>)
    ensures r.Err? ==> r.error == KeyError
    ensures r.Ok? <==> forall i :: 0 <= i < |recs| ==> key in recs[i].fields
    ensures r.Ok? ==> |r.value| == |recs| && forall i :: 0 <= i < |recs| ==>
      key in recs[i].fields && r.value[i] == recs[i].fields[key]
  {
    if forall i :: 0 <= i < |recs| ==> key in recs[i].fields then
      Ok(seq(|recs|, i requires 0 <= i < |recs| => recs[i].fields[key]))
    else Err(KeyError)
  }

  /** Deleting `x` from `{x: 1, y: 2}, {x: 3, y: 4}` leaves the samples `1, 3`, where the
      records `{y: 2}, {y: 4}` were meant. */
  lemma DeleteLeavesPoppedValues()
    ensures var a := Record(["x", "y"], map["x" := Num(1.0), "y" := Num(2.0)]);
      var b := Record(["x", "y"], map["x" := Num(3.0), "y" := Num(4.0)]);
      && DeleteAsWritten([a, b], "x") == Ok([Num(1.0), Num(3.0)])
      && Pop(a, "x").fields == map["y" := Num(2.0)]
      && Pop(b, "x").fields == map["y" := Num(4.0)]
  {
    var a := Record(["x", "y"], map["x" := Num(1.0), "y" := Num(2.0)]);
    var b := Record(["x", "y"], map["x" := Num(3.0), "y" := Num(4.0)]);
    assert a.fields - {"x"} == map["y" := Num(2.0)];
    assert b.fields - {"x"} == map["y" := Num(4.0)];
    assert DeleteAsWritten([a, b], "x").value == [Num(1.0), Num(3.0)];
  }

  // ---------------------------------------------------------------------------
  // add_column (samples.py:121-144).

  /** The name add_column picks as written: the `else` of samples.py:133 belongs to
      `if column_name is None`, so a supplied name becomes `added_column_1`, and with no
      numbered column yet `added_num_list[0]` raises IndexError. */
  function NameAsWritten(samples: Option<seq<Record>>, name: Option<string>): (r: Result<string>)
    ensures name.Some? ==> r == Ok(Prefix + "1")
    ensures name.None? && r.Ok? ==> r == ColumnToAdd(samples, name)
  {
    if name.Some? then Ok(Prefix + "1")
    else if samples.None? then Err(TypeError)
    else if samples.value == [] then Err(IndexError)
    else
      match AddedNumbers(samples.value[0].keys)
      case Err(e) => Err(e)
      case Ok(ns) =>
        if ns == [] then Err(IndexError) else Ok(Prefix + IntToString(Max(ns) + 1))
  }

  /** A supplied name is replaced, and the first generated name raises, where the intended
      name is the supplied one and `added_column_1` respectively. */
  lemma NameAsWrittenDiffers()
    ensures var rec := Record(["x"], map["x" := Num(1.0)]);
      && NameAsWritten(Some([rec]), Some("z")) == Ok("added_column_1")
      && ColumnToAdd(Some([rec]), Some("z")) == Ok("z")
      && NameAsWritten(Some([rec]), None) == Err(IndexError)
      && ColumnToAdd(Some([rec]), None) == Ok("added_column_1")
  {
    var rec := Record(["x"], map["x" := Num(1.0)]);
    assert !Contains("x", Marker) by {
      NoOccurrenceWithoutFirstChar("x", Marker, 0);
    }
    assert AddedNumbers(["x"]) == Ok([]) by {
      assert ["x"][..0] == [];
    }
    assert IntToString(1) == "1" by {
      assert NatToString(1) == [DigitChar(1)];
    }
    assert Prefix + "1" == "added_column_1";
  }

  /** add_column as written: no exception for missing data (samples.py:122 builds a
      RuntimeError without raising it), and `for i, samp in self.samples` (samples.py:137)
      unpacks each record's keys, so the first record raises ValueError unless it has
      exactly two keys, and AttributeError (`str.items`) when it has. Only an empty list
      gets through, unchanged. */
  function AddColumnAsWritten(samples: Option<seq<Record>>, name: Option<string>, data: Option<seq<Value>>): (r: Result<seq<Record>>)
    ensures r.Ok? <==> NameAsWritten(samples, name).Ok? && samples == Some([])
    ensures r.Ok? ==> r.value == []
  {
    match NameAsWritten(samples, name)
    case Err(e) => Err(e)
    case Ok(_) =>
      if samples.None? then Err(TypeError)
      else if samples.value == [] then Ok([])
      else if samples.value[0].Size() == 2 then Err(AttributeError)
      else Err(ValueError)
  }

  /** Missing data is not reported, and a record is never extended: on one two-key record
      with a supplied name and value the call fails. */
  lemma AddColumnAsWrittenFails()
    ensures AddColumnAsWritten(Some([]), Some("z"), None) == Ok([])
    ensures var rec := Record(["x", "y"], map["x" := Num(1.0), "y" := Num(2.0)]);
      AddColumnAsWritten(Some([rec]), Some("z"), Some([Num(5.0)])) == Err(AttributeError)
  {
  }

  // ---------------------------------------------------------------------------
  // make_folds (samples.py:269-270): a Python list indexed by a numpy boolean mask.

  /** make_folds as written: `n // k` raises ZeroDivisionError for `k == 0`, a negative
      `k` gives no folds, and otherwise the first fold's `self.index[~np.in1d(...)]`
      indexes a list with an array, a TypeError. */
  function MakeFoldsAsWritten(c: Collection, k: int): (r: Result<seq<(Collection, Collection)>>)
    ensures r.Ok? <==> k < 0
    ensures k > 0 ==> r == Err(TypeError)
  {
    if k == 0 then Err(ZeroDivisionError)
    else if k < 0 then Ok([])
    else Err(TypeError)
  }

  /** No positive fold count gives folds as written, while on the same instance the
      intended make_folds draws one validation fold per requested fold. */
  lemma FoldsAsWrittenNeverBuilt(c: Collection, k: int, perms: seq<seq<nat>>)
    requires c.Valid() && k >= 1 && Fits(c.index, FoldSizes(c.nsamp, k), perms)
    ensures MakeFoldsAsWritten(c, k).Err?
    ensures |ValidationFolds(c.index, FoldSizes(c.nsamp, k), perms)| == k
  {
    MakeFoldsPartition(c, k, perms);
  }

  // ---------------------------------------------------------------------------
  // Distance.__init__ (distance.py:23-25): names read before they are assigned.

  /** The constructor as written: `len(samples)` (TypeError for None), then
      `len(self.names)` before `self.names` exists: AttributeError. */
  function SetupAsWritten(samples: Option<seq<Record>>, names: Option<seq<string>>): (r: Result<Matrix>)
    ensures r.Err?
    ensures samples.Some? ==> r.error == AttributeError
  {
    if samples.None? then Err(TypeError) else Err(AttributeError)
  }

  /** One record with one named coordinate: the intended constructor builds the 1x1
      matrix, the written one raises. */
  lemma SetupAsWrittenRaises()
    ensures var rec := Record(["x"], map["x" := Num(1.0)]);
      && Setup(Some([rec]), Some(["x"])) == Ok([[1.0]])
      && SetupAsWritten(Some([rec]), Some(["x"])) == Err(AttributeError)
  {
    var rec := Record(["x"], map["x" := Num(1.0)]);
    var r := Project([rec], ["x"]);
    assert r.Ok?;
    assert r.value[0][0] == 1.0;
    assert r.value[0] == [1.0];
    assert r.value == [[1.0]];
  }

  // ---------------------------------------------------------------------------
  // calc_dist_matrix (distance.py:96-107): the stacked tiles do not line up.

  /** The shape of a three-dimensional array. */
  datatype Shape = Shape(depth: nat, rows: nat, cols: nat)

  /** `np.vstack` of two three-dimensional arrays: they must agree past the first axis. */
  function VStack(a: Shape, b: Shape): (r: Option<Shape>)
    ensures r.Some? <==> a.rows == b.rows && a.cols == b.cols
    ensures r.Some? ==> r.value.depth == a.depth + b.depth
  {
    if a.rows == b.rows && a.cols == b.cols then Some(Shape(a.depth + b.depth, a.rows, a.cols))
    else None
  }

  /** `np.tile(column[:, np.newaxis], (1, n))[np.newaxis]`. */
  function Tile(n: nat): Shape {
    Shape(1, n, n)
  }

  /** `.T` of a three-dimensional array reverses its axes. */
  function Transpose(s: Shape): Shape {
    Shape(s.cols, s.rows, s.depth)
  }

  /** The two stacking loops of calc_dist_matrix, on shapes: the result is None when a
      `vstack` fails or nothing was stacked. They succeed only for a single sample. */
  method StackShapeAsWritten(nsamp: nat, nvar: nat) returns (out: Option<Shape>)
    ensures out.Some? <==> nvar >= 1 && nsamp == 1
    ensures out.Some? ==> out.value == Shape(2 * nvar, 1, 1)
  {
    var stack: Option<Shape> := None;
    var ii := 0;
    while ii < nvar
      invariant 0 <= ii <= nvar
      invariant stack == if ii == 0 then None else Some(Shape(ii, nsamp, nsamp))
    {
      var tile := Tile(nsamp);
      if ii == 0 {
        stack := Some(tile);
      } else {
        stack := VStack(stack.value, tile);
      }
      ii := ii + 1;
    }
    if stack.None? {
      // Nothing was stacked: `np.apply_along_axis` gets no array.
      return None;
    }
    var jj := 0;
    while jj < nvar
      invariant 0 <= jj <= nvar
      invariant stack == Some(Shape(nvar + jj, nsamp, nsamp))
      invariant jj > 0 ==> nsamp == 1
    {
      stack := VStack(stack.value, Transpose(Tile(nsamp)));
      if stack.None? {
        return None;
      }
      jj := jj + 1;
    }
    return stack;
  }
}
