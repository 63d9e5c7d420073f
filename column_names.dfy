/**
 * The name `Samples.add_column` gives a new column when the caller supplies none:
 * `added_column_<n>`, where `n` is one more than the largest number already used by a
 * column of the first record (samples.py:123-134).
 */
module ColumnNames {
  import opened Outcomes
  import opened Text

  const Marker: string := "added_column"
  const Prefix: string := "added_column_"

  /** The numbers of the earlier added columns among `keys`, collected in key order: each
      key containing `added_column` contributes `int(key.split('added_column_')[1])`,
      raising IndexError when there is no `added_column_` to split on and ValueError when
      the piece is not an integer literal. */
  function AddedNumbers(keys: seq<string>): (r: Result<seq<int>>)
    ensures r.Err? ==> r.error == IndexError || r.error == ValueError
    ensures r.Ok? ==> |r.value| <= |keys|
  {
    if keys == [] then Ok([])
    else
      match AddedNumbers(keys[..|keys| - 1])
      case Err(e) => Err(e)
      case Ok(ns) =>
        var k := keys[|keys| - 1];
        if !Contains(k, Marker) then Ok(ns)
        else
          match SplitSecond(k, Prefix)
          case None => Err(IndexError)
          case Some(piece) =>
            match ParseInt(piece)
            case None => Err(ValueError)
            case Some(v) => Ok(ns + [v])
  }

  /** `sorted(ns, reverse=True)[0]`. */
  function Max(ns: seq<int>): (m: int)
    requires ns != []
    ensures m in ns && forall x :: x in ns ==> x <= m
  {
    if |ns| == 1 then ns[0]
    else
      var m := Max(ns[1..]);
      assert forall x :: x in ns ==> x == ns[0] || x in ns[1..];
      if ns[0] > m then ns[0] else m
  }

  /** `v` is the number a new column takes after the numbers `ns`: above all of them, one
      more than the largest, and 1 when there are none. */
  predicate IsNextNumber(ns: seq<int>, v: int) {
    && (forall w :: w in ns ==> w < v)
    && (ns == [] ==> v == 1)
    && (ns != [] ==> v - 1 in ns)
  }

  /** The column name add_column uses: the supplied one, or the next `added_column_<n>`
      (`added_column_1` when no numbered column exists yet). */
  function NewColumnName(keys: seq<string>, name: Option<string>): (r: Result<string>)
    ensures name.Some? ==> r == Ok(name.value)
    ensures name.None? ==> (r.Ok? <==> AddedNumbers(keys).Ok?)
    ensures name.None? && r.Err? ==> r.error == AddedNumbers(keys).error
    ensures name.None? && r.Ok? ==>
      exists v :: r.value == Prefix + IntToString(v) && IsNextNumber(AddedNumbers(keys).value, v)
  {
    match name
    case Some(n) => Ok(n)
    case None =>
      match AddedNumbers(keys)
      case Err(e) => Err(e)
      case Ok(ns) =>
        var v := if ns == [] then 1 else Max(ns) + 1;
        assert IsNextNumber(ns, v);
        Ok(Prefix + IntToString(v))
  }

  /** Every key that parses as an added column contributes its number to AddedNumbers. */
  lemma {:induction false} NumberCollected(keys: seq<string>, i: nat, v: int)
    requires AddedNumbers(keys).Ok?
    requires i < |keys| && Contains(keys[i], Marker)
    requires SplitSecond(keys[i], Prefix).Some? && ParseInt(SplitSecond(keys[i], Prefix).value) == Some(v)
    ensures v in AddedNumbers(keys).value
  {
    var init := keys[..|keys| - 1];
    if i < |keys| - 1 {
      assert init[i] == keys[i];
      NumberCollected(init, i, v);
    }
  }

  /** `added_column_<str(v)>` parses back to the number `v`. */
  lemma NumberedNameParses(v: int)
    ensures Contains(Prefix + IntToString(v), Marker)
    ensures SplitSecond(Prefix + IntToString(v), Prefix) == Some(IntToString(v))
    ensures ParseInt(IntToString(v)) == Some(v)
  {
    var name := Prefix + IntToString(v);
    assert OccursAt(name, Marker, 0);
    assert OccursAt(name, Prefix, 0);
    var rest := IntToString(v);
    assert name[|Prefix|..] == rest;
    NoOccurrenceWithoutFirstChar(rest, Prefix, 0);
    ParseIntToString(v);
  }

  /** A generated name never clashes with a column of the first record: its number is
      larger than every number already in use. */
  lemma AutoNameIsFresh(keys: seq<string>)
    requires NewColumnName(keys, None).Ok?
    ensures NewColumnName(keys, None).value !in keys
  {
    var ns := AddedNumbers(keys).value;
    var v := if ns == [] then 1 else Max(ns) + 1;
    var name := Prefix + IntToString(v);
    if name in keys {
      var i :| 0 <= i < |keys| && keys[i] == name;
      NumberedNameParses(v);
      NumberCollected(keys, i, v);
      assert false;
    }
  }
}
