/**
 * Sample records: Python dicts from field name to value. A dict remembers the order in
 * which its keys were first inserted (`list(d)` gives them in that order), so a record
 * is its key sequence together with the mapping.
 */
module Records {

  /** A field value: a number or a piece of text. */
  datatype Value = Num(x: real) | Text(s: string)

  datatype Record = Record(keys: seq<string>, fields: map<string, Value>) {

    /** The shape every Python dict has: each key listed once, and exactly the mapped keys. */
    ghost predicate WellFormed() {
      && (forall i, j :: 0 <= i < j < |keys| ==> keys[i] != keys[j])
      && (forall k :: k in fields <==> k in keys)
    }

    /** `len(d)`. */
    function Size(): nat {
      |keys|
    }
  }

  const Empty: Record := Record([], map[])

  /** `keys` with every occurrence of `k` taken out, the rest in order. */
  function RemoveKey(keys: seq<string>, k: string): (r: seq<string>)
    ensures forall x :: x in r <==> x in keys && x != k
    ensures |r| <= |keys|
  {
    if keys == [] then []
    else if keys[0] == k then RemoveKey(keys[1..], k)
    else [keys[0]] + RemoveKey(keys[1..], k)
  }

  /** `d[k] = v`: a new key goes to the end, an existing key keeps its place. */
  function Put(d: Record, k: string, v: Value): (r: Record)
    ensures k in r.fields && r.fields[k] == v
    ensures forall x :: x != k ==> (x in r.fields <==> x in d.fields)
    ensures forall x :: x != k && x in d.fields ==> r.fields[x] == d.fields[x]
    ensures d.WellFormed() ==> r.WellFormed()
    ensures d.WellFormed() && k !in d.fields ==> r.Size() == d.Size() + 1 && r.keys[..d.Size()] == d.keys
    ensures d.WellFormed() && k in d.fields ==> r.keys == d.keys
  {
    if k in d.fields then Record(d.keys, d.fields[k := v])
    else Record(d.keys + [k], d.fields[k := v])
  }

  /** `d.pop(k)` for a key the dict holds: the record left behind. */
  function Pop(d: Record, k: string): (r: Record)
    requires k in d.fields
    ensures k !in r.fields && forall x :: x != k ==> (x in r.fields <==> x in d.fields)
    ensures forall x :: x in r.fields ==> r.fields[x] == d.fields[x]
    ensures d.WellFormed() ==> r.WellFormed() && r.Size() == d.Size() - 1
  {
    RemoveKeyDistinct(d.keys, k);
    Record(RemoveKey(d.keys, k), d.fields - {k})
  }

  /** Taking a key out of a list without repetitions leaves a list without repetitions,
      one shorter when the key was there. */
  lemma {:induction false} RemoveKeyDistinct(keys: seq<string>, k: string)
    ensures (forall i, j :: 0 <= i < j < |keys| ==> keys[i] != keys[j]) ==>
      var r := RemoveKey(keys, k);
      && (forall i, j :: 0 <= i < j < |r| ==> r[i] != r[j])
      && (k in keys ==> |r| == |keys| - 1)
      && (k !in keys ==> |r| == |keys|)
  {
    if keys != [] && forall i, j :: 0 <= i < j < |keys| ==> keys[i] != keys[j] {
      RemoveKeyDistinct(keys[1..], k);
      var rest := RemoveKey(keys[1..], k);
      if keys[0] != k {
        assert keys[0] !in keys[1..];
        assert keys[0] !in rest;
        var r := [keys[0]] + rest;
        forall i, j | 0 <= i < j < |r| ensures r[i] != r[j] {
          if i == 0 {
            assert r[j] in rest;
          } else {
            assert r[i] == rest[i - 1] && r[j] == rest[j - 1];
          }
        }
      } else {
        assert k !in keys[1..];
      }
    }
  }

  /** `dict(zip(header, row))` built one pair at a time, over the first `n` pairs. */
  function ZipPrefix(header: seq<string>, row: seq<real>, n: nat): (r: Record)
    requires n <= |header| && n <= |row|
    decreases n
  {
    if n == 0 then Empty
    else Put(ZipPrefix(header, row, n - 1), header[n - 1], Num(row[n - 1]))
  }

  /** Zipping builds a proper dict. */
  lemma {:induction false} ZipWellFormed(header: seq<string>, row: seq<real>, n: nat)
    requires n <= |header| && n <= |row|
    ensures ZipPrefix(header, row, n).WellFormed()
  {
    if n > 0 {
      ZipWellFormed(header, row, n - 1);
      ZipStep(header, row, n);
      var prev := ZipPrefix(header, row, n - 1);
      assert Put(prev, header[n - 1], Num(row[n - 1])).WellFormed();
    }
  }

  /** `dict(zip(header, row))`: `zip` stops at the shorter of the two. */
  function Zip(header: seq<string>, row: seq<real>): (r: Record)
    ensures r.WellFormed()
  {
    var n := if |header| <= |row| then |header| else |row|;
    ZipWellFormed(header, row, n);
    ZipPrefix(header, row, n)
  }

  lemma PrefixSnoc<T>(s: seq<T>, n: nat)
    requires 0 < n <= |s|
    ensures s[..n] == s[..n - 1] + [s[n - 1]]
  {
  }

  /** In a list without repetitions, an entry does not occur before its own position. */
  lemma LastNotInPrefix(header: seq<string>, n: nat)
    requires 0 < n <= |header|
    requires forall i, j :: 0 <= i < j < |header| ==> header[i] != header[j]
    ensures header[n - 1] !in header[..n - 1]
  {
    var pre := header[..n - 1];
    forall i | 0 <= i < |pre| ensures pre[i] != header[n - 1] {
      assert pre[i] == header[i];
    }
  }

  /** One more pair of `dict(zip(header, row))`. */
  lemma ZipStep(header: seq<string>, row: seq<real>, n: nat)
    requires 0 < n <= |header| && n <= |row|
    ensures ZipPrefix(header, row, n) == Put(ZipPrefix(header, row, n - 1), header[n - 1], Num(row[n - 1]))
  {
  }

  /** A key the record lacks goes to the end of its key list. */
  lemma PutNewKey(d: Record, k: string, v: Value)
    requires k !in d.fields
    ensures Put(d, k, v).keys == d.keys + [k]
  {
  }

  /** Setting another key leaves the value of `x` alone. */
  lemma PutOtherKey(d: Record, k: string, v: Value, x: string)
    requires x != k && x in d.fields
    ensures x in Put(d, k, v).fields && Put(d, k, v).fields[x] == d.fields[x]
  {
  }

  /** Every key of the zipped record comes from the header. */
  lemma {:induction false} ZipFieldsFromHeader(header: seq<string>, row: seq<real>, n: nat, x: string)
    requires n <= |header| && n <= |row|
    requires x in ZipPrefix(header, row, n).fields
    ensures x in header[..n]
  {
    if n == 0 {
      assert false;
    }
    ZipStep(header, row, n);
    PrefixSnoc(header, n);
    if x != header[n - 1] {
      ZipFieldsFromHeader(header, row, n - 1, x);
    }
  }

  /** With distinct header names, the zipped record lists the paired names in header order;
      only the names beyond the row's length are dropped. */
  lemma {:induction false} ZipKeys(header: seq<string>, row: seq<real>, n: nat)
    requires n <= |header| && n <= |row|
    requires forall i, j :: 0 <= i < j < |header| ==> header[i] != header[j]
    ensures ZipPrefix(header, row, n).keys == header[..n]
  {
    if n > 0 {
      ZipKeys(header, row, n - 1);
      ZipLastKeyNew(header, row, n);
      ZipKeysStep(header, row, n);
    }
  }

  /** Zipping one more pair onto a record whose keys are the first names, the new name
      not among them, gives the keys one name further. */
  lemma ZipKeysStep(header: seq<string>, row: seq<real>, n: nat)
    requires 0 < n <= |header| && n <= |row|
    requires ZipPrefix(header, row, n - 1).keys == header[..n - 1]
    requires header[n - 1] !in ZipPrefix(header, row, n - 1).fields
    ensures ZipPrefix(header, row, n).keys == header[..n]
  {
    ZipStep(header, row, n);
    PutNewKey(ZipPrefix(header, row, n - 1), header[n - 1], Num(row[n - 1]));
    PrefixSnoc(header, n);
  }

  /** With distinct header names, the next name is not yet a key of the record zipped
      so far. */
  lemma ZipLastKeyNew(header: seq<string>, row: seq<real>, n: nat)
    requires 0 < n <= |header| && n <= |row|
    requires forall i, j :: 0 <= i < j < |header| ==> header[i] != header[j]
    ensures header[n - 1] !in ZipPrefix(header, row, n - 1).fields
  {
    LastNotInPrefix(header, n);
    if header[n - 1] in ZipPrefix(header, row, n - 1).fields {
      ZipFieldsFromHeader(header, row, n - 1, header[n - 1]);
      assert false;
    }
  }

  /** When no later header entry repeats the name at position `j`, that name maps to the
      value at position `j`. */
  lemma {:induction false} ZipValues(header: seq<string>, row: seq<real>, n: nat, j: nat)
    requires j < n <= |header| && n <= |row|
    requires forall m :: j < m < n ==> header[m] != header[j]
    ensures header[j] in ZipPrefix(header, row, n).fields
    ensures ZipPrefix(header, row, n).fields[header[j]] == Num(row[j])
  {
    ZipStep(header, row, n);
    if j < n - 1 {
      ZipValues(header, row, n - 1, j);
      PutOtherKey(ZipPrefix(header, row, n - 1), header[n - 1], Num(row[n - 1]), header[j]);
    }
  }
}
