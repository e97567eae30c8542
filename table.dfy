/**
 * The data frames that the report normaliser handles (app.py).
 *
 * A frame is a sequence of column labels and a sequence of rows. A label is
 * a cell value, as in pandas, where a label may be a string, an integer or
 * NaN. This module holds the frame operations that app.py applies by name:
 * `frame[key]`, `frame[key] = values` and `frame.columns = labels`.
 */
module Table {
  import opened Wrappers

  /** A cell: a string, a (non-negative) integer, or NaN / None. */
  datatype Cell = Str(s: string) | Num(n: nat) | Absent

  datatype Frame = Frame(columns: seq<Cell>, rows: seq<seq<Cell>>)
  {
    /** Every row has one cell per column, as in every pandas frame. */
    predicate Rectangular()
    {
      forall i :: 0 <= i < |rows| ==> |rows[i]| == |columns|
    }
  }

  /** The exceptions the modelled code can raise. */
  datatype Error =
    | TableIndexError                              // indexing the extractor's table list out of range
    | DropKeyError(missing: seq<int>)              // `drop(columns=...)` names labels the frame lacks
    | LengthMismatch(expected: nat, given: nat)    // `frame.columns = labels` with the wrong count
    | ColumnKeyError(key: Cell)                  // `frame[key]` with no such column
    | AmbiguousColumn(key: Cell)                 // `frame[key]` with a duplicated key
    | NotAString                                   // `re.search` applied to a value that is not a string

  /** The labels `range(n)`. */
  function Positions(n: nat): seq<Cell>
  {
    seq(n, k requires 0 <= k < n => Num(k))
  }

  /** How many times `x` occurs among `labels`. */
  function Count(labels: seq<Cell>, x: Cell): nat
  {
    if labels == [] then 0 else (if labels[0] == x then 1 else 0) + Count(labels[1..], x)
  }

  lemma {:induction false} CountZero(labels: seq<Cell>, x: Cell)
    ensures Count(labels, x) == 0 <==> x !in labels
  {
    if labels != [] {
      CountZero(labels[1..], x);
      assert labels == [labels[0]] + labels[1..];
    }
  }

  /** The position of the first occurrence of `x`. */
  function IndexOf(labels: seq<Cell>, x: Cell): (k: nat)
    requires x in labels
    ensures k < |labels| && labels[k] == x
    ensures forall j :: 0 <= j < k ==> labels[j] != x
  {
    if labels[0] == x then 0 else 1 + IndexOf(labels[1..], x)
  }

  /** A label that occurs once sits at exactly one position. */
  lemma {:induction false} CountOneUnique(labels: seq<Cell>, x: Cell, j: int)
    requires Count(labels, x) == 1 && 0 <= j < |labels| && labels[j] == x
    ensures j == IndexOf(labels, x)
  {
    if labels[0] == x {
      if j > 0 {
        CountZero(labels[1..], x);
      }
    } else {
      CountOneUnique(labels[1..], x, j - 1);
    }
  }

  lemma CountOneAll(labels: seq<Cell>, x: Cell)
    requires Count(labels, x) == 1
    ensures x in labels
    ensures forall j :: 0 <= j < |labels| && labels[j] == x ==> j == IndexOf(labels, x)
  {
    CountZero(labels, x);
    forall j | 0 <= j < |labels| && labels[j] == x
      ensures j == IndexOf(labels, x)
    {
      CountOneUnique(labels, x, j);
    }
  }

  /**
   * `frame[key]`: the column that carries `key`. A missing label raises
   * KeyError; a duplicated label yields a frame rather than a column, on which
   * the per-cell extractors of app.py then fail, so it is an error here too.
   */
  function Lookup(f: Frame, key: Cell): (r: Result<seq<Cell>, Error>)
    requires f.Rectangular()
    ensures r.Ok? <==> Count(f.columns, key) == 1
    ensures r.Err? ==> r.error == if key in f.columns then AmbiguousColumn(key) else ColumnKeyError(key)
    ensures r.Ok? ==> |r.value| == |f.rows|
    ensures r.Ok? ==> forall i, k :: 0 <= i < |f.rows| && 0 <= k < |f.columns| && f.columns[k] == key ==>
                         r.value[i] == f.rows[i][k]
  {
    CountZero(f.columns, key);
    var c := Count(f.columns, key);
    if c == 0 then Err(ColumnKeyError(key))
    else if c > 1 then Err(AmbiguousColumn(key))
    else
      CountOneAll(f.columns, key);
      var k := IndexOf(f.columns, key);
      Ok(seq(|f.rows|, i requires 0 <= i < |f.rows| => f.rows[i][k]))
  }

  /**
   * `frame[key] = values`: every column that carries `key` is overwritten
   * with `values`; when there is none, a new column is appended at the end.
   */
  function AssignColumn(f: Frame, key: Cell, values: seq<Cell>): (r: Frame)
    requires f.Rectangular() && |values| == |f.rows|
    ensures r.Rectangular() && |r.rows| == |f.rows|
    ensures r.columns == if key in f.columns then f.columns else f.columns + [key]
    ensures forall i, k :: 0 <= i < |f.rows| && 0 <= k < |f.columns| ==>
              r.rows[i][k] == if f.columns[k] == key then values[i] else f.rows[i][k]
    ensures key !in f.columns ==> forall i :: 0 <= i < |f.rows| ==> r.rows[i][|f.columns|] == values[i]
  {
    if key in f.columns then
      Frame(f.columns, seq(|f.rows|, i requires 0 <= i < |f.rows| =>
        seq(|f.columns|, k requires 0 <= k < |f.columns| => if f.columns[k] == key then values[i] else f.rows[i][k])))
    else
      Frame(f.columns + [key], seq(|f.rows|, i requires 0 <= i < |f.rows| => f.rows[i] + [values[i]]))
  }

  /** Reading back a column just assigned gives the assigned values, unless the label was duplicated. */
  lemma AssignThenLookup(f: Frame, key: Cell, values: seq<Cell>)
    requires f.Rectangular() && |values| == |f.rows| && Count(f.columns, key) <= 1
    ensures Lookup(AssignColumn(f, key, values), key) == Ok(values)
  {
    var r := AssignColumn(f, key, values);
    CountZero(f.columns, key);
    if key in f.columns {
      assert Count(r.columns, key) == 1;
      var k := IndexOf(f.columns, key);
      assert Lookup(r, key).value == values;
    } else {
      CountAppend(f.columns, [key], key);
      CountZero([key][1..], key);
      assert Count(r.columns, key) == 1;
      var v := Lookup(r, key).value;
      assert forall i :: 0 <= i < |values| ==> v[i] == r.rows[i][|f.columns|];
      assert v == values;
    }
  }

  /** Assigning a column under one label leaves the column under any other label as it was. */
  lemma AssignOtherLookup(f: Frame, key: Cell, values: seq<Cell>, other: Cell)
    requires f.Rectangular() && |values| == |f.rows| && other != key
    ensures Lookup(AssignColumn(f, key, values), other) == Lookup(f, other)
  {
    var r := AssignColumn(f, key, values);
    if key !in f.columns {
      CountAppend(f.columns, [key], other);
      CountZero([key][1..], other);
    }
    assert Count(r.columns, other) == Count(f.columns, other);
    CountZero(f.columns, other);
    CountZero(r.columns, other);
    if Count(f.columns, other) == 1 {
      CountOneAll(f.columns, other);
      CountOneAll(r.columns, other);
      var k := IndexOf(f.columns, other);
      assert r.columns[k] == other;
      assert Lookup(r, other).value == Lookup(f, other).value;
    }
  }

  /**
   * Two assignments under distinct labels, neither duplicated: both columns
   * read back as assigned, every other column is as it was, and new labels are
   * appended in the order assigned.
   */
  lemma AssignTwice(f: Frame, k1: Cell, v1: seq<Cell>, k2: Cell, v2: seq<Cell>)
    requires f.Rectangular() && |v1| == |f.rows| && |v2| == |f.rows| && k1 != k2
    requires Count(f.columns, k1) <= 1 && Count(f.columns, k2) <= 1
    ensures var r := AssignColumn(AssignColumn(f, k1, v1), k2, v2);
            && |r.rows| == |f.rows|
            && r.columns == f.columns + (if k1 in f.columns then [] else [k1]) + (if k2 in f.columns then [] else [k2])
            && Lookup(r, k1) == Ok(v1)
            && Lookup(r, k2) == Ok(v2)
            && forall other :: other != k1 && other != k2 ==> Lookup(r, other) == Lookup(f, other)
  {
    var g := AssignColumn(f, k1, v1);
    var r := AssignColumn(g, k2, v2);
    AssignThenLookup(f, k1, v1);
    AssignOtherLookup(g, k2, v2, k1);
    if k1 !in f.columns {
      CountAppend(f.columns, [k1], k2);
    }
    assert Count(g.columns, k2) == Count(f.columns, k2);
    AssignThenLookup(g, k2, v2);
    CountZero(f.columns, k2);
    CountZero(g.columns, k2);
    assert r.columns == f.columns + (if k1 in f.columns then [] else [k1]) + (if k2 in f.columns then [] else [k2]);
    forall other | other != k1 && other != k2
      ensures Lookup(r, other) == Lookup(f, other)
    {
      AssignOtherLookup(f, k1, v1, other);
      AssignOtherLookup(g, k2, v2, other);
    }
  }

  lemma {:induction false} CountAppend(a: seq<Cell>, b: seq<Cell>, x: Cell)
    ensures Count(a + b, x) == Count(a, x) + Count(b, x)
  {
    if a == [] {
      assert a + b == b;
    } else {
      assert (a + b)[1..] == a[1..] + b;
      CountAppend(a[1..], b, x);
    }
  }

  /** `frame.columns = labels`: pandas refuses a label list of the wrong length. */
  function Relabel(f: Frame, labels: seq<Cell>): (r: Result<Frame, Error>)
    requires f.Rectangular()
    ensures r.Ok? <==> |labels| == |f.columns|
    ensures r.Ok? ==> r.value.Rectangular() && r.value.columns == labels && r.value.rows == f.rows
    ensures r.Err? ==> r.error == LengthMismatch(|f.columns|, |labels|)
  {
    if |labels| == |f.columns| then Ok(Frame(labels, f.rows))
    else Err(LengthMismatch(|f.columns|, |labels|))
  }
}
