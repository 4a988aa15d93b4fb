/**
 * A data frame as the feature stage sees it, and `normalize_dataframe`:
 * per-column min-max scaling of every numeric column, in place.
 */
module Frames {
  import opened Wrappers
  import opened Stats

  /** A calendar date, as a day ordinal; the order of dates is the order of `nat`. */
  type Date = nat

  /** A column holds floats that may be NaN, or something that is not a number. */
  datatype Column = Numeric(values: seq<Option<real>>) | Text(cells: seq<string>)

  function Length(c: Column): nat
  {
    match c
    case Numeric(vs) => |vs|
    case Text(cs) => |cs|
  }

  /** A frame: its index (one date per row), column names and columns. */
  datatype Table = Table(index: seq<Date>, names: seq<string>, columns: seq<Column>)

  /** One name per column and every column as long as the index. */
  ghost predicate WellFormed(t: Table)
  {
    |t.names| == |t.columns| &&
    forall j :: 0 <= j < |t.columns| ==> Length(t.columns[j]) == |t.index|
  }

  /** `(x - lo) / range` on one cell; a NaN cell stays NaN. */
  function Rescale(x: Option<real>, lo: real, range: real): Option<real>
    requires range != 0.0
  {
    match x
    case None => None
    case Some(v) => Some((v - lo) / range)
  }

  /** `(col - lo) / range` on a whole column. */
  function Rescaled(xs: seq<Option<real>>, lo: real, range: real): (r: seq<Option<real>>)
    requires range != 0.0
    ensures |r| == |xs| && forall i :: 0 <= i < |xs| ==> r[i] == Rescale(xs[i], lo, range)
  {
    seq(|xs|, i requires 0 <= i < |xs| => Rescale(xs[i], lo, range))
  }

  /**
   * One numeric column after `normalize_dataframe`. `max()` and `min()` skip
   * NaN. A column with a non-zero range is rescaled; a column whose range is
   * zero is overwritten with 0.0 everywhere, NaN cells included; a column with
   * no present value has a NaN range, `NaN != 0` holds, and the division
   * leaves every cell NaN.
   */
  function NormalizeValues(xs: seq<Option<real>>): (r: seq<Option<real>>)
    ensures |r| == |xs|
    ensures MaxSkipNa(xs).None? ==> forall i :: 0 <= i < |r| ==> r[i].None?
  {
    var lo, hi := MinSkipNa(xs), MaxSkipNa(xs);
    if lo.None? || hi.None? then seq(|xs|, i => None)
    else if hi.value - lo.value != 0.0 then Rescaled(xs, lo.value, hi.value - lo.value)
    else seq(|xs|, i => Some(0.0))
  }

  /** The range of the present cells is positive: the division branch runs. */
  ghost predicate HasRange(xs: seq<Option<real>>)
  {
    MaxSkipNa(xs).Some? && MinSkipNa(xs).value != MaxSkipNa(xs).value
  }

  /** In a column with a range, the minimum lies strictly below the maximum. */
  lemma RangePositive(xs: seq<Option<real>>)
    requires HasRange(xs)
    ensures MinSkipNa(xs).Some? && MinSkipNa(xs).value < MaxSkipNa(xs).value
  {
    var k :| 0 <= k < |xs| && xs[k] == MaxSkipNa(xs);
  }

  lemma DivideUnit(a: real, b: real)
    requires 0.0 <= a <= b && b > 0.0
    ensures 0.0 <= a / b <= 1.0
  {
  }

  lemma DivideSelf(d: real)
    requires d != 0.0
    ensures d / d == 1.0
  {
  }

  lemma RescaleEnds(lo: real, hi: real)
    requires lo < hi
    ensures Rescale(Some(lo), lo, hi - lo) == Some(0.0)
    ensures Rescale(Some(hi), lo, hi - lo) == Some(1.0)
  {
    assert (lo - lo) / (hi - lo) == 0.0 / (hi - lo) == 0.0;
    DivideSelf(hi - lo);
  }

  lemma DivideMonotone(a: real, b: real, c: real)
    requires c > 0.0
    ensures a <= b <==> a / c <= b / c
  {
    if a <= b {
      assert b / c - a / c == (b - a) / c;
    } else {
      assert a / c - b / c == (a - b) / c;
    }
  }

  /** With a range, the column is rescaled by its minimum and its range. */
  lemma NormalizedByRange(xs: seq<Option<real>>)
    requires HasRange(xs)
    ensures MinSkipNa(xs).Some? && MinSkipNa(xs).value < MaxSkipNa(xs).value
    ensures NormalizeValues(xs) == Rescaled(xs, MinSkipNa(xs).value, MaxSkipNa(xs).value - MinSkipNa(xs).value)
  {
    RangePositive(xs);
    var lo, hi := MinSkipNa(xs), MaxSkipNa(xs);
    assert !(lo.None? || hi.None?);
    assert hi.value - lo.value != 0.0;
  }

  lemma RescaleUnit(v: real, lo: real, hi: real)
    requires lo <= v <= hi && lo < hi
    ensures 0.0 <= (v - lo) / (hi - lo) <= 1.0
  {
    DivideUnit(v - lo, hi - lo);
  }

  /** With a range, one cell: present exactly when it was, and in [0, 1]. */
  lemma NormalizedCell(xs: seq<Option<real>>, i: nat)
    requires HasRange(xs) && i < |xs|
    ensures NormalizeValues(xs)[i].Some? <==> xs[i].Some?
    ensures xs[i].Some? ==> 0.0 <= NormalizeValues(xs)[i].value <= 1.0
  {
    NormalizedByRange(xs);
    if xs[i].Some? {
      RescaleUnit(xs[i].value, MinSkipNa(xs).value, MaxSkipNa(xs).value);
    }
  }

  /** With a range, the minimum becomes 0 and the maximum 1. */
  lemma NormalizedExtremes(xs: seq<Option<real>>)
    requires HasRange(xs)
    ensures MinSkipNa(NormalizeValues(xs)) == Some(0.0)
    ensures MaxSkipNa(NormalizeValues(xs)) == Some(1.0)
  {
    NormalizedMinZero(xs);
    NormalizedMaxOne(xs);
  }

  lemma NormalizedMinZero(xs: seq<Option<real>>)
    requires HasRange(xs)
    ensures MinSkipNa(NormalizeValues(xs)) == Some(0.0)
  {
    NormalizedByRange(xs);
    NormalizedCells(xs);
    var r := NormalizeValues(xs);
    var lo, hi := MinSkipNa(xs).value, MaxSkipNa(xs).value;
    var a :| 0 <= a < |xs| && xs[a] == Some(lo);
    RescaleEnds(lo, hi);
    assert r[a] == Rescale(xs[a], lo, hi - lo);
    MinIs(r, a);
  }

  lemma NormalizedMaxOne(xs: seq<Option<real>>)
    requires HasRange(xs)
    ensures MaxSkipNa(NormalizeValues(xs)) == Some(1.0)
  {
    NormalizedByRange(xs);
    NormalizedCells(xs);
    var r := NormalizeValues(xs);
    var lo, hi := MinSkipNa(xs).value, MaxSkipNa(xs).value;
    var b :| 0 <= b < |xs| && xs[b] == Some(hi);
    RescaleEnds(lo, hi);
    assert r[b] == Rescale(xs[b], lo, hi - lo);
    MaxIs(r, b);
  }

  /** With a range, every cell is present afterwards exactly when it was before, and then in [0, 1]. */
  lemma NormalizedCells(xs: seq<Option<real>>)
    requires HasRange(xs)
    ensures forall i :: 0 <= i < |xs| ==> (NormalizeValues(xs)[i].Some? <==> xs[i].Some?)
    ensures forall i :: 0 <= i < |xs| && xs[i].Some? ==> 0.0 <= NormalizeValues(xs)[i].value <= 1.0
  {
    forall i | 0 <= i < |xs|
      ensures (NormalizeValues(xs)[i].Some? <==> xs[i].Some?)
      ensures xs[i].Some? ==> 0.0 <= NormalizeValues(xs)[i].value <= 1.0
    {
      NormalizedCell(xs, i);
    }
  }

  /**
   * With a range, a cell is present afterwards exactly when it was before,
   * every present cell lands in [0, 1], the minimum becomes 0 and the
   * maximum 1.
   */
  lemma NormalizedUnitRange(xs: seq<Option<real>>)
    requires HasRange(xs)
    ensures forall i :: 0 <= i < |xs| ==> (NormalizeValues(xs)[i].Some? <==> xs[i].Some?)
    ensures forall i :: 0 <= i < |xs| && xs[i].Some? ==> 0.0 <= NormalizeValues(xs)[i].value <= 1.0
    ensures MinSkipNa(NormalizeValues(xs)) == Some(0.0)
    ensures MaxSkipNa(NormalizeValues(xs)) == Some(1.0)
  {
    NormalizedCells(xs);
    NormalizedExtremes(xs);
  }

  /** With a range, scaling keeps the order of any two present cells, both ways. */
  lemma NormalizedOrder(xs: seq<Option<real>>, i: nat, j: nat)
    requires HasRange(xs)
    requires i < |xs| && j < |xs| && xs[i].Some? && xs[j].Some?
    ensures NormalizeValues(xs)[i].Some? && NormalizeValues(xs)[j].Some?
    ensures xs[i].value <= xs[j].value <==> NormalizeValues(xs)[i].value <= NormalizeValues(xs)[j].value
  {
    NormalizedByRange(xs);
    var lo, hi := MinSkipNa(xs).value, MaxSkipNa(xs).value;
    DivideMonotone(xs[i].value - lo, xs[j].value - lo, hi - lo);
  }

  /** A column whose maximum equals its minimum becomes 0.0 in every cell, NaN cells included. */
  lemma NormalizedConstant(xs: seq<Option<real>>)
    requires MaxSkipNa(xs).Some? && MaxSkipNa(xs) == MinSkipNa(xs)
    ensures forall i :: 0 <= i < |xs| ==> NormalizeValues(xs)[i] == Some(0.0)
  {
  }

  /** A non-empty column without NaN comes out without NaN and inside [0, 1]. */
  lemma NormalizedComplete(xs: seq<Option<real>>)
    requires |xs| > 0 && forall i :: 0 <= i < |xs| ==> xs[i].Some?
    ensures forall i :: 0 <= i < |xs| ==>
      NormalizeValues(xs)[i].Some? && 0.0 <= NormalizeValues(xs)[i].value <= 1.0
  {
    if HasRange(xs) {
      NormalizedUnitRange(xs);
    } else {
      assert xs[0].Some?;
      NormalizedConstant(xs);
    }
  }

  /** Whatever the column, every present cell of the result lies in [0, 1]. */
  lemma NormalizedInUnitInterval(xs: seq<Option<real>>)
    ensures forall i :: 0 <= i < |xs| && NormalizeValues(xs)[i].Some? ==>
      0.0 <= NormalizeValues(xs)[i].value <= 1.0
  {
    if HasRange(xs) {
      NormalizedUnitRange(xs);
    }
  }

  /** Normalising a normalised column changes nothing. */
  lemma NormalizeIdempotent(xs: seq<Option<real>>)
    ensures NormalizeValues(NormalizeValues(xs)) == NormalizeValues(xs)
  {
    var r := NormalizeValues(xs);
    if HasRange(xs) {
      NormalizedExtremes(xs);
      NormalizedByRange(r);
      assert forall i :: 0 <= i < |r| ==> Rescale(r[i], 0.0, 1.0) == r[i];
    } else if MaxSkipNa(xs).Some? {
      assert |xs| > 0;
      assert forall i :: 0 <= i < |r| ==> r[i] == Some(0.0);
      MinIs(r, 0);
      MaxIs(r, 0);
    }
  }

  /** One column after `normalize_dataframe`: numeric ones rescaled, the rest untouched. */
  function NormalizeColumn(c: Column): (r: Column)
    ensures Length(r) == Length(c) && r.Numeric? == c.Numeric?
  {
    match c
    case Numeric(vs) => Numeric(NormalizeValues(vs))
    case Text(_) => c
  }

  /**
   * The frame after `normalize_dataframe`: the same index (row count and row
   * order), the same names, non-numeric columns untouched.
   */
  function NormalizeTable(t: Table): (r: Table)
    ensures r.index == t.index && r.names == t.names && |r.columns| == |t.columns|
    ensures forall j :: 0 <= j < |t.columns| && t.columns[j].Text? ==> r.columns[j] == t.columns[j]
    ensures WellFormed(t) ==> WellFormed(r)
  {
    Table(t.index, t.names, seq(|t.columns|, j requires 0 <= j < |t.columns| => NormalizeColumn(t.columns[j])))
  }

  /** Normalising a frame twice is normalising it once. */
  lemma NormalizeTableIdempotent(t: Table)
    ensures NormalizeTable(NormalizeTable(t)) == NormalizeTable(t)
  {
    var r := NormalizeTable(t);
    forall j | 0 <= j < |t.columns|
      ensures NormalizeColumn(r.columns[j]) == r.columns[j]
    {
      if t.columns[j].Numeric? {
        NormalizeIdempotent(t.columns[j].values);
      }
    }
  }

  /** A pandas DataFrame object; `Normalize` is `normalize_dataframe` acting on it in place. */
  class DataFrame {
    var index: seq<Date>
    var names: seq<string>
    var columns: seq<Column>

    constructor (t: Table)
      ensures Value() == t
    {
      index, names, columns := t.index, t.names, t.columns;
    }

    /** What the object holds, as a value. */
    function Value(): Table
      reads this
    {
      Table(index, names, columns)
    }

    /** Overwrites each numeric column with its normalised version, one by one. */
    method Normalize()
      modifies this
      ensures Value() == NormalizeTable(old(Value()))
    {
      var j := 0;
      while j < |columns|
        invariant 0 <= j <= |columns| == |old(columns)|
        invariant index == old(index) && names == old(names)
        invariant forall k :: 0 <= k < j ==> columns[k] == NormalizeColumn(old(columns)[k])
        invariant forall k :: j <= k < |columns| ==> columns[k] == old(columns)[k]
      {
        if columns[j].Numeric? {
          columns := columns[j := Numeric(NormalizeValues(columns[j].values))];
        }
        j := j + 1;
      }
      assert columns == NormalizeTable(old(Value())).columns;
    }
  }
}
