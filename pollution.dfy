/**
 * The pollution feature vector of `create_pollution_features`: per-date
 * aggregates of five measures, a 30-row rolling mean of the daily mean
 * difference, every incomplete row dropped, then the frame normalised.
 */
module Pollution {
  import opened Wrappers
  import opened Stats
  import opened Frames
  import opened Readings

  /** Columns a differences file must have to be used. */
  const RequiredColumns: seq<string> := ["Timestamp", "PV(W)", "Battery(W)", "SOC(%)", "Load(W)", "Difference"]

  /** The measures that are aggregated per day. */
  datatype Measure = PvW | BatteryW | SocPct | LoadW | Difference

  /** The header of a measure's column in the differences file. */
  function Header(m: Measure): string
  {
    match m
    case PvW => "PV(W)"
    case BatteryW => "Battery(W)"
    case SocPct => "SOC(%)"
    case LoadW => "Load(W)"
    case Difference => "Difference"
  }

  /** The cell of a reading in a measure's column. */
  function Cell(r: Reading, m: Measure): Option<real>
  {
    match m
    case PvW => r.pv
    case BatteryW => r.battery
    case SocPct => r.soc
    case LoadW => r.load
    case Difference => r.difference
  }

  /** `group[Header(m)]`: one measure over a day's readings. */
  function Series(g: seq<Reading>, m: Measure): seq<Option<real>>
  {
    Values(g, (r: Reading) => Cell(r, m))
  }

  /** The reductions named in the aggregation dictionary. */
  datatype Agg = Sum | Mean | Std | Max | Min

  function AggName(a: Agg): string
  {
    match a
    case Sum => "sum"
    case Mean => "mean"
    case Std => "std"
    case Max => "max"
    case Min => "min"
  }

  /** The aggregation dictionary, in the column order pandas gives its result. */
  const Aggregations: seq<(Measure, Agg)> := [
    (PvW, Sum), (PvW, Mean), (PvW, Std), (PvW, Max),
    (BatteryW, Mean), (SocPct, Mean), (LoadW, Mean),
    (Difference, Mean), (Difference, Std), (Difference, Min)]

  /** The position of `Difference_mean` among the daily columns. */
  const DifferenceMeanColumn: nat := 7

  /** `'_'.join(col).strip()` on one `(measure, aggregate)` column label. */
  function FlatName(m: Measure, a: Agg): string
  {
    Header(m) + "_" + AggName(a)
  }

  /** The flattened names of the daily columns. */
  function DailyNames(): (names: seq<string>)
    ensures |names| == |Aggregations|
  {
    seq(|Aggregations|, j requires 0 <= j < |Aggregations| => FlatName(Aggregations[j].0, Aggregations[j].1))
  }

  const RollingName: string := "diff_mean_30d_avg"

  /** The columns of the output file, in order. */
  const PollutionNames: seq<string> := [
    "PV(W)_sum", "PV(W)_mean", "PV(W)_std", "PV(W)_max",
    "Battery(W)_mean", "SOC(%)_mean", "Load(W)_mean",
    "Difference_mean", "Difference_std", "Difference_min", "diff_mean_30d_avg"]

  /** `window=30, min_periods=15`. */
  const WindowSize: nat := 30
  const MinPeriods: nat := 15

  /**
   * One reduction over a day's cells, skipping NaN. The sum is always
   * present; std needs two present cells; mean, max and min need one.
   */
  function Aggregate(a: Agg, xs: seq<Option<real>>, sqrt: real -> real): (r: Option<real>)
    ensures r.Some? <==> a == Sum || CountPresent(xs) >= (if a == Std then 2 else 1)
  {
    match a
    case Sum => Some(SumSkipNa(xs))
    case Mean => MeanSkipNa(xs)
    case Std => StdSkipNa(xs, sqrt)
    case Max => MaxSkipNa(xs)
    case Min => MinSkipNa(xs)
  }

  /** One daily column: the aggregate of one measure over each date's group. */
  function DailyColumn(rows: seq<Reading>, dates: seq<Date>, m: Measure, a: Agg, sqrt: real -> real): (vs: seq<Option<real>>)
    ensures |vs| == |dates|
    ensures forall i :: 0 <= i < |dates| ==> vs[i] == Aggregate(a, Series(Group(rows, dates[i]), m), sqrt)
  {
    seq(|dates|, i requires 0 <= i < |dates| => Aggregate(a, Series(Group(rows, dates[i]), m), sqrt))
  }

  /** `df.groupby("date").agg({...})` with its columns flattened: one row per date, ascending. */
  function DailyTable(rows: seq<Reading>, sqrt: real -> real): (t: Table)
    ensures WellFormed(t) && t.index == Dates(rows) && t.names == DailyNames()
    ensures forall j :: 0 <= j < |t.columns| ==> t.columns[j].Numeric?
  {
    var dates := Dates(rows);
    Table(dates, DailyNames(),
      seq(|Aggregations|, j requires 0 <= j < |Aggregations| =>
        Numeric(DailyColumn(rows, dates, Aggregations[j].0, Aggregations[j].1, sqrt))))
  }

  /** The cell of daily column `j` on row `i` is that aggregate over the `i`-th date's group. */
  lemma DailyCell(rows: seq<Reading>, sqrt: real -> real, j: nat, i: nat)
    requires j < |Aggregations| && i < |Dates(rows)|
    ensures DailyTable(rows, sqrt).columns[j].values[i] ==
      Aggregate(Aggregations[j].1, Series(Group(rows, Dates(rows)[i]), Aggregations[j].0), sqrt)
  {
  }

  /** The rows a rolling window ending at row `i` covers: the last 30, fewer near the start. */
  function Window(xs: seq<Option<real>>, i: nat): (w: seq<Option<real>>)
    requires i < |xs|
    ensures |w| == if i + 1 < WindowSize then i + 1 else WindowSize
    ensures forall k :: 0 <= k < |w| ==> w[k] == xs[i + 1 - |w| + k]
  {
    xs[if i + 1 < WindowSize then 0 else i + 1 - WindowSize .. i + 1]
  }

  /**
   * `.rolling(window=30, min_periods=15).mean()`: the mean of the present
   * cells of each row's window, NaN when fewer than 15 of them are present.
   */
  function Rolling(xs: seq<Option<real>>): (r: seq<Option<real>>)
    ensures |r| == |xs|
  {
    seq(|xs|, i requires 0 <= i < |xs| =>
      if CountPresent(Window(xs, i)) >= MinPeriods then MeanSkipNa(Window(xs, i)) else None)
  }

  /** A rolling value is present exactly when 15 cells of its window are, and is then their mean. */
  lemma RollingPresence(xs: seq<Option<real>>, i: nat)
    requires i < |xs|
    ensures Rolling(xs)[i].Some? <==> CountPresent(Window(xs, i)) >= MinPeriods
    ensures Rolling(xs)[i].Some? ==> Rolling(xs)[i] == MeanSkipNa(Window(xs, i))
  {
  }

  /** A rolling value exists only from the 15th row on, and then lies between the window's extremes. */
  lemma RollingBetween(xs: seq<Option<real>>, i: nat)
    requires i < |xs| && Rolling(xs)[i].Some?
    ensures i + 1 >= MinPeriods
    ensures MinSkipNa(Window(xs, i)).Some? && MaxSkipNa(Window(xs, i)).Some?
    ensures MinSkipNa(Window(xs, i)).value <= Rolling(xs)[i].value <= MaxSkipNa(Window(xs, i)).value
  {
    var w := Window(xs, i);
    assert CountPresent(w) >= MinPeriods;
    MeanBetween(w, MinSkipNa(w).value, MaxSkipNa(w).value);
  }

  /** Dropping cells from the front never raises the count of present ones. */
  lemma {:induction false} CountSuffix(xs: seq<Option<real>>, k: nat)
    requires k <= |xs|
    ensures CountPresent(xs[k..]) <= CountPresent(xs)
  {
    if k < |xs| {
      assert Init(xs[k..]) == Init(xs)[k..];
      CountSuffix(Init(xs), k);
    } else {
      assert xs[k..] == [];
    }
  }

  /** The last `n` cells all present make at least `n` present cells. */
  lemma PresentRunCounts(w: seq<Option<real>>, n: nat)
    requires n <= |w|
    requires forall k :: |w| - n <= k < |w| ==> w[k].Some?
    ensures CountPresent(w) >= n
  {
    var run := w[|w| - n..];
    assert forall k :: 0 <= k < |run| ==> run[k] == w[|w| - n + k];
    CountAllPresent(run);
    CountSuffix(w, |w| - n);
  }

  /** Fifteen present cells in a row ending at row `i` give a rolling value there. */
  lemma RollingPresentAfterRun(xs: seq<Option<real>>, i: nat)
    requires MinPeriods <= i + 1 <= |xs|
    requires forall k :: i + 1 - MinPeriods <= k <= i ==> xs[k].Some?
    ensures Rolling(xs)[i].Some?
  {
    var w := Window(xs, i);
    PresentRunCounts(w, MinPeriods);
  }

  /** `daily_df["diff_mean_30d_avg"] = ...`: the rolling column appended last. */
  function WithRolling(t: Table): (r: Table)
    requires WellFormed(t) && |t.columns| > DifferenceMeanColumn && t.columns[DifferenceMeanColumn].Numeric?
    ensures WellFormed(r) && r.index == t.index
    ensures r.names == t.names + [RollingName] && |r.columns| == |t.columns| + 1
    ensures forall j :: 0 <= j < |t.columns| ==> r.columns[j] == t.columns[j]
    ensures r.columns[|t.columns|] == Numeric(Rolling(t.columns[DifferenceMeanColumn].values))
  {
    var rolled := Rolling(t.columns[DifferenceMeanColumn].values);
    Table(t.index, t.names + [RollingName], t.columns + [Numeric(rolled)])
  }

  /** Cell `i` of a column holds a value: a NaN cell is what `dropna` removes. */
  predicate CellPresent(c: Column, i: nat)
  {
    match c
    case Numeric(vs) => i < |vs| && vs[i].Some?
    case Text(cs) => i < |cs|
  }

  /** Row `i` has no NaN in any column. */
  predicate RowComplete(t: Table, i: nat)
  {
    forall j :: 0 <= j < |t.columns| ==> CellPresent(t.columns[j], i)
  }

  /** The complete rows among the first `n`, in order. */
  function CompleteRows(t: Table, n: nat): (k: seq<nat>)
    ensures Increasing(k)
    ensures forall p :: 0 <= p < |k| ==> k[p] < n
    ensures forall i: nat :: i in k <==> i < n && RowComplete(t, i)
  {
    if n == 0 then []
    else CompleteRows(t, n - 1) + (if RowComplete(t, n - 1) then [n - 1] else [])
  }

  /** The cells of a column at the rows `k`, in that order. */
  function Pick(c: Column, k: seq<nat>): (r: Column)
    requires forall p :: 0 <= p < |k| ==> k[p] < Length(c)
    ensures Length(r) == |k| && r.Numeric? == c.Numeric?
    ensures c.Numeric? ==> |c.values| == Length(c) && forall p :: 0 <= p < |k| ==> r.values[p] == c.values[k[p]]
  {
    match c
    case Numeric(vs) =>
      assert Length(c) == |vs|;
      Numeric(seq(|k|, p requires 0 <= p < |k| => vs[k[p]]))
    case Text(cs) =>
      assert Length(c) == |cs|;
      Text(seq(|k|, p requires 0 <= p < |k| => cs[k[p]]))
  }

  /** `dropna()`: keeps exactly the rows without NaN, in their order. */
  function DropNa(t: Table): (r: Table)
    requires WellFormed(t)
    ensures WellFormed(r) && r.names == t.names && |r.columns| == |t.columns|
    ensures var k := CompleteRows(t, |t.index|);
      |r.index| == |k| && forall p :: 0 <= p < |k| ==> r.index[p] == t.index[k[p]]
    ensures forall j :: 0 <= j < |t.columns| ==> r.columns[j] == Pick(t.columns[j], CompleteRows(t, |t.index|))
  {
    var k := CompleteRows(t, |t.index|);
    Table(seq(|k|, p requires 0 <= p < |k| => t.index[k[p]]), t.names,
      seq(|t.columns|, j requires 0 <= j < |t.columns| => Pick(t.columns[j], k)))
  }

  /** After `dropna` no row holds a NaN. */
  lemma DropNaComplete(t: Table)
    requires WellFormed(t)
    ensures forall p :: 0 <= p < |DropNa(t).index| ==> RowComplete(DropNa(t), p)
  {
    var r := DropNa(t);
    var k := CompleteRows(t, |t.index|);
    forall p, j | 0 <= p < |r.index| && 0 <= j < |r.columns|
      ensures CellPresent(r.columns[j], p)
    {
      assert k[p] in k;
      assert CellPresent(t.columns[j], k[p]);
    }
  }

  /** Date `d` labels a row of `t` without NaN. */
  ghost predicate CompleteDate(t: Table, d: Date)
  {
    exists i: nat :: i < |t.index| && RowComplete(t, i) && t.index[i] == d
  }

  /** Every row `dropna` keeps is a complete row of its input, and every complete row is kept. */
  lemma DropNaKeepsCompleteRows(t: Table)
    requires WellFormed(t)
    ensures forall p :: 0 <= p < |DropNa(t).index| ==> CompleteDate(t, DropNa(t).index[p])
    ensures forall i :: 0 <= i < |t.index| && RowComplete(t, i) ==> t.index[i] in DropNa(t).index
  {
    var r := DropNa(t);
    var k := CompleteRows(t, |t.index|);
    forall i | 0 <= i < |t.index| && RowComplete(t, i)
      ensures t.index[i] in r.index
    {
      var p :| 0 <= p < |k| && k[p] == i;
      assert r.index[p] == t.index[i];
    }
    forall p | 0 <= p < |r.index|
      ensures CompleteDate(t, r.index[p])
    {
      assert k[p] in k;
      assert k[p] < |t.index| && RowComplete(t, k[p]) && r.index[p] == t.index[k[p]];
    }
  }

  /** `dropna` keeps an ascending index ascending. */
  lemma DropNaKeepsOrder(t: Table)
    requires WellFormed(t) && StrictlyIncreasing(t.index)
    ensures StrictlyIncreasing(DropNa(t).index)
  {
  }

  /** The daily frame with its rolling column, before `dropna`. */
  function Augmented(rows: seq<Reading>, sqrt: real -> real): (t: Table)
    ensures WellFormed(t) && t.index == Dates(rows) && t.names == DailyNames() + [RollingName]
    ensures |t.columns| == |Aggregations| + 1 && forall j :: 0 <= j < |t.columns| ==> t.columns[j].Numeric?
  {
    WithRolling(DailyTable(rows, sqrt))
  }

  /**
   * What one plant's iteration of `create_pollution_features` writes, or
   * `None` when it writes nothing: the file cannot be read or parsed, a
   * required column is missing, the file has no rows, no daily row exists,
   * or `dropna` leaves no row.
   */
  function PollutionOutput(input: Input, sqrt: real -> real): (out: Option<Table>)
    ensures out.Some? ==> input.Csv? && HasColumns(input.header, RequiredColumns) && |input.rows| > 0
  {
    match input
    case Unreadable => None
    case Csv(header, rows) =>
      if !HasColumns(header, RequiredColumns) || |rows| == 0 then None
      else
        var daily := DailyTable(rows, sqrt);
        if |daily.index| == 0 then None
        else
          var clean := DropNa(WithRolling(daily));
          if |clean.index| == 0 then None else Some(NormalizeTable(clean))
  }

  /** A present aggregate cell of the daily frame means its aggregate over that date's group is defined. */
  lemma DailyCellPresent(rows: seq<Reading>, sqrt: real -> real, j: nat, i: nat)
    requires j < |Aggregations| && i < |Dates(rows)|
    requires CellPresent(Augmented(rows, sqrt).columns[j], i)
    ensures Aggregate(Aggregations[j].1, Series(Group(rows, Dates(rows)[i]), Aggregations[j].0), sqrt).Some?
  {
    DailyCell(rows, sqrt, j, i);
  }

  /** A present rolling cell of the augmented frame lies at the 15th row or later. */
  lemma RollingCellPresent(rows: seq<Reading>, sqrt: real -> real, i: nat)
    requires i < |Dates(rows)|
    requires CellPresent(Augmented(rows, sqrt).columns[|Aggregations|], i)
    ensures i + 1 >= MinPeriods
  {
    var daily := DailyTable(rows, sqrt);
    RollingBetween(daily.columns[DifferenceMeanColumn].values, i);
  }

  /** A date's complete row records a full rolling window and enough readings of every measure. */
  lemma CompleteRowFacts(rows: seq<Reading>, sqrt: real -> real, i: nat)
    requires i < |Dates(rows)| && RowComplete(Augmented(rows, sqrt), i)
    ensures i + 1 >= MinPeriods
    ensures EnoughReadings(Group(rows, Dates(rows)[i]))
  {
    var t := Augmented(rows, sqrt);
    assert CellPresent(t.columns[|Aggregations|], i);
    RollingCellPresent(rows, sqrt, i);
    CompleteRowReadings(rows, sqrt, i);
  }

  lemma CompleteRowReadings(rows: seq<Reading>, sqrt: real -> real, i: nat)
    requires i < |Dates(rows)| && RowComplete(Augmented(rows, sqrt), i)
    ensures EnoughReadings(Group(rows, Dates(rows)[i]))
  {
    CompleteRowAggregate(rows, sqrt, i, 2);
    CompleteRowAggregate(rows, sqrt, i, 4);
    CompleteRowAggregate(rows, sqrt, i, 5);
    CompleteRowAggregate(rows, sqrt, i, 6);
    CompleteRowAggregate(rows, sqrt, i, 8);
    DefinedAggregatesEnough(Group(rows, Dates(rows)[i]), sqrt);
  }

  /** Every aggregate behind a complete daily row is defined. */
  lemma CompleteRowAggregate(rows: seq<Reading>, sqrt: real -> real, i: nat, j: nat)
    requires i < |Dates(rows)| && RowComplete(Augmented(rows, sqrt), i) && j < |Aggregations|
    ensures Aggregate(Aggregations[j].1, Series(Group(rows, Dates(rows)[i]), Aggregations[j].0), sqrt).Some?
  {
    assert CellPresent(Augmented(rows, sqrt).columns[j], i);
    DailyCellPresent(rows, sqrt, j, i);
  }

  /** A day whose two stds and three means are defined has enough readings. */
  lemma DefinedAggregatesEnough(g: seq<Reading>, sqrt: real -> real)
    requires Aggregate(Aggregations[2].1, Series(g, Aggregations[2].0), sqrt).Some?
    requires Aggregate(Aggregations[4].1, Series(g, Aggregations[4].0), sqrt).Some?
    requires Aggregate(Aggregations[5].1, Series(g, Aggregations[5].0), sqrt).Some?
    requires Aggregate(Aggregations[6].1, Series(g, Aggregations[6].0), sqrt).Some?
    requires Aggregate(Aggregations[8].1, Series(g, Aggregations[8].0), sqrt).Some?
    ensures EnoughReadings(g)
  {
    assert Aggregations[2] == (PvW, Std) && Aggregations[4] == (BatteryW, Mean);
    assert Aggregations[5] == (SocPct, Mean) && Aggregations[6] == (LoadW, Mean);
    assert Aggregations[8] == (Difference, Std);
  }

  /**
   * The readings of a day behind an output row: at least two present PV and
   * Difference cells (their std is defined) and at least one present
   * battery, SOC and load cell (their mean is defined).
   */
  ghost predicate EnoughReadings(g: seq<Reading>)
  {
    && CountPresent(Series(g, PvW)) >= 2
    && CountPresent(Series(g, BatteryW)) >= 1
    && CountPresent(Series(g, SocPct)) >= 1
    && CountPresent(Series(g, LoadW)) >= 1
    && CountPresent(Series(g, Difference)) >= 2
  }

  /** Cell `p` of column `c` is a number in [0, 1]. */
  predicate UnitCell(c: Column, p: nat)
  {
    c.Numeric? && p < |c.values| && c.values[p].Some? && 0.0 <= c.values[p].value <= 1.0
  }

  /** Normalising a non-empty numeric frame without NaN puts every cell in [0, 1]. */
  lemma NormalizedCompleteTable(t: Table)
    requires WellFormed(t) && |t.index| > 0
    requires forall j :: 0 <= j < |t.columns| ==> t.columns[j].Numeric?
    requires forall p :: 0 <= p < |t.index| ==> RowComplete(t, p)
    ensures forall j, p :: 0 <= j < |t.columns| && 0 <= p < |t.index| ==> UnitCell(NormalizeTable(t).columns[j], p)
  {
    var r := NormalizeTable(t);
    forall j | 0 <= j < |t.columns|
      ensures forall p :: 0 <= p < |t.index| ==> UnitCell(r.columns[j], p)
    {
      var xs := t.columns[j].values;
      forall p | 0 <= p < |xs|
        ensures xs[p].Some?
      {
        assert RowComplete(t, p) && CellPresent(t.columns[j], p);
      }
      NormalizedComplete(xs);
    }
  }

  /** The flattened daily names spell out the output header, the rolling column last. */
  lemma NamesSpelled()
    ensures DailyNames() + [RollingName] == PollutionNames
  {
    assert DailyNames() == [
      FlatName(PvW, Sum), FlatName(PvW, Mean), FlatName(PvW, Std), FlatName(PvW, Max),
      FlatName(BatteryW, Mean), FlatName(SocPct, Mean), FlatName(LoadW, Mean),
      FlatName(Difference, Mean), FlatName(Difference, Std), FlatName(Difference, Min)];
    FlatNamesSpelled();
  }

  lemma FlatNamesSpelled()
    ensures FlatName(PvW, Sum) == "PV(W)_sum" && FlatName(PvW, Mean) == "PV(W)_mean"
    ensures FlatName(PvW, Std) == "PV(W)_std" && FlatName(PvW, Max) == "PV(W)_max"
    ensures FlatName(BatteryW, Mean) == "Battery(W)_mean" && FlatName(SocPct, Mean) == "SOC(%)_mean"
    ensures FlatName(LoadW, Mean) == "Load(W)_mean" && FlatName(Difference, Mean) == "Difference_mean"
    ensures FlatName(Difference, Std) == "Difference_std" && FlatName(Difference, Min) == "Difference_min"
  {
    assert "PV(W)" + "_" + "sum" == "PV(W)_sum";
    assert "PV(W)" + "_" + "mean" == "PV(W)_mean";
    assert "PV(W)" + "_" + "std" == "PV(W)_std";
    assert "PV(W)" + "_" + "max" == "PV(W)_max";
    assert "Battery(W)" + "_" + "mean" == "Battery(W)_mean";
    assert "SOC(%)" + "_" + "mean" == "SOC(%)_mean";
    assert "Load(W)" + "_" + "mean" == "Load(W)_mean";
    assert "Difference" + "_" + "mean" == "Difference_mean";
    assert "Difference" + "_" + "std" == "Difference_std";
    assert "Difference" + "_" + "min" == "Difference_min";
  }

  /** A date whose row survives `dropna` is an input date with enough readings, past the first fourteen. */
  lemma CompleteDateFacts(rows: seq<Reading>, sqrt: real -> real, d: Date)
    requires CompleteDate(Augmented(rows, sqrt), d)
    ensures d in Dates(rows) && EnoughReadings(Group(rows, d))
    ensures forall i :: 0 <= i < MinPeriods - 1 && i < |Dates(rows)| ==> Dates(rows)[i] != d
  {
    var dates := Dates(rows);
    var i: nat :| i < |dates| && RowComplete(Augmented(rows, sqrt), i) && dates[i] == d;
    CompleteRowFacts(rows, sqrt, i);
  }

  /** The frame `dropna` leaves from a file's rows. */
  function Clean(rows: seq<Reading>, sqrt: real -> real): (t: Table)
    ensures WellFormed(t) && t.names == DailyNames() + [RollingName]
    ensures forall j :: 0 <= j < |t.columns| ==> t.columns[j].Numeric?
  {
    var aug := Augmented(rows, sqrt);
    DropNa(aug)
  }

  /** Rows survive `dropna` exactly when some date's row is complete. */
  lemma CleanNonEmpty(rows: seq<Reading>, sqrt: real -> real)
    ensures |Clean(rows, sqrt).index| > 0 <==>
      exists i: nat :: i < |Dates(rows)| && RowComplete(Augmented(rows, sqrt), i)
  {
    var aug := Augmented(rows, sqrt);
    assert Clean(rows, sqrt) == DropNa(aug);
    DropNaKeepsCompleteRows(aug);
    if |Clean(rows, sqrt).index| > 0 {
      assert CompleteDate(aug, Clean(rows, sqrt).index[0]);
    }
  }

  /** The dates that survive `dropna` are ascending input dates past the first fourteen, each with enough readings. */
  lemma CleanDates(rows: seq<Reading>, sqrt: real -> real)
    ensures var t := Clean(rows, sqrt);
      && StrictlyIncreasing(t.index)
      && (forall p :: 0 <= p < |t.index| ==> t.index[p] in Dates(rows) && EnoughReadings(Group(rows, t.index[p])))
      && (forall i :: 0 <= i < MinPeriods - 1 && i < |Dates(rows)| ==> Dates(rows)[i] !in t.index)
  {
    var aug := Augmented(rows, sqrt);
    var t := Clean(rows, sqrt);
    assert t == DropNa(aug);
    DropNaKeepsCompleteRows(aug);
    DropNaKeepsOrder(aug);
    forall p | 0 <= p < |t.index|
      ensures t.index[p] in Dates(rows) && EnoughReadings(Group(rows, t.index[p]))
      ensures forall i :: 0 <= i < MinPeriods - 1 && i < |Dates(rows)| ==> Dates(rows)[i] != t.index[p]
    {
      CompleteDateFacts(rows, sqrt, t.index[p]);
    }
  }

  /** Every cell of the normalised clean frame is a number in [0, 1]. */
  lemma CleanNormalized(rows: seq<Reading>, sqrt: real -> real)
    requires |Clean(rows, sqrt).index| > 0
    ensures var t := NormalizeTable(Clean(rows, sqrt));
      forall j, p :: 0 <= j < |t.columns| && 0 <= p < |t.index| ==> UnitCell(t.columns[j], p)
  {
    var aug := Augmented(rows, sqrt);
    assert Clean(rows, sqrt) == DropNa(aug);
    DropNaComplete(aug);
    NormalizedCompleteTable(Clean(rows, sqrt));
  }

  /**
   * Once the input is usable, the output is the normalised clean frame, if
   * it has a row; when no row has a timestamp the daily frame is empty and
   * so is the clean one.
   */
  lemma PollutionOutputIsClean(header: set<string>, rows: seq<Reading>, sqrt: real -> real)
    requires HasColumns(header, RequiredColumns) && |rows| > 0
    ensures var clean := Clean(rows, sqrt);
      PollutionOutput(Csv(header, rows), sqrt) == if |clean.index| == 0 then None else Some(NormalizeTable(clean))
  {
    var aug := Augmented(rows, sqrt);
    if |Dates(rows)| == 0 {
      assert CompleteRows(aug, |aug.index|) == [];
    }
  }

  /**
   * A plant gets a pollution file exactly when its file is readable, has the
   * required columns and rows, and some date's row survives `dropna`.
   */
  lemma PollutionOutputExists(input: Input, sqrt: real -> real)
    ensures PollutionOutput(input, sqrt).Some? <==>
      input.Csv? && HasColumns(input.header, RequiredColumns) && |input.rows| > 0 &&
      exists i: nat :: i < |Dates(input.rows)| && RowComplete(Augmented(input.rows, sqrt), i)
  {
    if input.Csv? && HasColumns(input.header, RequiredColumns) && |input.rows| > 0 {
      PollutionOutputIsClean(input.header, input.rows, sqrt);
      CleanNonEmpty(input.rows, sqrt);
    }
  }

  /**
   * A pollution file has the eleven columns in order, ascending dates taken
   * from the input but none of its first fourteen dates, every cell a number
   * in [0, 1], and behind every row a day with enough readings of every
   * measure.
   */
  lemma PollutionOutputShape(input: Input, sqrt: real -> real)
    requires PollutionOutput(input, sqrt).Some?
    ensures var t := PollutionOutput(input, sqrt).value;
      && t.names == PollutionNames
      && WellFormed(t)
      && StrictlyIncreasing(t.index)
      && (forall p :: 0 <= p < |t.index| ==> t.index[p] in Dates(input.rows))
      && (forall i :: 0 <= i < MinPeriods - 1 && i < |Dates(input.rows)| ==> Dates(input.rows)[i] !in t.index)
      && (forall p :: 0 <= p < |t.index| ==> EnoughReadings(Group(input.rows, t.index[p])))
      && (forall j, p :: 0 <= j < |t.columns| && 0 <= p < |t.index| ==> UnitCell(t.columns[j], p))
  {
    var rows := input.rows;
    PollutionOutputIsClean(input.header, rows, sqrt);
    CleanDates(rows, sqrt);
    NamesSpelled();
    CleanNormalized(rows, sqrt);
  }

  /** One plant's iteration of `create_pollution_features`, up to the file it writes. */
  method PollutionPlant(input: Input, sqrt: real -> real) returns (out: Option<Table>)
    ensures out == PollutionOutput(input, sqrt)
  {
    if input.Unreadable? {
      return None;
    }
    if !HasColumns(input.header, RequiredColumns) || |input.rows| == 0 {
      return None;
    }
    var daily := DailyTable(input.rows, sqrt);
    if |daily.index| == 0 {
      return None;
    }
    var clean := DropNa(WithRolling(daily));
    if |clean.index| == 0 {
      return None;
    }
    var df := new DataFrame(clean);
    df.Normalize();
    out := Some(df.Value());
  }
}
