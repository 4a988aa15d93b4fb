/**
 * The shading feature vector of `create_shading_features`: one row per
 * calendar date with nine features, then the whole frame normalised.
 */
module Shading {
  import opened Wrappers
  import opened Stats
  import opened Frames
  import opened Readings

  /** Columns a differences file must have to be used. */
  const RequiredColumns: seq<string> := ["Timestamp", "PV(W)", "MPP1(A)", "MPP2(A)", "MPP1(V)", "MPP2(V)"]

  /** The feature columns, in the order of the output file. */
  const FeatureNames: seq<string> := [
    "energy_yield_kWh", "peak_pv_power_W", "delta_std", "max_delta_hour",
    "morning_afternoon_ratio", "mpp1_a_std", "mpp2_a_std", "mpp1_v_std", "mpp2_v_std"]

  /** The features of one day, before normalisation. */
  datatype DayFeatures = DayFeatures(
    date: Date,
    energyYieldKWh: real,
    peakPvPowerW: Option<real>,
    deltaStd: Option<real>,
    maxDeltaHour: int,
    morningAfternoonRatio: Option<real>,
    mpp1AStd: Option<real>,
    mpp2AStd: Option<real>,
    mpp1VStd: Option<real>,
    mpp2VStd: Option<real>)

  /** `group["PV(W)"]`. */
  function Pv(g: seq<Reading>): seq<Option<real>>
  {
    Values(g, (r: Reading) => r.pv)
  }

  /**
   * `pv.diff().fillna(0)`: the step from the previous row, 0.0 for the first
   * row and wherever either of the two cells is NaN.
   */
  function Delta(pv: seq<Option<real>>): (d: seq<real>)
    ensures |d| == |pv|
    ensures |pv| > 0 ==> d[0] == 0.0
  {
    seq(|pv|, i requires 0 <= i < |pv| =>
      if i > 0 && pv[i].Some? && pv[i - 1].Some? then pv[i].value - pv[i - 1].value else 0.0)
  }

  /** On a day without NaN the first k steps add up to the change over the first k rows. */
  lemma {:induction false} DeltaPrefixTelescopes(pv: seq<Option<real>>, k: nat)
    requires forall i :: 0 <= i < |pv| ==> pv[i].Some?
    requires 0 < k <= |pv|
    ensures Sum(Delta(pv)[..k]) == pv[k - 1].value - pv[0].value
  {
    var d := Delta(pv);
    if k > 1 {
      DeltaPrefixTelescopes(pv, k - 1);
      assert Init(d[..k]) == d[..k - 1];
    } else {
      assert Init(d[..1]) == [];
    }
  }

  /** On a day without NaN the steps add up to the last value minus the first. */
  lemma DeltaTelescopes(pv: seq<Option<real>>)
    requires forall i :: 0 <= i < |pv| ==> pv[i].Some?
    requires |pv| > 0
    ensures Sum(Delta(pv)) == Last(pv).value - pv[0].value
  {
    DeltaPrefixTelescopes(pv, |pv|);
    assert Delta(pv)[..|pv|] == Delta(pv);
  }

  function Abs(x: real): real
  {
    if x < 0.0 then -x else x
  }

  /** Row k holds the largest absolute step, and no earlier row holds one as large. */
  ghost predicate IsFirstLargest(d: seq<real>, k: nat)
  {
    k < |d| &&
    (forall j :: 0 <= j < |d| ==> Abs(d[j]) <= Abs(d[k])) &&
    (forall j :: 0 <= j < k ==> Abs(d[j]) < Abs(d[k]))
  }

  /** `delta.abs().argmax()`: the first position of the largest absolute value. */
  function ArgMaxAbs(d: seq<real>): (k: nat)
    requires |d| > 0
    ensures IsFirstLargest(d, k)
  {
    if |d| == 1 then 0
    else
      var k := ArgMaxAbs(Init(d));
      if Abs(Last(d)) > Abs(d[k]) then |d| - 1 else k
  }

  /**
   * `max_delta_hour`: the hour of the row at the argmax, with the fallback
   * 12 when the argmax is not a row of the group.
   */
  function MaxDeltaHour(g: seq<Reading>): (h: int)
    requires |g| > 0
    ensures 0 <= h
  {
    var k := ArgMaxAbs(Delta(Pv(g)));
    if k < |g| then g[k].hour else 12
  }

  /**
   * The fallback of `MaxDeltaHour` is never taken: the result is the hour of
   * the first row with the largest absolute step.
   */
  lemma MaxDeltaHourIsFirstLargest(g: seq<Reading>)
    requires |g| > 0
    ensures exists k: nat :: IsFirstLargest(Delta(Pv(g)), k) && k < |g| && MaxDeltaHour(g) == g[k].hour as int
  {
    var k := ArgMaxAbs(Delta(Pv(g)));
    assert IsFirstLargest(Delta(Pv(g)), k) && k < |g|;
  }

  /** `group["Timestamp"].dt.hour < 12`. */
  function MorningMask(g: seq<Reading>): (m: seq<bool>)
    ensures |m| == |g|
  {
    seq(|g|, k requires 0 <= k < |g| => g[k].hour < 12)
  }

  /** `pv[morning_mask].sum()`. */
  function Morning(g: seq<Reading>): real
  {
    SumSkipNa(Select(Pv(g), MorningMask(g)))
  }

  /** `pv[~morning_mask].sum()`. */
  function Afternoon(g: seq<Reading>): real
  {
    SumSkipNa(Select(Pv(g), Negate(MorningMask(g))))
  }

  /** `pv.sum() / 1000.0`. */
  function EnergyYield(g: seq<Reading>): real
  {
    SumSkipNa(Pv(g)) / 1000.0
  }

  /** The morning and afternoon sums split the day's PV sum, 1000 times its energy yield. */
  lemma MorningAfternoonSplit(g: seq<Reading>)
    ensures Morning(g) + Afternoon(g) == SumSkipNa(Pv(g)) == 1000.0 * EnergyYield(g)
  {
    SumSplit(Pv(g), MorningMask(g));
  }

  lemma DivideBack(m: real, a: real)
    requires a != 0.0
    ensures (m / a) * a == m
  {
  }

  /** `morning / afternoon if afternoon > 0 else np.nan`. */
  function MorningAfternoonRatio(g: seq<Reading>): (r: Option<real>)
    ensures r.Some? <==> Afternoon(g) > 0.0
    ensures r.Some? ==> r.value * Afternoon(g) == Morning(g)
  {
    var a := Afternoon(g);
    if a > 0.0 then DivideBack(Morning(g), a); Some(Morning(g) / a) else None
  }

  /** A sequence of reals as a column without NaN. */
  function Lift(d: seq<real>): (xs: seq<Option<real>>)
    ensures |xs| == |d|
    ensures forall i :: 0 <= i < |d| ==> xs[i] == Some(d[i])
  {
    seq(|d|, i requires 0 <= i < |d| => Some(d[i]))
  }

  /** The features of the day `d` from its readings `g`. */
  function Day(d: Date, g: seq<Reading>, sqrt: real -> real): (f: DayFeatures)
    requires |g| > 0
    ensures f.date == d && 1000.0 * f.energyYieldKWh == SumSkipNa(Pv(g))
  {
    DayFeatures(
      d,
      EnergyYield(g),
      MaxSkipNa(Pv(g)),
      StdSkipNa(Lift(Delta(Pv(g))), sqrt),
      MaxDeltaHour(g),
      MorningAfternoonRatio(g),
      StdSkipNa(Values(g, (r: Reading) => r.mpp1A), sqrt),
      StdSkipNa(Values(g, (r: Reading) => r.mpp2A), sqrt),
      StdSkipNa(Values(g, (r: Reading) => r.mpp1V), sqrt),
      StdSkipNa(Values(g, (r: Reading) => r.mpp2V), sqrt))
  }

  /**
   * The day's peak is its largest present PV reading, missing when none is
   * present; its energy yield is a thousandth of the morning plus the
   * afternoon sum; its ratio is present exactly when the afternoon sum is
   * positive.
   */
  lemma DayPeakAndYield(d: Date, g: seq<Reading>, sqrt: real -> real)
    requires |g| > 0
    ensures var f := Day(d, g, sqrt);
      && f.date == d
      && (f.peakPvPowerW.None? <==> forall k :: 0 <= k < |g| ==> g[k].pv.None?)
      && (f.peakPvPowerW.Some? ==>
            (exists k :: 0 <= k < |g| && g[k].pv == f.peakPvPowerW) &&
            forall k :: 0 <= k < |g| && g[k].pv.Some? ==> g[k].pv.value <= f.peakPvPowerW.value)
      && 1000.0 * f.energyYieldKWh == Morning(g) + Afternoon(g)
      && (f.morningAfternoonRatio.Some? <==> Afternoon(g) > 0.0)
  {
    MorningAfternoonSplit(g);
    var pv := Pv(g);
    assert forall k :: 0 <= k < |g| ==> pv[k] == g[k].pv;
  }

  /**
   * The step spread is missing exactly on a day with a single reading, and
   * on such a day every standard-deviation feature is missing.
   */
  lemma SingleReadingDay(d: Date, g: seq<Reading>, sqrt: real -> real)
    requires |g| > 0
    ensures Day(d, g, sqrt).deltaStd.None? <==> |g| == 1
    ensures |g| == 1 ==>
      Day(d, g, sqrt).mpp1AStd.None? && Day(d, g, sqrt).mpp2AStd.None? &&
      Day(d, g, sqrt).mpp1VStd.None? && Day(d, g, sqrt).mpp2VStd.None?
  {
    CountAllPresent(Lift(Delta(Pv(g))));
  }

  /** The `features` list: one entry per date of the file, ascending. */
  function ShadingDays(rows: seq<Reading>, sqrt: real -> real): (days: seq<DayFeatures>)
    ensures DatesOf(days) == Dates(rows)
  {
    var dates := Dates(rows);
    seq(|dates|, i requires 0 <= i < |dates| => DayOf(rows, dates[i], sqrt))
  }

  /** The features of one key of `groupby("date")`, from its group. */
  function DayOf(rows: seq<Reading>, d: Date, sqrt: real -> real): (f: DayFeatures)
    requires d in Dates(rows)
    ensures f.date == d
  {
    GroupsNonEmpty(rows, d);
    Day(d, Group(rows, d), sqrt)
  }

  /** The `date` entry of each day, in order. */
  function DatesOf(days: seq<DayFeatures>): (ds: seq<Date>)
    ensures |ds| == |days|
    ensures forall i :: 0 <= i < |days| ==> ds[i] == days[i].date
  {
    seq(|days|, i requires 0 <= i < |days| => days[i].date)
  }

  /** `pd.DataFrame(features).set_index("date")`: the nine feature columns, dates as the index. */
  function ToTable(days: seq<DayFeatures>): (t: Table)
    ensures WellFormed(t) && t.index == DatesOf(days) && t.names == FeatureNames
  {
    var n := |days|;
    Table(
      DatesOf(days),
      FeatureNames,
      [ Numeric(seq(n, i requires 0 <= i < n => Some(days[i].energyYieldKWh))),
        Numeric(seq(n, i requires 0 <= i < n => days[i].peakPvPowerW)),
        Numeric(seq(n, i requires 0 <= i < n => days[i].deltaStd)),
        Numeric(seq(n, i requires 0 <= i < n => Some(days[i].maxDeltaHour as real))),
        Numeric(seq(n, i requires 0 <= i < n => days[i].morningAfternoonRatio)),
        Numeric(seq(n, i requires 0 <= i < n => days[i].mpp1AStd)),
        Numeric(seq(n, i requires 0 <= i < n => days[i].mpp2AStd)),
        Numeric(seq(n, i requires 0 <= i < n => days[i].mpp1VStd)),
        Numeric(seq(n, i requires 0 <= i < n => days[i].mpp2VStd)) ])
  }

  /**
   * What one plant's iteration of `create_shading_features` writes, or
   * `None` when it writes nothing: the file cannot be read or parsed, a
   * required column is missing, the file has no rows, or no day produced
   * features.
   */
  function ShadingOutput(input: Input, sqrt: real -> real): (out: Option<Table>)
    ensures out.Some? ==> input.Csv? && HasColumns(input.header, RequiredColumns) && |input.rows| > 0
  {
    match input
    case Unreadable => None
    case Csv(header, rows) =>
      if !HasColumns(header, RequiredColumns) || |rows| == 0 then None
      else
        var days := ShadingDays(rows, sqrt);
        if |days| == 0 then None else Some(NormalizeTable(ToTable(days)))
  }

  /**
   * A plant gets a shading file exactly when its file is readable, has the
   * required columns and at least one row; the file has one row per distinct
   * date of the input, ascending, the nine feature columns in their fixed
   * order, and every present value in [0, 1].
   */
  lemma ShadingOutputShape(input: Input, sqrt: real -> real)
    ensures ShadingOutput(input, sqrt).Some? <==>
      input.Csv? && HasColumns(input.header, RequiredColumns) && |input.rows| > 0 &&
      exists i :: 0 <= i < |input.rows| && input.rows[i].date.Some?
    ensures ShadingOutput(input, sqrt).Some? ==>
      var t := ShadingOutput(input, sqrt).value;
      && t.index == Dates(input.rows)
      && (forall d :: d in t.index <==> exists i :: 0 <= i < |input.rows| && input.rows[i].date == Some(d))
      && StrictlyIncreasing(t.index)
      && t.names == FeatureNames
      && WellFormed(t)
      && AllInUnitInterval(t)
  {
    if input.Csv? && HasColumns(input.header, RequiredColumns) && |input.rows| > 0 {
      ShadingOutputIsFrame(input.header, input.rows, sqrt);
      DatesEmpty(input.rows);
      FrameShape(ShadingDays(input.rows, sqrt));
    }
  }

  /**
   * Once the input is usable, the output is the normalised frame of its
   * days; there is none when no row has a timestamp (`not features`).
   */
  lemma ShadingOutputIsFrame(header: set<string>, rows: seq<Reading>, sqrt: real -> real)
    requires HasColumns(header, RequiredColumns) && |rows| > 0
    ensures ShadingOutput(Csv(header, rows), sqrt) ==
      if |Dates(rows)| == 0 then None else Some(NormalizeTable(ToTable(ShadingDays(rows, sqrt))))
  {
    assert |ShadingDays(rows, sqrt)| == |DatesOf(ShadingDays(rows, sqrt))|;
  }

  /** The normalised frame of a list of days: their dates as index, the nine features, all in [0, 1]. */
  lemma FrameShape(days: seq<DayFeatures>)
    ensures var t := NormalizeTable(ToTable(days));
      && t.index == DatesOf(days)
      && t.names == FeatureNames
      && WellFormed(t)
      && AllInUnitInterval(t)
  {
    NormalizedTableInUnitInterval(ToTable(days));
  }

  /** Every present cell of every numeric column lies in [0, 1]. */
  ghost predicate AllInUnitInterval(t: Table)
  {
    forall j, i ::
      0 <= j < |t.columns| && t.columns[j].Numeric? && 0 <= i < |t.columns[j].values| && t.columns[j].values[i].Some?
      ==> 0.0 <= t.columns[j].values[i].value <= 1.0
  }

  lemma NormalizedTableInUnitInterval(t: Table)
    ensures AllInUnitInterval(NormalizeTable(t))
  {
    var r := NormalizeTable(t);
    forall j | 0 <= j < |r.columns| && r.columns[j].Numeric?
      ensures forall i :: 0 <= i < |r.columns[j].values| && r.columns[j].values[i].Some? ==>
        0.0 <= r.columns[j].values[i].value <= 1.0
    {
      NormalizedInUnitInterval(t.columns[j].values);
    }
  }

  /**
   * The daily loop of `create_shading_features`, appending one entry per
   * group. Its `group.empty` check never fires (`GroupsNonEmpty`), so every
   * date gets its entry.
   */
  method CollectShadingDays(rows: seq<Reading>, sqrt: real -> real) returns (features: seq<DayFeatures>)
    ensures features == ShadingDays(rows, sqrt)
  {
    var dates := Dates(rows);
    features := [];
    for i := 0 to |dates|
      invariant features == ShadingDays(rows, sqrt)[..i]
    {
      var day := dates[i];
      var group := Group(rows, day);
      GroupsNonEmpty(rows, day);
      features := features + [Day(day, group, sqrt)];
    }
  }

  /** One plant's iteration of `create_shading_features`, up to the file it writes. */
  method ShadingPlant(input: Input, sqrt: real -> real) returns (out: Option<Table>)
    ensures out == ShadingOutput(input, sqrt)
  {
    if input.Unreadable? {
      return None;
    }
    if !HasColumns(input.header, RequiredColumns) || |input.rows| == 0 {
      return None;
    }
    var features := CollectShadingDays(input.rows, sqrt);
    if |features| == 0 {
      return None;
    }
    var df := new DataFrame(ToTable(features));
    df.Normalize();
    out := Some(df.Value());
  }
}
