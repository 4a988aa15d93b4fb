/**
 * The reductions pandas applies to a column of floats that may hold NaN.
 * Every reduction skips missing cells (pandas' `skipna=True`): a sum of
 * nothing is 0.0, a mean, maximum or minimum of nothing is missing, and a
 * standard deviation (ddof=1) needs at least two present values.
 * All recursion peels off the LAST cell, so that prefixes line up.
 */
module Stats {
  import opened Wrappers

  function Last<T>(xs: seq<T>): T
    requires |xs| > 0
  {
    xs[|xs| - 1]
  }

  function Init<T>(xs: seq<T>): seq<T>
    requires |xs| > 0
  {
    xs[..|xs| - 1]
  }

  /** The number of present (non-NaN) cells, pandas' `count()`. */
  function CountPresent(xs: seq<Option<real>>): (n: nat)
    ensures n <= |xs|
    ensures n == 0 <==> forall i :: 0 <= i < |xs| ==> xs[i].None?
  {
    if |xs| == 0 then 0
    else CountPresent(Init(xs)) + (if Last(xs).Some? then 1 else 0)
  }

  /** A column without NaN counts every cell. */
  lemma {:induction false} CountAllPresent(xs: seq<Option<real>>)
    requires forall i :: 0 <= i < |xs| ==> xs[i].Some?
    ensures CountPresent(xs) == |xs|
  {
    if |xs| > 0 {
      assert forall i :: 0 <= i < |xs| - 1 ==> Init(xs)[i] == xs[i];
      CountAllPresent(Init(xs));
    }
  }

  /** The present cells, in order. */
  function Present(xs: seq<Option<real>>): (ps: seq<real>)
    ensures |ps| == CountPresent(xs)
  {
    if |xs| == 0 then []
    else Present(Init(xs)) + (if Last(xs).Some? then [Last(xs).value] else [])
  }

  /** Sum of a sequence of reals. */
  function Sum(xs: seq<real>): real
  {
    if |xs| == 0 then 0.0 else Sum(Init(xs)) + Last(xs)
  }

  /** `Series.sum()`: the sum of the present cells; 0.0 when none is present. */
  function SumSkipNa(xs: seq<Option<real>>): real
  {
    if |xs| == 0 then 0.0
    else SumSkipNa(Init(xs)) + (if Last(xs).Some? then Last(xs).value else 0.0)
  }

  /** Skipping NaN, the sum is the plain sum of the present cells. */
  lemma {:induction false} SumSkipNaIsSum(xs: seq<Option<real>>)
    ensures SumSkipNa(xs) == Sum(Present(xs))
  {
    if |xs| > 0 {
      SumSkipNaIsSum(Init(xs));
      SumAppendShort(Present(Init(xs)), if Last(xs).Some? then [Last(xs).value] else []);
    }
  }

  /** Appending at most one value adds it to the sum. */
  lemma SumAppendShort(s: seq<real>, t: seq<real>)
    requires |t| <= 1
    ensures Sum(s + t) == Sum(s) + Sum(t)
  {
    if |t| == 1 {
      assert Init(s + t) == s;
      assert Init(t) == [];
    } else {
      assert s + t == s;
    }
  }

  /** `Series.max()`: the largest present cell, missing when none is present. */
  function MaxSkipNa(xs: seq<Option<real>>): (r: Option<real>)
    ensures r.None? <==> forall i :: 0 <= i < |xs| ==> xs[i].None?
    ensures r.Some? ==> exists i :: 0 <= i < |xs| && xs[i] == r
    ensures r.Some? ==> forall i :: 0 <= i < |xs| && xs[i].Some? ==> xs[i].value <= r.value
  {
    if |xs| == 0 then None
    else
      var rest := MaxSkipNa(Init(xs));
      match Last(xs)
      case None => rest
      case Some(v) =>
        if rest.None? || rest.value < v then Some(v) else rest
  }

  /** `Series.min()`: the smallest present cell, missing when none is present. */
  function MinSkipNa(xs: seq<Option<real>>): (r: Option<real>)
    ensures r.None? <==> forall i :: 0 <= i < |xs| ==> xs[i].None?
    ensures r.Some? ==> exists i :: 0 <= i < |xs| && xs[i] == r
    ensures r.Some? ==> forall i :: 0 <= i < |xs| && xs[i].Some? ==> r.value <= xs[i].value
  {
    if |xs| == 0 then None
    else
      var rest := MinSkipNa(Init(xs));
      match Last(xs)
      case None => rest
      case Some(v) =>
        if rest.None? || v < rest.value then Some(v) else rest
  }

  /** `Series.mean()`: sum over count of the present cells, missing when none is present. */
  function MeanSkipNa(xs: seq<Option<real>>): (r: Option<real>)
    ensures r.Some? <==> CountPresent(xs) > 0
  {
    var n := CountPresent(xs);
    if n == 0 then None else Some(SumSkipNa(xs) / n as real)
  }

  /** Sum of squared deviations of `ps` from `m`. */
  function SquaredDeviations(ps: seq<real>, m: real): (r: real)
    ensures r >= 0.0
  {
    if |ps| == 0 then 0.0
    else
      var d := Last(ps) - m;
      SquareNonNegative(d);
      SquaredDeviations(Init(ps), m) + d * d
  }

  lemma SquareNonNegative(d: real)
    ensures d * d >= 0.0
  {
  }

  /** Sample variance with pandas' default ddof=1; it needs two values. */
  function SampleVariance(ps: seq<real>): (r: real)
    requires |ps| >= 2
    ensures r >= 0.0
  {
    SquaredDeviations(ps, Sum(ps) / |ps| as real) / (|ps| - 1) as real
  }

  /**
   * `Series.std()`: the square root of the sample variance of the present
   * cells, missing when fewer than two are present. The square root itself is
   * the parameter `sqrt`; only the variance is computed here.
   */
  function StdSkipNa(xs: seq<Option<real>>, sqrt: real -> real): (r: Option<real>)
    ensures r.Some? <==> CountPresent(xs) >= 2
  {
    var ps := Present(xs);
    if |ps| < 2 then None else Some(sqrt(SampleVariance(ps)))
  }

  /** `xs[mask]`: the cells whose mask entry is true, in order. */
  function Select(xs: seq<Option<real>>, mask: seq<bool>): (r: seq<Option<real>>)
    requires |xs| == |mask|
    ensures |r| <= |xs|
  {
    if |xs| == 0 then []
    else Select(Init(xs), Init(mask)) + (if Last(mask) then [Last(xs)] else [])
  }

  /** `~mask`. */
  function Negate(mask: seq<bool>): (r: seq<bool>)
    ensures |r| == |mask|
    ensures forall i :: 0 <= i < |mask| ==> r[i] == !mask[i]
  {
    seq(|mask|, i requires 0 <= i < |mask| => !mask[i])
  }

  /** Splitting a column by a mask and its negation splits its sum. */
  lemma {:induction false} SumSplit(xs: seq<Option<real>>, mask: seq<bool>)
    requires |xs| == |mask|
    ensures SumSkipNa(Select(xs, mask)) + SumSkipNa(Select(xs, Negate(mask))) == SumSkipNa(xs)
  {
    if |xs| > 0 {
      assert Init(Negate(mask)) == Negate(Init(mask));
      SumSplit(Init(xs), Init(mask));
      var a := Select(Init(xs), Init(mask));
      var b := Select(Init(xs), Negate(Init(mask)));
      if Last(mask) {
        assert Select(xs, mask) == a + [Last(xs)];
        assert Init(Select(xs, mask)) == a;
        assert Select(xs, Negate(mask)) == b;
      } else {
        assert Select(xs, mask) == a;
        assert Select(xs, Negate(mask)) == b + [Last(xs)];
        assert Init(Select(xs, Negate(mask))) == b;
      }
    }
  }

  /** `n` copies of `x` added up; keeps the bounds below free of products. */
  function Repeat(n: nat, x: real): real
  {
    if n == 0 then 0.0 else Repeat(n - 1, x) + x
  }

  lemma {:induction false} RepeatIsProduct(n: nat, x: real)
    ensures Repeat(n, x) == n as real * x
  {
    if n > 0 {
      RepeatIsProduct(n - 1, x);
      assert (n - 1) as real * x + x == n as real * x;
    }
  }

  /** Every present cell at most `hi` bounds the sum by count copies of `hi`. */
  lemma {:induction false} SumAtMost(xs: seq<Option<real>>, hi: real)
    requires forall i :: 0 <= i < |xs| && xs[i].Some? ==> xs[i].value <= hi
    ensures SumSkipNa(xs) <= Repeat(CountPresent(xs), hi)
  {
    if |xs| > 0 {
      assert forall i :: 0 <= i < |xs| - 1 ==> Init(xs)[i] == xs[i];
      SumAtMost(Init(xs), hi);
    }
  }

  /** Every present cell at least `lo` bounds the sum by count copies of `lo`. */
  lemma {:induction false} SumAtLeast(xs: seq<Option<real>>, lo: real)
    requires forall i :: 0 <= i < |xs| && xs[i].Some? ==> lo <= xs[i].value
    ensures Repeat(CountPresent(xs), lo) <= SumSkipNa(xs)
  {
    if |xs| > 0 {
      assert forall i :: 0 <= i < |xs| - 1 ==> Init(xs)[i] == xs[i];
      SumAtLeast(Init(xs), lo);
    }
  }

  lemma DivAtMost(s: real, n: nat, hi: real)
    requires n > 0 && s <= Repeat(n, hi)
    ensures s / n as real <= hi
  {
    RepeatIsProduct(n, hi);
  }

  lemma DivAtLeast(s: real, n: nat, lo: real)
    requires n > 0 && Repeat(n, lo) <= s
    ensures lo <= s / n as real
  {
    RepeatIsProduct(n, lo);
  }

  /** A mean of cells that all lie in [lo, hi] lies in [lo, hi]. */
  lemma MeanBetween(xs: seq<Option<real>>, lo: real, hi: real)
    requires CountPresent(xs) > 0
    requires forall i :: 0 <= i < |xs| && xs[i].Some? ==> lo <= xs[i].value <= hi
    ensures MeanSkipNa(xs).Some? && lo <= MeanSkipNa(xs).value <= hi
  {
    SumAtMost(xs, hi);
    DivAtMost(SumSkipNa(xs), CountPresent(xs), hi);
    SumAtLeast(xs, lo);
    DivAtLeast(SumSkipNa(xs), CountPresent(xs), lo);
  }

  /** An upper bound of the present cells that is itself present is the maximum. */
  lemma MaxIs(xs: seq<Option<real>>, k: nat)
    requires k < |xs| && xs[k].Some?
    requires forall i :: 0 <= i < |xs| && xs[i].Some? ==> xs[i].value <= xs[k].value
    ensures MaxSkipNa(xs) == xs[k]
  {
    var r := MaxSkipNa(xs);
    var j :| 0 <= j < |xs| && xs[j] == r;
    assert xs[k].value <= r.value;
  }

  /** A lower bound of the present cells that is itself present is the minimum. */
  lemma MinIs(xs: seq<Option<real>>, k: nat)
    requires k < |xs| && xs[k].Some?
    requires forall i :: 0 <= i < |xs| && xs[i].Some? ==> xs[k].value <= xs[i].value
    ensures MinSkipNa(xs) == xs[k]
  {
    var r := MinSkipNa(xs);
    var j :| 0 <= j < |xs| && xs[j] == r;
    assert r.value <= xs[k].value;
  }
}
