/**
 * The input of the feature stage: one differences file per plant, already
 * read, with its timestamps already parsed into a date and an hour of day;
 * and pandas' `groupby("date")`, which visits the dates in ascending order,
 * keeps each date's rows in file order and drops the rows whose timestamp
 * is missing.
 */
module Readings {
  import opened Wrappers
  import opened Frames

  /**
   * One row of a differences file; every numeric cell may be NaN, and the
   * date is `None` when the timestamp is missing (it parses to NaT).
   */
  datatype Reading = Reading(
    date: Option<Date>,
    hour: nat,
    pv: Option<real>,
    battery: Option<real>,
    soc: Option<real>,
    load: Option<real>,
    mpp1A: Option<real>,
    mpp2A: Option<real>,
    mpp1V: Option<real>,
    mpp2V: Option<real>,
    difference: Option<real>)

  /**
   * A differences file: `Unreadable` when reading it or parsing its
   * timestamps raises; otherwise its header and its rows.
   */
  datatype Input = Unreadable | Csv(header: set<string>, rows: seq<Reading>)

  /** `all(col in df.columns for col in required_cols)`. */
  predicate HasColumns(header: set<string>, required: seq<string>)
  {
    forall c :: c in required ==> c in header
  }

  ghost predicate StrictlyIncreasing(s: seq<Date>)
  {
    forall i, j :: 0 <= i < j < |s| ==> s[i] < s[j]
  }

  /** Ascending row positions. */
  ghost predicate Increasing(k: seq<nat>)
  {
    forall p, q :: 0 <= p < q < |k| ==> k[p] < k[q]
  }

  /** Inserts `d` into an ascending list of distinct dates. */
  function Insert(s: seq<Date>, d: Date): (r: seq<Date>)
    requires StrictlyIncreasing(s)
    ensures StrictlyIncreasing(r)
    ensures forall x :: x in r <==> x in s || x == d
  {
    if |s| == 0 then [d]
    else if d < s[0] then [d] + s
    else if d == s[0] then s
    else
      var rest := Insert(s[1..], d);
      assert forall x :: x in rest ==> s[0] < x;
      var r := [s[0]] + rest;
      assert forall j :: 1 <= j < |r| ==> r[j] == rest[j - 1] && r[j] in rest;
      r
  }

  /** The group keys of `groupby("date")`: every date of the rows once, ascending. */
  function Dates(rows: seq<Reading>): (r: seq<Date>)
    ensures StrictlyIncreasing(r)
    ensures forall d :: d in r <==> exists i :: 0 <= i < |rows| && rows[i].date == Some(d)
  {
    if |rows| == 0 then []
    else
      var init := rows[..|rows| - 1];
      var last := rows[|rows| - 1];
      assert forall i :: 0 <= i < |init| ==> init[i] == rows[i];
      match last.date
      case None => Dates(init)
      case Some(d) => Insert(Dates(init), d)
  }

  /** There is a key exactly when some row has a timestamp. */
  lemma DatesEmpty(rows: seq<Reading>)
    ensures |Dates(rows)| == 0 <==> forall i :: 0 <= i < |rows| ==> rows[i].date.None?
  {
    if |Dates(rows)| > 0 {
      assert Dates(rows)[0] in Dates(rows);
    }
    if i :| 0 <= i < |rows| && rows[i].date.Some? {
      assert rows[i].date.value in Dates(rows);
    }
  }

  /** The group of one date: its rows, in file order, each as often as it occurs. */
  function Group(rows: seq<Reading>, d: Date): (g: seq<Reading>)
    ensures forall k :: 0 <= k < |g| ==> g[k].date == Some(d)
    ensures forall r :: r in g <==> r in rows && r.date == Some(d)
  {
    if |rows| == 0 then []
    else
      var init := rows[..|rows| - 1];
      assert rows == init + [rows[|rows| - 1]];
      Group(init, d) + (if rows[|rows| - 1].date == Some(d) then [rows[|rows| - 1]] else [])
  }

  /** A group holds every row of its date as often as the file does, and no other row. */
  lemma {:induction false} GroupMultiplicity(rows: seq<Reading>, d: Date)
    ensures forall r :: multiset(Group(rows, d))[r] == if r.date == Some(d) then multiset(rows)[r] else 0
  {
    if |rows| > 0 {
      var init := rows[..|rows| - 1];
      assert rows == init + [rows[|rows| - 1]];
      GroupMultiplicity(init, d);
    }
  }

  /** The positions of the rows dated `d` among the first `n`, ascending. */
  function Positions(rows: seq<Reading>, d: Date, n: nat): (k: seq<nat>)
    requires n <= |rows|
    ensures Increasing(k)
    ensures forall p :: 0 <= p < |k| ==> k[p] < n
    ensures forall i: nat :: i in k <==> i < n && rows[i].date == Some(d)
  {
    if n == 0 then []
    else Positions(rows, d, n - 1) + (if rows[n - 1].date == Some(d) then [n - 1] else [])
  }

  /** A group lists the rows of its date in file order: row `Positions[k]` is its `k`-th entry. */
  lemma {:induction false} GroupInFileOrder(rows: seq<Reading>, d: Date)
    ensures var g, k := Group(rows, d), Positions(rows, d, |rows|);
      |g| == |k| && forall p :: 0 <= p < |k| ==> g[p] == rows[k[p]]
  {
    if |rows| > 0 {
      var init := rows[..|rows| - 1];
      GroupInFileOrder(init, d);
      PositionsAgree(init, rows, d, |init|);
    }
  }

  /** The positions among the first `n` rows depend only on those rows. */
  lemma {:induction false} PositionsAgree(rows: seq<Reading>, other: seq<Reading>, d: Date, n: nat)
    requires n <= |rows| && n <= |other|
    requires forall i :: 0 <= i < n ==> rows[i] == other[i]
    ensures Positions(rows, d, n) == Positions(other, d, n)
  {
    if n > 0 {
      PositionsAgree(rows, other, d, n - 1);
    }
  }

  /** Every key of `groupby("date")` has a non-empty group. */
  lemma GroupsNonEmpty(rows: seq<Reading>, d: Date)
    requires d in Dates(rows)
    ensures |Group(rows, d)| > 0
  {
    var i :| 0 <= i < |rows| && rows[i].date == Some(d);
    assert rows[i] in Group(rows, d);
  }

  /** One column of a group, `group[col]`. */
  function Values(g: seq<Reading>, col: Reading -> Option<real>): (vs: seq<Option<real>>)
    ensures |vs| == |g|
    ensures forall k :: 0 <= k < |g| ==> vs[k] == col(g[k])
  {
    seq(|g|, k requires 0 <= k < |g| => col(g[k]))
  }
}
