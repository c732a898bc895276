/** The 7-day incidence metric (`metrica_incidencia_7d`) and its range check
    (`validar_metrica_incidencia_7d`). The daily incidence is new cases per
    100 000 inhabitants; the 7-day incidence of a row is the mean of the
    non-null daily values over the last seven rows of its location, row
    included, and a shorter window is accepted (`min_periods=1`). */
module Incidence {
  import opened Frame
  import opened Windows

  const PerHundredThousand: real := 100000.0
  /** The mean window: seven rows, one non-null value enough for a mean. */
  const MeanWindow: nat := 7
  const MeanMinPeriods: nat := 1
  /** The check's accepted range is [0, UpperBound]. */
  const UpperBound: real := 2000.0
  /** The check shows at most five example rows. */
  const SampleSize: nat := 5

  /** New cases per 100 000 inhabitants for one row. */
  function DailyIncidence(r: CleanRow): (d: Option<real>)
    ensures d.Some? <==> r.newCases.Some? && r.population.Some? && r.population.value != 0
  {
    if r.newCases.Some? && r.population.Some? && r.population.value != 0 then
      Some((r.newCases.value as real / r.population.value as real) * PerHundredThousand)
    else
      None
  }

  /** A defined daily value is new cases per 100 000 inhabitants: times the
      population it gives new cases times 100 000. */
  lemma DailyIncidenceScales(r: CleanRow)
    requires DailyIncidence(r).Some?
    ensures DailyIncidence(r).value * (r.population.value as real) == (r.newCases.value as real) * PerHundredThousand
  {
    var q := r.newCases.value as real / r.population.value as real;
    assert q * (r.population.value as real) == r.newCases.value as real;
  }

  /** The incidencia_diaria column. */
  function DailyColumn(data: seq<CleanRow>): (col: seq<Option<real>>)
    ensures |col| == |data|
  {
    seq(|data|, i requires 0 <= i < |data| => DailyIncidence(data[i]))
  }

  function SumReals(s: seq<real>): real
  {
    if s == [] then 0.0 else SumReals(s[..|s| - 1]) + s[|s| - 1]
  }

  /** The mean of a rolling window: the mean of its non-null values, or null
      when fewer than `minPeriods` of them (or none at all) are present. */
  function RollingMean(window: seq<Option<real>>, minPeriods: nat): (m: Option<real>)
    ensures m.Some? <==> |Present(window)| >= minPeriods && |Present(window)| > 0
    ensures m.Some? ==> m.value * (|Present(window)| as real) == SumReals(Present(window))
  {
    var p := Present(window);
    if |p| < minPeriods || |p| == 0 then None else Some(SumReals(p) / |p| as real)
  }

  /** The grouped rolling mean of column `col` at row `i`. */
  function RollingMeanAt(locs: seq<Option<string>>, col: seq<Option<real>>, i: nat): Option<real>
    requires |col| == |locs| && i < |locs|
  {
    if locs[i].None? then None else RollingMean(WindowAt(locs, col, i, MeanWindow), MeanMinPeriods)
  }

  /** incidencia_7d at row `i`. */
  function Incidence7dAt(data: seq<CleanRow>, i: nat): Option<real>
    requires i < |data|
  {
    RollingMeanAt(Locations(data), DailyColumn(data), i)
  }

  /** A row of the metric: fecha, pais, incidencia_7d. */
  datatype IncidenceRow = IncidenceRow(date: Option<int>, country: Option<string>, incidence7d: Option<real>)

  /** The metric table the stage produces: one row per input row, in order. */
  function IncidenceTable(data: seq<CleanRow>): (t: seq<IncidenceRow>)
    ensures |t| == |data|
  {
    seq(|data|, i requires 0 <= i < |data| => IncidenceRow(data[i].date, data[i].location, Incidence7dAt(data, i)))
  }

  /** The stage's working frame: the cleaned row plus the two added columns. */
  datatype IncidenceWork = IncidenceWork(row: CleanRow, daily: Option<real>, incidence7d: Option<real>)

  /** Keeps date, location and incidencia_7d, under the names fecha and pais for the first two. */
  function SelectIncidenceColumns(work: seq<IncidenceWork>): (t: seq<IncidenceRow>)
    ensures |t| == |work|
  {
    seq(|work|, i requires 0 <= i < |work| => IncidenceRow(work[i].row.date, work[i].row.location, work[i].incidence7d))
  }

  /** Fills incidencia_diaria with each row's daily incidence. */
  method SetDaily(df: array<IncidenceWork>)
    modifies df
    ensures forall j :: 0 <= j < df.Length ==> df[j] == old(df[j]).(daily := DailyIncidence(old(df[j]).row))
  {
    for i := 0 to df.Length
      invariant forall j :: 0 <= j < i ==> df[j] == old(df[j]).(daily := DailyIncidence(old(df[j]).row))
      invariant forall j :: i <= j < df.Length ==> df[j] == old(df[j])
    {
      df[i] := df[i].(daily := DailyIncidence(df[i].row));
    }
  }

  /** Fills incidencia_7d with the rolling mean of the daily values of each row's location. */
  method SetIncidence7d(df: array<IncidenceWork>, locs: seq<Option<string>>, daily: seq<Option<real>>)
    requires |locs| == |daily| == df.Length
    modifies df
    ensures forall j :: 0 <= j < df.Length ==> df[j] == old(df[j]).(incidence7d := RollingMeanAt(locs, daily, j))
  {
    for i := 0 to df.Length
      invariant forall j :: 0 <= j < i ==> df[j] == old(df[j]).(incidence7d := RollingMeanAt(locs, daily, j))
      invariant forall j :: i <= j < df.Length ==> df[j] == old(df[j])
    {
      df[i] := df[i].(incidence7d := RollingMeanAt(locs, daily, i));
    }
  }

  /** Copies the cleaned table, adds the daily column, then the grouped
      rolling mean of it, then keeps and renames three columns. */
  method MetricIncidence7d(data: seq<CleanRow>) returns (result: seq<IncidenceRow>)
    ensures result == IncidenceTable(data)
  {
    var n := |data|;
    var df := new IncidenceWork[n](j requires 0 <= j < n => IncidenceWork(data[j], None, None));
    SetDaily(df);
    var locs := seq(n, j requires 0 <= j < n reads df => df[j].row.location);
    var daily := seq(n, j requires 0 <= j < n reads df => df[j].daily);
    assert locs == Locations(data);
    assert daily == DailyColumn(data);
    SetIncidence7d(df, locs, daily);
    var work := df[..];
    result := SelectIncidenceColumns(work);
    forall j | 0 <= j < n ensures result[j] == IncidenceTable(data)[j] {
      assert work[j].row == data[j] && work[j].incidence7d == Incidence7dAt(data, j);
    }
  }

  // ---------------------------------------------------------------------
  // The range check

  /** Outside [0, UpperBound]; a null value is never out of range. */
  predicate OutOfRange(r: IncidenceRow)
  {
    r.incidence7d.Some? && (r.incidence7d.value < 0.0 || r.incidence7d.value > UpperBound)
  }

  /** passed, total_registros, fuera_de_rango and the example rows (none
      means "Ninguno"). */
  datatype IncidenceCheck = IncidenceCheck(passed: bool, totalRecords: nat, outOfRange: nat, sample: seq<IncidenceRow>)

  function CheckIncidence(t: seq<IncidenceRow>): (c: IncidenceCheck)
    ensures c.totalRecords == |t|
    ensures c.outOfRange == |set i | 0 <= i < |t| && OutOfRange(t[i])|
    ensures c.passed <==> forall i :: 0 <= i < |t| ==> !OutOfRange(t[i])
    ensures c.passed <==> c.outOfRange == 0
    ensures |c.sample| == Min(SampleSize, c.outOfRange)
    ensures forall k :: 0 <= k < |c.sample| ==> OutOfRange(c.sample[k])
    ensures c.sample <= Filter(OutOfRange, t)
  {
    var out := Filter(OutOfRange, t);
    FilterLength(OutOfRange, t);
    assert out == [] <==> forall i :: 0 <= i < |t| ==> !OutOfRange(t[i]) by {
      if out != [] {
        assert out[0] in t;
      }
    }
    OutOfRangeCount(t);
    IncidenceCheck(out == [], |t|, |out|, out[..Min(SampleSize, |out|)])
  }

  lemma OutOfRangeCount(t: seq<IncidenceRow>)
    ensures |Filter(OutOfRange, t)| == |set i | 0 <= i < |t| && OutOfRange(t[i])|
  {
    FilterLength(OutOfRange, t);
    assert Positions(OutOfRange, t) == set i | 0 <= i < |t| && OutOfRange(t[i]);
  }

  /** The sample rows are rows of the metric, in its order. */
  lemma SampleIsOrderedSubsequence(t: seq<IncidenceRow>)
    ensures IsSubseq(CheckIncidence(t).sample, t)
  {
    var out := Filter(OutOfRange, t);
    var sample := CheckIncidence(t).sample;
    FilterIsSubseq(OutOfRange, t);
    PrefixIsSubseq(sample, out);
    SubseqTransitive(sample, out, t);
  }

  lemma {:induction false} PrefixIsSubseq<T>(a: seq<T>, b: seq<T>)
    requires a <= b
    ensures IsSubseq(a, b)
    decreases |b|
  {
    if a != [] && |a| < |b| {
      PrefixIsSubseq(a, b[..|b| - 1]);
      SubseqExtend(a, b[..|b| - 1], b[|b| - 1]);
      assert b[..|b| - 1] + [b[|b| - 1]] == b;
    } else if a != [] {
      assert a == b;
      SubseqReflexive(a);
    }
  }

  lemma {:induction false} SubseqReflexive<T>(a: seq<T>)
    ensures IsSubseq(a, a)
  {
    if a != [] {
      SubseqReflexive(a[..|a| - 1]);
    }
  }

  /** The range bounds are inclusive and a null is never counted: 2000 and
      1999.999 pass, 2500 fails. */
  lemma RangeBoundaries(d: Option<int>, c: Option<string>)
    ensures CheckIncidence([IncidenceRow(d, c, Some(2000.0)), IncidenceRow(d, c, Some(1999.999)),
                            IncidenceRow(d, c, Some(0.0)), IncidenceRow(d, c, None)]).passed
    ensures !CheckIncidence([IncidenceRow(d, c, Some(2500.0))]).passed
    ensures !CheckIncidence([IncidenceRow(d, c, Some(-0.5))]).passed
  {
    var bad := [IncidenceRow(d, c, Some(2500.0))];
    assert OutOfRange(bad[0]);
  }

  // ---------------------------------------------------------------------
  // What the metric computes

  lemma SumRealsSnoc(s: seq<real>, x: real)
    ensures SumReals(s + [x]) == SumReals(s) + x
  {
    assert (s + [x])[..|s|] == s;
  }

  lemma {:induction false} SumRealsBounds(s: seq<real>, lo: real, hi: real)
    requires forall k :: 0 <= k < |s| ==> lo <= s[k] <= hi
    ensures (|s| as real) * lo <= SumReals(s) <= (|s| as real) * hi
  {
    if s != [] {
      SumRealsBounds(s[..|s| - 1], lo, hi);
    }
  }

  /** A mean lies between the smallest and the largest value averaged. */
  lemma MeanBounds(s: seq<real>, m: real, lo: real, hi: real)
    requires |s| > 0
    requires forall k :: 0 <= k < |s| ==> lo <= s[k] <= hi
    requires m * (|s| as real) == SumReals(s)
    ensures lo <= m <= hi
  {
    SumRealsBounds(s, lo, hi);
    var n := |s| as real;
    assert (m - lo) * n == m * n - lo * n;
    NonNegativeFactor(m - lo, n);
    assert (hi - m) * n == hi * n - m * n;
    NonNegativeFactor(hi - m, n);
  }

  /** A product with a positive factor is non-negative only when the other is. */
  lemma NonNegativeFactor(x: real, n: real)
    requires n > 0.0 && x * n >= 0.0
    ensures x >= 0.0
  {
  }

  /** When every daily incidence of the table lies in [lo, hi], so does every
      7-day incidence: a mean of values from the row's own location. */
  lemma IncidenceWithinDailyRange(data: seq<CleanRow>, i: nat, lo: real, hi: real)
    requires i < |data|
    requires forall j :: 0 <= j < |data| && DailyIncidence(data[j]).Some? ==>
      lo <= DailyIncidence(data[j]).value <= hi
    ensures Incidence7dAt(data, i).Some? ==> lo <= Incidence7dAt(data, i).value <= hi
  {
    var locs, daily := Locations(data), DailyColumn(data);
    if locs[i].Some? {
      var inRange := (v: real) => lo <= v <= hi;
      WindowValuesSatisfy(locs, daily, i, MeanWindow, inRange);
      var p := Present(WindowAt(locs, daily, i, MeanWindow));
      if Incidence7dAt(data, i).Some? {
        MeanBounds(p, Incidence7dAt(data, i).value, lo, hi);
      }
    }
  }

  /** The check passes on the metric of any table whose daily incidences all
      lie in [0, UpperBound]. */
  lemma CheckPassesWhenDailyInRange(data: seq<CleanRow>)
    requires forall j :: 0 <= j < |data| && DailyIncidence(data[j]).Some? ==>
      0.0 <= DailyIncidence(data[j]).value <= UpperBound
    ensures CheckIncidence(IncidenceTable(data)).passed
  {
    var t := IncidenceTable(data);
    forall i | 0 <= i < |t| ensures !OutOfRange(t[i]) {
      IncidenceWithinDailyRange(data, i, 0.0, UpperBound);
    }
  }

  /** The group values of a mapped column are the mapped group values. */
  lemma {:induction false} GroupValuesOfDaily(data: seq<CleanRow>, loc: string, n: nat)
    requires n <= |data|
    ensures var rows := GroupValues(Locations(data), data, loc, n);
      GroupValues(Locations(data), DailyColumn(data), loc, n) ==
      seq(|rows|, k requires 0 <= k < |rows| => DailyIncidence(rows[k]))
  {
    if n > 0 {
      GroupValuesOfDaily(data, loc, n - 1);
    }
  }

  /** The daily incidences of a run of rows, all defined. */
  function DailyValues(rows: seq<CleanRow>): (vals: seq<real>)
    requires forall k :: 0 <= k < |rows| ==> DailyIncidence(rows[k]).Some?
    ensures |vals| == |rows|
  {
    seq(|rows|, k requires 0 <= k < |rows| => DailyIncidence(rows[k]).value)
  }

  /** The mean of the daily incidences of a run of rows, all defined. */
  function MeanDaily(rows: seq<CleanRow>): real
    requires forall k :: 0 <= k < |rows| ==> DailyIncidence(rows[k]).Some?
  {
    if rows == [] then 0.0 else SumReals(DailyValues(rows)) / |rows| as real
  }

  /** With every daily incidence defined, the 7-day incidence of row `i` is
      the mean daily incidence over the last min(7, k) rows of its location,
      where k counts that location's rows up to and including row `i`. */
  lemma IncidenceIsMeanOfTrailingRows(data: seq<CleanRow>, i: nat)
    requires i < |data| && data[i].location.Some?
    requires forall j :: 0 <= j < |data| ==> DailyIncidence(data[j]).Some?
    ensures var group := GroupValues(Locations(data), data, data[i].location.value, i + 1);
      var rows := Trailing(group, MeanWindow);
      && |group| >= 1 && |rows| == Min(MeanWindow, |group|)
      && rows[|rows| - 1] == data[i]
      && (forall k :: 0 <= k < |rows| ==> DailyIncidence(rows[k]).Some?)
      && Incidence7dAt(data, i) == Some(MeanDaily(rows))
  {
    var locs, loc := Locations(data), data[i].location.value;
    var group := GroupValues(locs, data, loc, i + 1);
    GroupValuesAtOwnRow(locs, data, i);
    var rows := Trailing(group, MeanWindow);
    TrailingRowsHaveDaily(data, i);
    DailyWindowOfRows(data, i);
    PresentOfDailyWindow(WindowAt(locs, DailyColumn(data), i, MeanWindow), rows);
  }

  /** With every daily incidence defined, so is that of every trailing row. */
  lemma TrailingRowsHaveDaily(data: seq<CleanRow>, i: nat)
    requires i < |data| && data[i].location.Some?
    requires forall j :: 0 <= j < |data| ==> DailyIncidence(data[j]).Some?
    ensures var rows := Trailing(GroupValues(Locations(data), data, data[i].location.value, i + 1), MeanWindow);
      forall k :: 0 <= k < |rows| ==> DailyIncidence(rows[k]).Some?
  {
    var locs, loc := Locations(data), data[i].location.value;
    var group := GroupValues(locs, data, loc, i + 1);
    var rows := Trailing(group, MeanWindow);
    var hasDaily := (r: CleanRow) => DailyIncidence(r).Some?;
    GroupValuesSatisfy(locs, data, loc, i + 1, hasDaily);
    forall k | 0 <= k < |rows| ensures DailyIncidence(rows[k]).Some? {
      assert rows[k] == group[|group| - |rows| + k];
      assert hasDaily(group[|group| - |rows| + k]);
    }
  }

  /** A window holding the defined daily values of some rows keeps them all. */
  lemma PresentOfDailyWindow(win: seq<Option<real>>, rows: seq<CleanRow>)
    requires |win| == |rows|
    requires forall k :: 0 <= k < |rows| ==> DailyIncidence(rows[k]).Some?
    requires forall k :: 0 <= k < |win| ==> win[k] == DailyIncidence(rows[k])
    ensures Present(win) == DailyValues(rows)
  {
    PresentAllSome(win);
  }

  /** The daily-incidence window at row `i` holds, entry by entry, the daily
      incidence of the trailing rows of its location. */
  lemma DailyWindowOfRows(data: seq<CleanRow>, i: nat)
    requires i < |data| && data[i].location.Some?
    ensures var rows := Trailing(GroupValues(Locations(data), data, data[i].location.value, i + 1), MeanWindow);
      var win := WindowAt(Locations(data), DailyColumn(data), i, MeanWindow);
      && |win| == |rows|
      && forall k :: 0 <= k < |win| ==> win[k] == DailyIncidence(rows[k])
  {
    var locs, daily, loc := Locations(data), DailyColumn(data), data[i].location.value;
    var group := GroupValues(locs, data, loc, i + 1);
    var rows := Trailing(group, MeanWindow);
    GroupValuesOfDaily(data, loc, i + 1);
    var win := WindowAt(locs, daily, i, MeanWindow);
    forall k | 0 <= k < |win| ensures win[k] == DailyIncidence(rows[k]) {
      assert win[k] == GroupValues(locs, daily, loc, i + 1)[|group| - |rows| + k];
      assert rows[k] == group[|group| - |rows| + k];
    }
  }

  /** The first row of a location already has a 7-day incidence, its own
      daily value: the mean accepts a one-row window. */
  lemma FirstRowOfLocation(data: seq<CleanRow>, i: nat)
    requires i < |data| && data[i].location.Some?
    requires forall j :: 0 <= j < i ==> data[j].location != data[i].location
    ensures Incidence7dAt(data, i) == DailyIncidence(data[i])
  {
    var locs, daily, loc := Locations(data), DailyColumn(data), data[i].location.value;
    GroupValuesNone(locs, daily, loc, i);
    GroupValuesAtOwnRow(locs, daily, i);
    var win := WindowAt(locs, daily, i, MeanWindow);
    assert win == [daily[i]];
    assert [daily[i]][..0] == [];
    if daily[i].Some? {
      assert Present(win) == [daily[i].value];
      assert SumReals([daily[i].value]) == daily[i].value by {
        assert [daily[i].value][..0] == [];
      }
    }
  }

  lemma {:induction false} GroupValuesNone<T>(locs: seq<Option<string>>, col: seq<T>, loc: string, n: nat)
    requires |col| == |locs| && n <= |locs|
    requires forall j :: 0 <= j < n ==> locs[j] != Some(loc)
    ensures GroupValues(locs, col, loc, n) == []
  {
    if n > 0 {
      GroupValuesNone(locs, col, loc, n - 1);
    }
  }

  /** Rows appended later never change an earlier row's 7-day incidence:
      the window only looks back. */
  lemma IncidenceOnlyLooksBack(data: seq<CleanRow>, more: seq<CleanRow>, i: nat)
    requires i < |data|
    ensures Incidence7dAt(data + more, i) == Incidence7dAt(data, i)
  {
    var all := data + more;
    assert Locations(all) == Locations(data) + Locations(more);
    assert DailyColumn(all) == DailyColumn(data) + DailyColumn(more);
    if all[i].location.Some? {
      GroupValuesAppend(Locations(data), DailyColumn(data), Locations(more), DailyColumn(more),
                        all[i].location.value, i + 1);
    }
  }

  /** Locations never mix: a row's 7-day incidence is the same in two tables
      that hold its location at the same rows with the same data, whatever
      the other locations' rows hold. */
  lemma IncidenceOwnLocationOnly(data: seq<CleanRow>, data': seq<CleanRow>, i: nat)
    requires i < |data| && i < |data'| && data[i].location.Some?
    requires forall j :: 0 <= j <= i ==>
      (data[j].location == data[i].location <==> data'[j].location == data[i].location)
    requires forall j :: 0 <= j <= i && data[j].location == data[i].location ==> data[j] == data'[j]
    ensures Incidence7dAt(data, i) == Incidence7dAt(data', i)
  {
    GroupValuesOwnRowsOnly(Locations(data), DailyColumn(data), Locations(data'), DailyColumn(data'),
                           data[i].location.value, i + 1);
  }

  // ---------------------------------------------------------------------
  // A worked series

  /** One location, population 100 000, new cases 10, 20, ..., 80. */
  function RisingSeries(): seq<CleanRow>
  {
    seq(8, j requires 0 <= j < 8 => CleanRow(Some("Ecuador"), Some(j), Some(10 * (j + 1)), Some(0), Some(100000)))
  }

  lemma RisingSeriesDaily()
    ensures DailyColumn(RisingSeries()) ==
      [Some(10.0), Some(20.0), Some(30.0), Some(40.0), Some(50.0), Some(60.0), Some(70.0), Some(80.0)]
  {
    var data := RisingSeries();
    forall j | 0 <= j < 8 ensures DailyColumn(data)[j] == Some(10.0 * (j + 1) as real) {
      DailyIncidenceScales(data[j]);
      assert DailyIncidence(data[j]).value * 100000.0 == (10 * (j + 1)) as real * 100000.0;
    }
  }

  /** On the rising series the first row's incidence is 10: a one-row window. */
  lemma RisingSeriesFirstRow()
    ensures Incidence7dAt(RisingSeries(), 0) == Some(10.0)
  {
    var data := RisingSeries();
    var locs, daily := Locations(data), DailyColumn(data);
    RisingSeriesDaily();
    GroupValuesSingleLocation(locs, daily, "Ecuador", 1);
    var w0 := WindowAt(locs, daily, 0, MeanWindow);
    assert w0 == [Some(10.0)];
    assert w0[..0] == [];
    assert Present(w0) == [10.0];
    assert SumReals([10.0]) == 10.0 by { assert [10.0][..0] == []; }
  }

  /** On the rising series the eighth row's incidence is 50, the mean of
      20, ..., 80: the first row has left the window. */
  lemma RisingSeriesEighthRow()
    ensures Incidence7dAt(RisingSeries(), 7) == Some(50.0)
  {
    var data := RisingSeries();
    var locs, daily := Locations(data), DailyColumn(data);
    RisingSeriesDaily();
    GroupValuesSingleLocation(locs, daily, "Ecuador", 8);
    var w7 := WindowAt(locs, daily, 7, MeanWindow);
    assert w7 == daily[1..8];
    var vals := [20.0, 30.0, 40.0, 50.0, 60.0, 70.0, 80.0];
    PresentAllSome(w7);
    assert Present(w7) == vals;
    SeventyValues();
  }

  lemma SeventyValues()
    ensures SumReals([20.0, 30.0, 40.0, 50.0, 60.0, 70.0, 80.0]) == 350.0
  {
    SumRealsSnoc([], 20.0);
    assert [] + [20.0] == [20.0];
    SumRealsSnoc([20.0], 30.0);
    assert [20.0] + [30.0] == [20.0, 30.0];
    SumRealsSnoc([20.0, 30.0], 40.0);
    assert [20.0, 30.0] + [40.0] == [20.0, 30.0, 40.0];
    SumRealsSnoc([20.0, 30.0, 40.0], 50.0);
    assert [20.0, 30.0, 40.0] + [50.0] == [20.0, 30.0, 40.0, 50.0];
    SumRealsSnoc([20.0, 30.0, 40.0, 50.0], 60.0);
    assert [20.0, 30.0, 40.0, 50.0] + [60.0] == [20.0, 30.0, 40.0, 50.0, 60.0];
    SumRealsSnoc([20.0, 30.0, 40.0, 50.0, 60.0], 70.0);
    assert [20.0, 30.0, 40.0, 50.0, 60.0] + [70.0] == [20.0, 30.0, 40.0, 50.0, 60.0, 70.0];
    SumRealsSnoc([20.0, 30.0, 40.0, 50.0, 60.0, 70.0], 80.0);
    assert [20.0, 30.0, 40.0, 50.0, 60.0, 70.0] + [80.0] == [20.0, 30.0, 40.0, 50.0, 60.0, 70.0, 80.0];
  }
}
