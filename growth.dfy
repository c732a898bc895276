/** The 7-day growth factor metric (`metrica_factor_crec_7d`) and its
    outlier check (`validar_metrica_factor_crec_7d`). A row's weekly cases
    are the sum of new cases over the last seven rows of its location, and
    only a full window of seven non-null values gives a sum (`min_periods=7`);
    the previous week is that sum seven rows of the same location earlier,
    dropped when below 10; the factor is their ratio. Rows are flagged, never
    removed. */
module Growth {
  import opened Frame
  import opened Windows

  /** The weekly window: seven rows, all seven needed for a sum. */
  const WeekRows: nat := 7
  const WeekMinPeriods: nat := 7
  /** The previous week lies seven rows back. */
  const ShiftRows: nat := 7
  /** A previous-week base below this is set to null. */
  const MinBase: int := 10
  /** A factor above this is an outlier. */
  const OutlierFactor: real := 10.0
  const OutlierNote: string := "Outliers >10 pueden deberse a bases muy pequeñas."

  function SumInts(s: seq<int>): int
  {
    if s == [] then 0 else SumInts(s[..|s| - 1]) + s[|s| - 1]
  }

  /** The sum of a rolling window: the sum of its non-null values, or null
      when fewer than `minPeriods` of them are present. */
  function RollingSum(window: seq<Option<int>>, minPeriods: nat): (r: Option<int>)
    ensures r.Some? <==> |Present(window)| >= minPeriods
  {
    var p := Present(window);
    if |p| < minPeriods then None else Some(SumInts(p))
  }

  function NewCasesColumn(data: seq<CleanRow>): (col: seq<Option<int>>)
    ensures |col| == |data|
  {
    seq(|data|, i requires 0 <= i < |data| => data[i].newCases)
  }

  /** casos_semana_actual at row `i`. */
  function WeekCasesAt(data: seq<CleanRow>, i: nat): Option<int>
    requires i < |data|
  {
    var locs := Locations(data);
    if locs[i].None? then None
    else RollingSum(WindowAt(locs, NewCasesColumn(data), i, WeekRows), WeekMinPeriods)
  }

  /** The casos_semana_actual column. */
  function WeekColumn(data: seq<CleanRow>): (col: seq<Option<int>>)
    ensures |col| == |data|
  {
    seq(|data|, i requires 0 <= i < |data| => WeekCasesAt(data, i))
  }

  /** casos_semana_prev at row `i` before the small-base rule. */
  function ShiftedWeekAt(data: seq<CleanRow>, i: nat): Option<int>
    requires i < |data|
  {
    ShiftAt(Locations(data), WeekColumn(data), i, ShiftRows)
  }

  /** A previous-week base below 10 is discarded as too small; a null base
      stays null. */
  function GuardBase(prev: Option<int>): (g: Option<int>)
    ensures g.Some? <==> prev.Some? && prev.value >= MinBase
    ensures g.Some? ==> g == prev
  {
    if prev.Some? && prev.value < MinBase then None else prev
  }

  /** This week's cases over the previous week's: null when either is null. */
  function Ratio(actual: Option<int>, base: Option<int>): (f: Option<real>)
    requires base.Some? ==> base.value != 0
    ensures f.Some? <==> actual.Some? && base.Some?
    ensures f.Some? ==> f.value * (base.value as real) == actual.value as real
  {
    if actual.Some? && base.Some? then Some(actual.value as real / base.value as real) else None
  }

  /** The factor exceeds 10; a null factor is never an outlier. */
  predicate IsOutlier(f: Option<real>)
  {
    f.Some? && f.value > OutlierFactor
  }

  /** A row of the metric: the cleaned row with casos_semana_actual,
      casos_semana_prev, factor_crec_7d, es_nulo_factor, es_outlier_factor. */
  datatype GrowthRow = GrowthRow(
    row: CleanRow,
    weekCases: Option<int>,
    prevWeekCases: Option<int>,
    factor: Option<real>,
    isNullFactor: bool,
    isOutlierFactor: bool)

  /** The columns the stage derives for one row from its weekly sum and the
      weekly sum seven rows earlier. */
  function FactorRow(r: CleanRow, week: Option<int>, shifted: Option<int>): (g: GrowthRow)
    ensures g.row == r && g.weekCases == week
    ensures g.factor.Some? <==> week.Some? && shifted.Some? && shifted.value >= MinBase
    ensures g.factor.Some? ==> g.factor.value * (shifted.value as real) == week.value as real
    ensures g.isNullFactor <==> g.factor.None?
    ensures g.isOutlierFactor <==> g.factor.Some? && g.factor.value > OutlierFactor
  {
    var base := GuardBase(shifted);
    var f := Ratio(week, base);
    GrowthRow(r, week, base, f, f.None?, IsOutlier(f))
  }

  function GrowthRowAt(data: seq<CleanRow>, i: nat): GrowthRow
    requires i < |data|
  {
    FactorRow(data[i], WeekCasesAt(data, i), ShiftedWeekAt(data, i))
  }

  /** The metric table: every input row, in order, with the derived columns. */
  function GrowthTable(data: seq<CleanRow>): (t: seq<GrowthRow>)
    ensures |t| == |data|
    ensures forall i :: 0 <= i < |data| ==> t[i].row == data[i]
  {
    seq(|data|, i requires 0 <= i < |data| => GrowthRowAt(data, i))
  }

  /** Copies the cleaned table and adds its columns one at a time, in the
      order the stage assigns them. */
  method MetricGrowth7d(data: seq<CleanRow>) returns (result: seq<GrowthRow>)
    ensures result == GrowthTable(data)
  {
    var n := |data|;
    var df := new GrowthRow[n](j requires 0 <= j < n => GrowthRow(data[j], None, None, None, false, false));
    // casos_semana_actual: the grouped rolling sum of new_cases
    SetWeekCases(df, WeekColumn(data));
    // casos_semana_prev: the same column shifted seven rows within each location
    var locs := seq(n, j requires 0 <= j < n reads df => df[j].row.location);
    var week := seq(n, j requires 0 <= j < n reads df => df[j].weekCases);
    assert locs == Locations(data);
    assert week == WeekColumn(data);
    SetShiftedWeekCases(df, locs, week);
    assert forall j :: 0 <= j < n ==> df[j].prevWeekCases == ShiftedWeekAt(data, j);
    DropSmallBases(df);
    SetFactor(df);
    SetFlags(df);
    assert forall j :: 0 <= j < n ==> df[j] == GrowthRowAt(data, j);
    result := df[..];
  }

  /** Assigns a computed column to casos_semana_actual. */
  method SetWeekCases(df: array<GrowthRow>, week: seq<Option<int>>)
    requires |week| == df.Length
    modifies df
    ensures forall j :: 0 <= j < df.Length ==> df[j] == old(df[j]).(weekCases := week[j])
  {
    for i := 0 to df.Length
      invariant forall j :: 0 <= j < i ==> df[j] == old(df[j]).(weekCases := week[j])
      invariant forall j :: i <= j < df.Length ==> df[j] == old(df[j])
    {
      df[i] := df[i].(weekCases := week[i]);
    }
  }

  /** Fills casos_semana_prev with each row's weekly sum from seven rows
      earlier in its location. */
  method SetShiftedWeekCases(df: array<GrowthRow>, locs: seq<Option<string>>, week: seq<Option<int>>)
    requires |locs| == |week| == df.Length
    modifies df
    ensures forall j :: 0 <= j < df.Length ==> df[j] == old(df[j]).(prevWeekCases := ShiftAt(locs, week, j, ShiftRows))
  {
    for i := 0 to df.Length
      invariant forall j :: 0 <= j < i ==> df[j] == old(df[j]).(prevWeekCases := ShiftAt(locs, week, j, ShiftRows))
      invariant forall j :: i <= j < df.Length ==> df[j] == old(df[j])
    {
      df[i] := df[i].(prevWeekCases := ShiftAt(locs, week, i, ShiftRows));
    }
  }

  /** Discards every previous-week base below 10. */
  method DropSmallBases(df: array<GrowthRow>)
    modifies df
    ensures forall j :: 0 <= j < df.Length ==> df[j] == old(df[j]).(prevWeekCases := GuardBase(old(df[j].prevWeekCases)))
  {
    for i := 0 to df.Length
      invariant forall j :: 0 <= j < i ==> df[j] == old(df[j]).(prevWeekCases := GuardBase(old(df[j].prevWeekCases)))
      invariant forall j :: i <= j < df.Length ==> df[j] == old(df[j])
    {
      if df[i].prevWeekCases.Some? && df[i].prevWeekCases.value < MinBase {
        df[i] := df[i].(prevWeekCases := None);
      }
    }
  }

  /** factor_crec_7d = casos_semana_actual / casos_semana_prev, once the
      small bases are gone. */
  method SetFactor(df: array<GrowthRow>)
    requires forall j :: 0 <= j < df.Length && df[j].prevWeekCases.Some? ==> df[j].prevWeekCases.value >= MinBase
    modifies df
    ensures forall j :: 0 <= j < df.Length ==>
      df[j] == old(df[j]).(factor := Ratio(old(df[j].weekCases), old(df[j].prevWeekCases)))
  {
    for i := 0 to df.Length
      invariant forall j :: 0 <= j < i ==>
        df[j] == old(df[j]).(factor := Ratio(old(df[j].weekCases), old(df[j].prevWeekCases)))
      invariant forall j :: i <= j < df.Length ==> df[j] == old(df[j])
    {
      df[i] := df[i].(factor := Ratio(df[i].weekCases, df[i].prevWeekCases));
    }
  }

  /** es_nulo_factor and es_outlier_factor. */
  method SetFlags(df: array<GrowthRow>)
    modifies df
    ensures forall j :: 0 <= j < df.Length ==>
      df[j] == old(df[j]).(isNullFactor := old(df[j].factor).None?, isOutlierFactor := IsOutlier(old(df[j].factor)))
  {
    for i := 0 to df.Length
      invariant forall j :: 0 <= j < i ==>
        df[j] == old(df[j]).(isNullFactor := old(df[j].factor).None?, isOutlierFactor := IsOutlier(old(df[j].factor)))
      invariant forall j :: i <= j < df.Length ==> df[j] == old(df[j])
    {
      df[i] := df[i].(isNullFactor := df[i].factor.None?, isOutlierFactor := IsOutlier(df[i].factor));
    }
  }

  // ---------------------------------------------------------------------
  // The outlier check

  /** passed, outliers_factor_crec_7d, nota. */
  datatype GrowthCheck = GrowthCheck(passed: bool, outliers: nat, note: string)

  function CheckGrowth(t: seq<GrowthRow>): (c: GrowthCheck)
    ensures c.outliers == |set i | 0 <= i < |t| && IsOutlier(t[i].factor)|
    ensures c.passed <==> c.outliers == 0
    ensures c.passed <==> forall i :: 0 <= i < |t| ==> !IsOutlier(t[i].factor)
    ensures c.note == OutlierNote
  {
    var mask := seq(|t|, i requires 0 <= i < |t| => IsOutlier(t[i].factor));
    assert forall i :: 0 <= i < |t| ==> mask[i] == IsOutlier(t[i].factor);
    CountTrueIsCardinality(mask);
    assert TrueIndices(mask) == set i | 0 <= i < |t| && IsOutlier(t[i].factor);
    var outliers := CountTrue(mask);
    GrowthCheck(outliers == 0, outliers, OutlierNote)
  }

  /** On the metric table the check counts exactly the rows flagged as
      outliers; flagged rows stay in the table. */
  lemma CheckCountsFlaggedRows(data: seq<CleanRow>)
    ensures var t := GrowthTable(data);
      CheckGrowth(t).outliers == |set i | 0 <= i < |t| && t[i].isOutlierFactor|
  {
    var t := GrowthTable(data);
    assert (set i | 0 <= i < |t| && t[i].isOutlierFactor) == set i | 0 <= i < |t| && IsOutlier(t[i].factor);
  }

  // ---------------------------------------------------------------------
  // What the metric computes

  /** The number of rows of row `i`'s location up to and including it. */
  function RowsSoFar(data: seq<CleanRow>, i: nat): nat
    requires i < |data| && data[i].location.Some?
  {
    |GroupRows(Locations(data), data[i].location.value, i + 1)|
  }

  /** A weekly sum needs seven rows of the location: the first six rows of
      each location have none. */
  lemma WeekCasesNeedsSevenRows(data: seq<CleanRow>, i: nat)
    requires i < |data|
    ensures WeekCasesAt(data, i).Some? ==> data[i].location.Some? && RowsSoFar(data, i) >= WeekRows
  {
    var locs := Locations(data);
    if locs[i].Some? {
      GroupValuesIndex(locs, NewCasesColumn(data), locs[i].value, i + 1);
    }
  }

  /** With no null new_cases, the weekly sum of a row with at least seven
      rows of its location is the sum of the last seven new_cases. */
  lemma WeekCasesIsSumOfLastSevenRows(data: seq<CleanRow>, i: nat)
    requires i < |data| && data[i].location.Some?
    requires forall j :: 0 <= j < |data| ==> data[j].newCases.Some?
    requires RowsSoFar(data, i) >= WeekRows
    ensures var rows := Trailing(GroupValues(Locations(data), data, data[i].location.value, i + 1), WeekRows);
      && |rows| == WeekRows
      && rows[WeekRows - 1] == data[i]
      && (forall k :: 0 <= k < |rows| ==> rows[k].newCases.Some?)
      && WeekCasesAt(data, i) == Some(CasesTotal(rows))
  {
    var locs, cases, loc := Locations(data), NewCasesColumn(data), data[i].location.value;
    var group := GroupValues(locs, data, loc, i + 1);
    GroupValuesIndex(locs, data, loc, i + 1);
    GroupValuesIndex(locs, cases, loc, i + 1);
    GroupValuesAtOwnRow(locs, data, i);
    var rows := Trailing(group, WeekRows);
    var win := WindowAt(locs, cases, i, WeekRows);
    var g := GroupRows(locs, loc, i + 1);
    forall k | 0 <= k < WeekRows ensures win[k] == rows[k].newCases && win[k].Some? {
      var m := |g| - WeekRows + k;
      assert win[k] == GroupValues(locs, cases, loc, i + 1)[m];
      assert rows[k] == group[m];
    }
    PresentAllSome(win);
    assert Present(win) == seq(WeekRows, k requires 0 <= k < WeekRows => rows[k].newCases.value);
  }

  /** The total of new_cases over a run of rows, all non-null. */
  function CasesTotal(rows: seq<CleanRow>): int
    requires forall k :: 0 <= k < |rows| ==> rows[k].newCases.Some?
  {
    SumInts(seq(|rows|, k requires 0 <= k < |rows| => rows[k].newCases.value))
  }

  /** The previous week's sum comes from a row that itself has a weekly sum,
      seven rows of the location earlier: a factor needs fourteen rows of
      the location, so the first thirteen rows of each location have none. */
  lemma FactorNeedsFourteenRows(data: seq<CleanRow>, i: nat)
    requires i < |data|
    ensures ShiftedWeekAt(data, i).Some? ==> data[i].location.Some? && RowsSoFar(data, i) >= WeekRows + ShiftRows
    ensures GrowthRowAt(data, i).factor.Some? ==> data[i].location.Some? && RowsSoFar(data, i) >= WeekRows + ShiftRows
  {
    var locs, week := Locations(data), WeekColumn(data);
    if locs[i].Some? {
      var g := GroupRows(locs, locs[i].value, i + 1);
      ShiftReadsEarlierGroupRow(locs, week, i, ShiftRows);
      if |g| > ShiftRows {
        var j := g[|g| - 1 - ShiftRows];
        WeekCasesNeedsSevenRows(data, j);
      }
    }
  }

  /** The factor is defined exactly when both weekly sums are and the base
      is at least 10, and then it is their ratio: no division ever uses a
      base below 10. */
  lemma FactorUsesOnlyLargeBases(data: seq<CleanRow>, i: nat)
    requires i < |data|
    ensures var f, week, shifted := GrowthRowAt(data, i).factor, WeekCasesAt(data, i), ShiftedWeekAt(data, i);
      && (f.Some? <==> week.Some? && shifted.Some? && shifted.value >= MinBase)
      && (f.Some? ==> f.value * (shifted.value as real) == week.value as real)
      && (shifted.Some? && shifted.value < MinBase ==> f.None? && GrowthRowAt(data, i).isNullFactor)
  {
  }

  /** Rows appended later never change an earlier row's weekly sum. */
  lemma WeekCasesOnlyLooksBack(data: seq<CleanRow>, more: seq<CleanRow>, i: nat)
    requires i < |data|
    ensures WeekCasesAt(data + more, i) == WeekCasesAt(data, i)
  {
    var all := data + more;
    assert Locations(all) == Locations(data) + Locations(more);
    assert NewCasesColumn(all) == NewCasesColumn(data) + NewCasesColumn(more);
    if all[i].location.Some? {
      GroupValuesAppend(Locations(data), NewCasesColumn(data), Locations(more), NewCasesColumn(more),
                        all[i].location.value, i + 1);
    }
  }

  /** Rows appended later never change an earlier row's shifted weekly sum. */
  lemma ShiftedWeekOnlyLooksBack(data: seq<CleanRow>, more: seq<CleanRow>, i: nat)
    requires i < |data|
    ensures ShiftedWeekAt(data + more, i) == ShiftedWeekAt(data, i)
  {
    var all := data + more;
    var week, weekAll := WeekColumn(data), WeekColumn(all);
    forall j | 0 <= j < |data| ensures weekAll[j] == week[j] {
      WeekCasesOnlyLooksBack(data, more, j);
    }
    var tail := weekAll[|data|..];
    assert weekAll == week + tail;
    assert Locations(all) == Locations(data) + Locations(more);
    if all[i].location.Some? {
      GroupValuesAppend(Locations(data), week, Locations(more), tail, all[i].location.value, i + 1);
    }
  }

  /** Rows appended later never change an earlier row of the metric: the
      sums, the shift and the factor only look back. */
  lemma GrowthOnlyLooksBack(data: seq<CleanRow>, more: seq<CleanRow>, i: nat)
    requires i < |data|
    ensures GrowthRowAt(data + more, i) == GrowthRowAt(data, i)
  {
    WeekCasesOnlyLooksBack(data, more, i);
    ShiftedWeekOnlyLooksBack(data, more, i);
    assert (data + more)[i] == data[i];
  }

  /** Locations never mix: a row's weekly sum is the same in two tables
      that hold its location at the same rows with the same data. */
  lemma WeekCasesOwnLocationOnly(data: seq<CleanRow>, data': seq<CleanRow>, i: nat)
    requires i < |data| && i < |data'| && data[i].location.Some?
    requires forall j :: 0 <= j <= i ==>
      (data[j].location == data[i].location <==> data'[j].location == data[i].location)
    requires forall j :: 0 <= j <= i && data[j].location == data[i].location ==> data[j] == data'[j]
    ensures WeekCasesAt(data, i) == WeekCasesAt(data', i)
  {
    GroupValuesOwnRowsOnly(Locations(data), NewCasesColumn(data), Locations(data'), NewCasesColumn(data'),
                           data[i].location.value, i + 1);
  }

  /** Locations never mix: a row of the metric is the same in two tables
      that hold its location at the same rows with the same data, whatever
      the other locations' rows hold. */
  lemma GrowthOwnLocationOnly(data: seq<CleanRow>, data': seq<CleanRow>, i: nat)
    requires i < |data| && i < |data'| && data[i].location.Some?
    requires forall j :: 0 <= j <= i ==>
      (data[j].location == data[i].location <==> data'[j].location == data[i].location)
    requires forall j :: 0 <= j <= i && data[j].location == data[i].location ==> data[j] == data'[j]
    ensures GrowthRowAt(data, i) == GrowthRowAt(data', i)
  {
    var week, week' := WeekColumn(data), WeekColumn(data');
    forall j | 0 <= j <= i && data[j].location == data[i].location ensures week[j] == week'[j] {
      WeekCasesOwnLocationOnly(data, data', j);
    }
    WeekCasesOwnLocationOnly(data, data', i);
    GroupValuesOwnRowsOnly(Locations(data), week, Locations(data'), week', data[i].location.value, i + 1);
  }

  /** Unlike the incidence mean, the weekly sum accepts no gap: one null
      new_cases among the seven rows of the window makes the sum null. */
  lemma NullInWindowVoidsSum(window: seq<Option<int>>, k: nat)
    requires |window| <= WeekRows && k < |window| && window[k].None?
    ensures RollingSum(window, WeekMinPeriods) == None
  {
    PresentDropsNull(window, k);
  }

  /** 210 cases over a base of 5 gives a null factor, not 42; 120 over 10
      gives 12, which is flagged as an outlier and kept. */
  lemma FactorExamples(r: CleanRow)
    ensures FactorRow(r, Some(210), Some(5)).factor == None
    ensures FactorRow(r, Some(210), Some(5)).isNullFactor
    ensures FactorRow(r, Some(120), Some(10)).factor == Some(12.0)
    ensures FactorRow(r, Some(120), Some(10)).isOutlierFactor
    ensures !CheckGrowth([FactorRow(r, Some(120), Some(10))]).passed
  {
    var t := [FactorRow(r, Some(120), Some(10))];
    assert IsOutlier(t[0].factor);
  }

  // ---------------------------------------------------------------------
  // A worked series

  /** One location, new cases 10, 20, ..., 70. */
  function WeekSeries(): seq<CleanRow>
  {
    seq(7, j requires 0 <= j < 7 => CleanRow(Some("Ecuador"), Some(j), Some(10 * (j + 1)), Some(0), Some(100000)))
  }

  lemma WeekSeriesCases()
    ensures NewCasesColumn(WeekSeries()) == [Some(10), Some(20), Some(30), Some(40), Some(50), Some(60), Some(70)]
  {
  }

  /** On the 10, ..., 70 series the sixth row has no weekly sum: its window
      holds six values. */
  lemma WeekSeriesSixthRow()
    ensures WeekCasesAt(WeekSeries(), 5) == None
  {
    var data := WeekSeries();
    var locs, cases := Locations(data), NewCasesColumn(data);
    GroupValuesSingleLocation(locs, cases, "Ecuador", 6);
    assert |WindowAt(locs, cases, 5, WeekRows)| == 6;
  }

  /** On the 10, ..., 70 series the seventh row's weekly sum is 280. */
  lemma WeekSeriesSeventhRow()
    ensures WeekCasesAt(WeekSeries(), 6) == Some(280)
  {
    var data := WeekSeries();
    var locs, cases := Locations(data), NewCasesColumn(data);
    WeekSeriesCases();
    GroupValuesSingleLocation(locs, cases, "Ecuador", 7);
    var w := WindowAt(locs, cases, 6, WeekRows);
    assert w == cases;
    PresentAllSome(w);
    var vals := [10, 20, 30, 40, 50, 60, 70];
    assert Present(w) == vals;
    SeventyTotal();
  }

  lemma SeventyTotal()
    ensures SumInts([10, 20, 30, 40, 50, 60, 70]) == 280
  {
    SumIntsSnoc([], 10);
    assert [] + [10] == [10];
    SumIntsSnoc([10], 20);
    assert [10] + [20] == [10, 20];
    SumIntsSnoc([10, 20], 30);
    assert [10, 20] + [30] == [10, 20, 30];
    SumIntsSnoc([10, 20, 30], 40);
    assert [10, 20, 30] + [40] == [10, 20, 30, 40];
    SumIntsSnoc([10, 20, 30, 40], 50);
    assert [10, 20, 30, 40] + [50] == [10, 20, 30, 40, 50];
    SumIntsSnoc([10, 20, 30, 40, 50], 60);
    assert [10, 20, 30, 40, 50] + [60] == [10, 20, 30, 40, 50, 60];
    SumIntsSnoc([10, 20, 30, 40, 50, 60], 70);
    assert [10, 20, 30, 40, 50, 60] + [70] == [10, 20, 30, 40, 50, 60, 70];
  }

  lemma SumIntsSnoc(s: seq<int>, x: int)
    ensures SumInts(s + [x]) == SumInts(s) + x
  {
    assert (s + [x])[..|s|] == s;
  }
}
