/** The five data-quality rules evaluated on the raw feed before any cleaning
    (the `chequeos_entrada` check). Each rule is a row mask; the check reports,
    per rule, its name, its verdict, the number of rows the mask selects and a
    note, then an overall verdict and the names of the failing rules. */
module InputChecks {
  import opened Frame

  datatype InputRule =
    | FutureDate             // date after the day the run happens
    | NullKeyColumns         // null location, date or population
    | DuplicateKey           // (location, date) shared with another row
    | NonPositivePopulation  // population <= 0
    | NegativeNewCases       // new_cases < 0, a null read as 0

  /** The rules in the order the check evaluates and reports them. */
  const InputRules: seq<InputRule> :=
    [FutureDate, NullKeyColumns, DuplicateKey, NonPositivePopulation, NegativeNewCases]

  function RuleName(rule: InputRule): string
  {
    match rule
    case FutureDate => "No fechas futuras"
    case NullKeyColumns => "Columnas clave no nulas"
    case DuplicateKey => "Unicidad location+date"
    case NonPositivePopulation => "population > 0"
    case NegativeNewCases => "new_cases ≥ 0"
  }

  /** The note a rule reports when its mask selects at least one row. */
  function FailureNote(rule: InputRule): string
  {
    match rule
    case FutureDate => "Fechas > hoy detectadas"
    case NullKeyColumns => "Nulos en ['location', 'date', 'population']"
    case DuplicateKey => "Duplicados detectados"
    case NonPositivePopulation => "Valores <= 0"
    case NegativeNewCases => "Negativos detectados"
  }

  /** A null cell read as `d`. */
  function FillNull(v: Option<int>, d: int): int
  {
    if v.Some? then v.value else d
  }

  /** Whether row `i` is selected by the rule's mask. A comparison against a
      null cell is false, as it is for pandas. */
  predicate Violates(rule: InputRule, df: seq<RawRow>, i: int, today: int)
    requires 0 <= i < |df|
  {
    match rule
    case FutureDate => df[i].date.Some? && df[i].date.value > today
    case NullKeyColumns => df[i].location.None? || df[i].date.None? || df[i].population.None?
    case DuplicateKey => exists j :: 0 <= j < |df| && j != i && df[j].Key() == df[i].Key()
    case NonPositivePopulation => df[i].population.Some? && df[i].population.value <= 0
    case NegativeNewCases => FillNull(df[i].newCases, 0) < 0
  }

  function Mask(df: seq<RawRow>, rule: InputRule, today: int): seq<bool>
  {
    seq(|df|, i requires 0 <= i < |df| => Violates(rule, df, i, today))
  }

  /** The positions of the rows the rule flags. */
  ghost function AffectedRows(df: seq<RawRow>, rule: InputRule, today: int): set<int>
  {
    set i | 0 <= i < |df| && Violates(rule, df, i, today)
  }

  /** One line of the summary table: nombre_regla, estado, filas_afectadas, notas. */
  datatype RuleSummary = RuleSummary(name: string, ok: bool, affected: nat, notes: string)

  /** The summary line of one rule, computed from its mask. */
  function Summarize(df: seq<RawRow>, rule: InputRule, today: int): RuleSummary
  {
    var mask := Mask(df, rule, today);
    RuleSummary(
      RuleName(rule),
      !AnyTrue(mask),
      CountTrue(mask),
      if AnyTrue(mask) then FailureNote(rule) else "OK")
  }

  /** A rule's line reports the number of rows the rule flags, passes exactly
      when no row is flagged, and carries the rule's note only when it fails. */
  lemma SummarizeReportsRule(df: seq<RawRow>, rule: InputRule, today: int)
    ensures var s := Summarize(df, rule, today);
      && s.name == RuleName(rule)
      && s.affected == |AffectedRows(df, rule, today)|
      && (s.ok <==> forall i :: 0 <= i < |df| ==> !Violates(rule, df, i, today))
      && (s.ok <==> s.affected == 0)
      && s.notes == if s.ok then "OK" else FailureNote(rule)
  {
    var mask := Mask(df, rule, today);
    assert forall i :: 0 <= i < |df| ==> mask[i] == Violates(rule, df, i, today);
    CountTrueIsCardinality(mask);
    assert TrueIndices(mask) == AffectedRows(df, rule, today);
  }

  function SummaryNames(summary: seq<RuleSummary>): seq<string>
  {
    seq(|summary|, k requires 0 <= k < |summary| => summary[k].name)
  }

  /** The names of the failing rules, in rule order. */
  function FailedNames(summary: seq<RuleSummary>): (names: seq<string>)
    ensures forall n :: n in names <==>
      exists k :: 0 <= k < |summary| && !summary[k].ok && summary[k].name == n
    ensures IsSubseq(names, SummaryNames(summary))
  {
    if summary == [] then []
    else
      var pre, last := summary[..|summary| - 1], summary[|summary| - 1];
      var rest := FailedNames(pre);
      assert SummaryNames(summary) == SummaryNames(pre) + [last.name];
      if last.ok then
        SubseqExtend(rest, SummaryNames(pre), last.name);
        rest
      else
        assert (rest + [last.name])[..|rest|] == rest;
        rest + [last.name]
  }

  /** The result of the check: passed, tabla_resumen, total_reglas, reglas_fallidas. */
  datatype InputReport = InputReport(
    passed: bool,
    summary: seq<RuleSummary>,
    totalRules: nat,
    failedRules: seq<string>)

  /** The summary table: the check appends one line per rule, in rule order. */
  method SummaryTable(df: seq<RawRow>, today: int) returns (summary: seq<RuleSummary>)
    ensures |summary| == |InputRules|
    ensures forall k :: 0 <= k < |InputRules| ==> summary[k] == Summarize(df, InputRules[k], today)
  {
    summary := [];
    for k := 0 to |InputRules|
      invariant |summary| == k
      invariant forall j :: 0 <= j < k ==> summary[j] == Summarize(df, InputRules[j], today)
    {
      summary := summary + [Summarize(df, InputRules[k], today)];
    }
  }

  /** Whether every line of the summary passes. */
  method AllPassed(summary: seq<RuleSummary>) returns (passed: bool)
    ensures passed <==> forall k :: 0 <= k < |summary| ==> summary[k].ok
  {
    passed := true;
    for k := 0 to |summary|
      invariant passed <==> forall j :: 0 <= j < k ==> summary[j].ok
    {
      passed := passed && summary[k].ok;
    }
  }

  /** Evaluates the five rules in order, then derives the overall verdict and
      the list of failing rules. */
  method CheckInput(df: seq<RawRow>, today: int) returns (report: InputReport)
    ensures report.totalRules == |report.summary| == |InputRules|
    ensures forall k :: 0 <= k < |InputRules| ==>
      report.summary[k] == Summarize(df, InputRules[k], today)
    ensures report.passed <==> forall k :: 0 <= k < |InputRules| ==> report.summary[k].ok
    ensures report.failedRules == FailedNames(report.summary)
  {
    var summary := SummaryTable(df, today);
    var passed := AllPassed(summary);
    report := InputReport(passed, summary, |summary|, FailedNames(summary));
  }

  // ---------------------------------------------------------------------
  // The uniqueness rule flags every member of a repeated key, the first one included

  /** Two rows that share a key are both flagged, so the rule reports at
      least two affected rows. */
  lemma SharedKeyFlagsBothRows(df: seq<RawRow>, i: int, j: int, today: int)
    requires 0 <= i < |df| && 0 <= j < |df| && i != j
    requires df[i].Key() == df[j].Key()
    ensures Violates(DuplicateKey, df, i, today) && Violates(DuplicateKey, df, j, today)
    ensures Summarize(df, DuplicateKey, today).affected >= 2
  {
    SummarizeReportsRule(df, DuplicateKey, today);
    assert Violates(DuplicateKey, df, i, today);
    assert Violates(DuplicateKey, df, j, today);
    var both, all := {i, j}, AffectedRows(df, DuplicateKey, today);
    assert all == both + (all - both);
    assert |both| == 2;
  }

  /** A two-row feed whose rows share (location, date) reports exactly two
      affected rows, not one. */
  lemma TwoRowsSharingAKey(a: RawRow, b: RawRow, today: int)
    requires a.Key() == b.Key()
    ensures Summarize([a, b], DuplicateKey, today).affected == 2
  {
    var df := [a, b];
    SummarizeReportsRule(df, DuplicateKey, today);
    assert Violates(DuplicateKey, df, 0, today) by { assert df[1].Key() == df[0].Key(); }
    assert Violates(DuplicateKey, df, 1, today) by { assert df[0].Key() == df[1].Key(); }
    assert AffectedRows(df, DuplicateKey, today) == {0, 1};
  }

  /** The uniqueness rule passes exactly when no two rows share a key. */
  lemma DuplicateRulePassesIffKeysDistinct(df: seq<RawRow>, today: int)
    ensures Summarize(df, DuplicateKey, today).ok <==>
      forall i, j :: 0 <= i < j < |df| ==> df[i].Key() != df[j].Key()
  {
    SummarizeReportsRule(df, DuplicateKey, today);
    if forall i :: 0 <= i < |df| ==> !Violates(DuplicateKey, df, i, today) {
      forall i, j | 0 <= i < j < |df| ensures df[i].Key() != df[j].Key() {
        assert !Violates(DuplicateKey, df, i, today);
      }
    }
  }
}
