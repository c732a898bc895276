/** The fixed chain the job runs: the input check on the feed, cleaning, the
    check on the cleaned table, then the two metrics, each followed by its
    check. A check reports; it never stops the chain. The date of the run is
    a parameter. */
module Pipeline {
  import opened Frame
  import opened InputChecks
  import opened Cleaning
  import opened CleanChecks
  import opened Incidence
  import opened Growth

  /** Everything one run produces. */
  datatype PipelineRun = PipelineRun(
    inputReport: InputReport,
    cleaned: seq<CleanRow>,
    cleanCheck: CleanCheck,
    incidence: seq<IncidenceRow>,
    incidenceCheck: IncidenceCheck,
    growth: seq<GrowthRow>,
    growthCheck: GrowthCheck)

  method RunPipeline(raw: seq<RawRow>, today: int) returns (run: PipelineRun)
    ensures run.inputReport.totalRules == |run.inputReport.summary| == |InputRules|
    ensures forall k :: 0 <= k < |InputRules| ==>
      run.inputReport.summary[k] == Summarize(raw, InputRules[k], today)
    ensures run.inputReport.passed <==>
      forall k :: 0 <= k < |InputRules| ==> Summarize(raw, InputRules[k], today).ok
    ensures run.inputReport.failedRules == FailedNames(run.inputReport.summary)
    ensures run.cleaned == Clean(raw)
    ensures |run.cleaned| <= |raw|
    ensures run.cleanCheck.passed <==>
      forall i :: 0 <= i < |run.cleaned| ==> run.cleaned[i].date.Some? && run.cleaned[i].population.Some?
    ensures run.cleanCheck.passed <==> run.cleanCheck.errors == []
    ensures run.cleanCheck.errors ==
      ErrorList(HasNull(run.cleaned), HasRepeatedRow(run.cleaned), !LocationsPermitted(run.cleaned))
    ensures NullsMessage in run.cleanCheck.errors <==> HasNull(run.cleaned)
    ensures DuplicatesMessage in run.cleanCheck.errors <==> HasRepeatedRow(run.cleaned)
    ensures ForeignMessage in run.cleanCheck.errors <==> !LocationsPermitted(run.cleaned)
    ensures IsSubseq(run.cleanCheck.errors, [NullsMessage, DuplicatesMessage, ForeignMessage])
    ensures run.cleanCheck.totalRows == |run.cleaned|
    ensures run.incidence == IncidenceTable(run.cleaned)
    ensures run.incidenceCheck == CheckIncidence(run.incidence)
    ensures run.growth == GrowthTable(run.cleaned)
    ensures run.growthCheck == CheckGrowth(run.growth)
    ensures |run.incidence| == |run.growth| == |run.cleaned|
  {
    var inputReport := CheckInput(raw, today);
    var cleaned := Clean(raw);
    CleanIsOrderedSubsequence(raw);
    SubseqLength(SelectedRows(raw), raw);
    var cleanCheck := CheckCleaned(cleaned);
    CleanedTableFailsOnlyOnNullDateOrPopulation(raw);
    var incidence := MetricIncidence7d(cleaned);
    var incidenceCheck := CheckIncidence(incidence);
    var growth := MetricGrowth7d(cleaned);
    var growthCheck := CheckGrowth(growth);
    run := PipelineRun(inputReport, cleaned, cleanCheck, incidence, incidenceCheck, growth, growthCheck);
  }
}
