/**
 * The dashboard's pipeline as function composition: substitute enumerator
 * names, keep the rows of the date window, clean the crop types; then the
 * headline metrics and the per-column tallies the charts are drawn from.
 */
module Dashboard {
  import opened Wrappers
  import opened Seqs
  import opened Strings
  import opened Survey
  import opened Enumerators
  import opened DateFilter
  import opened CropCleanup
  import opened Tallies
  import opened FinancialServices

  /** The sidebar's initial window, 2024-07-21 to 2024-07-22, as day numbers. */
  const DEFAULT_START_DAY := 19925
  const DEFAULT_END_DAY := 19926

  /** The table every chart reads: names substituted, rows of the window kept,
      crop types cleaned. */
  function Prepare(raw: Table, startDay: int, endDay: int): Table
  {
    CleanCropColumn(FilterByDate(SubstituteSubmitters(ENUMERATOR_NAMES, raw), startDay, endDay))
  }

  /** The four headline numbers less the average completion time. */
  datatype Metrics = Metrics(totalSubmissions: nat, totalMales: nat, totalFemales: nat)

  function ComputeMetrics(t: Table): (m: Metrics)
    ensures m.totalSubmissions == |t|
    ensures m.totalMales <= m.totalSubmissions && m.totalFemales <= m.totalSubmissions
  {
    Metrics(|t|, TotalMales(t), TotalFemales(t))
  }

  /** Submissions per enumerator. */
  function SubmissionCounts(t: Table): seq<Tally>
  {
    ValueCounts(Submitters(t))
  }

  /** Answers to the e-commerce registration question. */
  function PlatformRegistrationCounts(t: Table): seq<Tally>
  {
    ValueCounts(PlatformRegistrations(t))
  }

  /** Cultivations per (cleaned) crop type. */
  function CropCounts(t: Table): seq<Tally>
  {
    ValueCounts(CropTypes(t))
  }

  /** Participants per income range. */
  function IncomeCounts(t: Table): seq<Tally>
  {
    ValueCounts(Incomes(t))
  }

  /** The script computes the headline metrics and the submitter and platform tallies
      before it cleans the crop types; cleaning first, as `Prepare` does, gives the
      same results, because the cleanup changes no other column and no row. */
  lemma CleanupCommutesWithEarlierResults(t: Table)
    ensures ComputeMetrics(CleanCropColumn(t)) == ComputeMetrics(t)
    ensures Submitters(CleanCropColumn(t)) == Submitters(t)
    ensures PlatformRegistrations(CleanCropColumn(t)) == PlatformRegistrations(t)
  {
    assert Genders(CleanCropColumn(t)) == Genders(t);
  }

  /** The prepared table has one row per row of the raw table that either has no start
      or starts inside the window: substituting names does not move any row in or out. */
  lemma PrepareSize(raw: Table, startDay: int, endDay: int)
    ensures |Prepare(raw, startDay, endDay)|
         == Count(Within(startDay, endDay), raw) + Count(LacksStart, raw)
  {
    var named := SubstituteSubmitters(ENUMERATOR_NAMES, raw);
    FilterByDateSize(named, startDay, endDay);
    CountPointwise(Within(startDay, endDay), Within(startDay, endDay), named, raw);
    CountPointwise(LacksStart, LacksStart, named, raw);
  }

  /** No enumerator code survives preparation. */
  lemma PreparedHasNoCodes(raw: Table, startDay: int, endDay: int)
    ensures NoCodesLeft(ENUMERATOR_NAMES, Prepare(raw, startDay, endDay))
  {
    var named := SubstituteSubmitters(ENUMERATOR_NAMES, raw);
    var filtered := FilterByDate(named, startDay, endDay);
    var prepared := Prepare(raw, startDay, endDay);
    DashboardNamesAreNotCodes();
    SubstitutionLeavesNoCodes(ENUMERATOR_NAMES, raw);
    forall r | r in prepared
      ensures IsNotCode(ENUMERATOR_NAMES, r.submittedBy)
    {
      var i :| 0 <= i < |prepared| && prepared[i] == r;
      assert r.submittedBy == filtered[i].submittedBy;
      assert filtered[i] in filtered;
      FilterByDateMembership(named, startDay, endDay, filtered[i]);
    }
  }

  /** The geographic view re-applies the substitution to a selection of prepared rows;
      whatever rows it selects, the second substitution changes nothing. */
  lemma GeoResubstitutionIsNoOp(raw: Table, startDay: int, endDay: int, geo: Table)
    requires forall r :: r in geo ==> r in Prepare(raw, startDay, endDay)
    ensures SubstituteSubmitters(ENUMERATOR_NAMES, geo) == geo
  {
    PreparedHasNoCodes(raw, startDay, endDay);
    SubstituteWithoutCodes(ENUMERATOR_NAMES, geo);
  }

  /** The enumerator chart shows names only: no bar is labelled with an enumerator code. */
  lemma SubmissionCountsHaveNoCodes(raw: Table, startDay: int, endDay: int)
    ensures forall v :: HasRow(SubmissionCounts(Prepare(raw, startDay, endDay)), v) ==> v !in ENUMERATOR_NAMES
  {
    var prepared := Prepare(raw, startDay, endDay);
    PreparedHasNoCodes(raw, startDay, endDay);
    ValueCountsExact(Submitters(prepared));
    forall v | HasRow(SubmissionCounts(prepared), v)
      ensures v !in ENUMERATOR_NAMES
    {
      var i :| 0 <= i < |prepared| && Submitters(prepared)[i] == Some(v);
      assert prepared[i] in prepared;
    }
  }

  /** The financial-services chart: `extract_financial_services` applied to the prepared
      table's answers. Every option is listed, in declaration order, with the number of
      prepared rows whose answer contains it, which never exceeds the number of rows. */
  method FinancialServiceCounts(raw: Table, startDay: int, endDay: int) returns (rows: seq<ServiceCount>)
    ensures |rows| == |SERVICE_OPTIONS|
    ensures forall j :: 0 <= j < |rows| ==>
      rows[j].service == SERVICE_OPTIONS[j]
      && rows[j].count == CountContaining(FinancialServiceAnswers(Prepare(raw, startDay, endDay)), SERVICE_OPTIONS[j])
    ensures forall j :: 0 <= j < |rows| ==> rows[j].count <= |Prepare(raw, startDay, endDay)|
  {
    var prepared := Prepare(raw, startDay, endDay);
    rows := ExtractFinancialServices(FinancialServiceAnswers(prepared));
  }

  /** Every crop type in the crop chart is free of whitespace. */
  lemma CropCountsHaveNoSpace(raw: Table, startDay: int, endDay: int)
    ensures forall v :: HasRow(CropCounts(Prepare(raw, startDay, endDay)), v) ==> NoSpace(v)
  {
    var prepared := Prepare(raw, startDay, endDay);
    ValueCountsExact(CropTypes(prepared));
    forall v | HasRow(CropCounts(prepared), v)
      ensures NoSpace(v)
    {
      var i :| 0 <= i < |prepared| && CropTypes(prepared)[i] == Some(v);
    }
  }

  /** A submission by enumerator code "enuma003" that starts at 09:00 on 2024-07-21 and ends
      at 09:15, filtered with the sidebar's initial window 2024-07-21 to 2024-07-22: the row is kept, its
      submitter becomes "Seidu", it took 900 seconds, and it counts as female, not male. */
  lemma ExampleSubmission()
    ensures var row := Record(Some("enuma003"), Some(1721552400), Some(1721553300), Some("Female"),
                              None, None, None, None);
            var t := Prepare([row], DEFAULT_START_DAY, DEFAULT_END_DAY);
            && t == [row.(submittedBy := Some("Seidu"))]
            && CompletionSeconds(t[0]) == Some(900)
            && ComputeMetrics(t) == Metrics(1, 0, 1)
  {
    var row := Record(Some("enuma003"), Some(1721552400), Some(1721553300), Some("Female"),
                      None, None, None, None);
    var named := SubstituteSubmitters(ENUMERATOR_NAMES, [row]);
    assert named == [row.(submittedBy := Some("Seidu"))];
    assert named[0].start == Some(1721552400);
    FilterAllPass(HasStart, named);
    FilterAllPass(Within(DEFAULT_START_DAY, DEFAULT_END_DAY), named);
    FilterNonePass(LacksStart, named);
    assert FilterByDate(named, DEFAULT_START_DAY, DEFAULT_END_DAY) == named;
    GenderLabelsAreCaseSensitive();
    assert Genders(Prepare([row], DEFAULT_START_DAY, DEFAULT_END_DAY)) == [Some("Female")];
    assert [Some("Female")][..0] == [];
  }

  /** A row without a start timestamp is kept whatever the window. */
  lemma ExampleUndatedRowKept(row: Record, startDay: int, endDay: int)
    requires row.start.None?
    ensures FilterByDate([row], startDay, endDay) == [row]
  {
    FilterNonePass(HasStart, [row]);
    FilterAllPass(LacksStart, [row]);
  }
}
