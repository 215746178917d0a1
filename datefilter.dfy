/**
 * The date-window filter: rows are split into those with a start timestamp
 * and those without; the former are kept only when the start falls between
 * 00:00:00 of the start day and 23:59:59 of the end day; the result is the
 * kept rows followed by every row without a start.
 * Dates are day numbers, so midnight of day `d` is second `d * 86400`.
 */
module DateFilter {
  import opened Seqs
  import opened Survey
  import SubSecond

  const SECONDS_PER_DAY := 86400

  /** 00:00:00 of `day`. */
  function WindowStart(startDay: int): int
  {
    startDay * SECONDS_PER_DAY
  }

  /** The end bound, built as the end day plus one day minus one second. */
  function WindowEnd(endDay: int): (t: int)
    ensures t == endDay * SECONDS_PER_DAY + 86399
    ensures WindowStart(endDay) <= t < WindowStart(endDay + 1)
  {
    (endDay + 1) * SECONDS_PER_DAY - 1
  }

  predicate HasStart(r: Record)
  {
    r.start.Some?
  }

  predicate LacksStart(r: Record)
  {
    r.start.None?
  }

  /** The row has a start timestamp on one of the days of the window: from midnight
      of the start day up to, and excluding, midnight after the end day. */
  predicate StartsWithin(startDay: int, endDay: int, r: Record)
  {
    r.start.Some? && WindowStart(startDay) <= r.start.value < WindowStart(endDay + 1)
  }

  /** On whole-second timestamps the window is the source's comparison against
      end day + 1 day - 1 second, and it is the whole-day window at nanosecond
      resolution. */
  lemma StartsWithinIsWrittenBound(startDay: int, endDay: int, r: Record)
    requires r.start.Some?
    ensures StartsWithin(startDay, endDay, r)
        <==> WindowStart(startDay) <= r.start.value <= WindowEnd(endDay)
    ensures StartsWithin(startDay, endDay, r)
        <==> SubSecond.InWindowWholeDays(startDay, endDay, r.start.value * SubSecond.NANOS_PER_SECOND)
  {
  }

  function Within(startDay: int, endDay: int): Record -> bool
  {
    r => StartsWithin(startDay, endDay, r)
  }

  /** `df.dropna(subset=['start'])` */
  function ValidRows(t: Table): Table
  {
    Filter(HasStart, t)
  }

  /** `df[df['start'].isna()]` */
  function InvalidRows(t: Table): Table
  {
    Filter(LacksStart, t)
  }

  /** The valid rows inside the window, followed by all rows without a start. */
  function FilterByDate(t: Table, startDay: int, endDay: int): Table
  {
    Filter(Within(startDay, endDay), ValidRows(t)) + InvalidRows(t)
  }

  /** The rows with a start in the output are exactly the input's rows in the window,
      and the rows without a start are exactly the input's rows without a start; both
      keep their relative order. */
  lemma FilterByDateParts(t: Table, startDay: int, endDay: int)
    ensures Filter(HasStart, FilterByDate(t, startDay, endDay)) == Filter(Within(startDay, endDay), t)
    ensures Filter(LacksStart, FilterByDate(t, startDay, endDay)) == InvalidRows(t)
  {
    var within := Within(startDay, endDay);
    var kept := Filter(within, ValidRows(t));
    var invalid := InvalidRows(t);
    FilterNarrower(HasStart, within, t);
    forall r | r in kept ensures HasStart(r) && !LacksStart(r) {
      FilterMembership(within, ValidRows(t), r);
    }
    forall r | r in invalid ensures !HasStart(r) && LacksStart(r) {
      FilterMembership(LacksStart, t, r);
    }
    FilterConcat(HasStart, kept, invalid);
    FilterAllPass(HasStart, kept);
    FilterNonePass(HasStart, invalid);
    FilterConcat(LacksStart, kept, invalid);
    FilterNonePass(LacksStart, kept);
    FilterAllPass(LacksStart, invalid);
  }

  /** The output has as many rows as there are valid rows in the window plus rows
      without a start. */
  lemma FilterByDateSize(t: Table, startDay: int, endDay: int)
    ensures |FilterByDate(t, startDay, endDay)| == Count(Within(startDay, endDay), t) + Count(LacksStart, t)
  {
    var within := Within(startDay, endDay);
    FilterNarrower(HasStart, within, t);
    FilterLength(within, t);
    FilterLength(LacksStart, t);
  }

  /** A row is in the output exactly when it is in the input and either has no start
      or starts inside the window. */
  lemma FilterByDateMembership(t: Table, startDay: int, endDay: int, r: Record)
    ensures r in FilterByDate(t, startDay, endDay)
        <==> r in t && (r.start.None? || StartsWithin(startDay, endDay, r))
  {
    FilterMembership(Within(startDay, endDay), ValidRows(t), r);
    FilterMembership(HasStart, t, r);
    FilterMembership(LacksStart, t, r);
  }

  /** Every retained row with a start lies between midnight of the start day and
      23:59:59 of the end day. */
  lemma FilterByDateBounds(t: Table, startDay: int, endDay: int)
    ensures forall r :: r in FilterByDate(t, startDay, endDay) && r.start.Some? ==>
      startDay * 86400 <= r.start.value <= endDay * 86400 + 86399
  {
    forall r | r in FilterByDate(t, startDay, endDay) && r.start.Some?
      ensures startDay * 86400 <= r.start.value <= endDay * 86400 + 86399
    {
      FilterByDateMembership(t, startDay, endDay, r);
    }
  }

  /** An end day before the start day keeps no dated row: only the rows without a start remain. */
  lemma EmptyWindow(t: Table, startDay: int, endDay: int)
    requires endDay < startDay
    ensures FilterByDate(t, startDay, endDay) == InvalidRows(t)
  {
    var within := Within(startDay, endDay);
    forall r | r in ValidRows(t) ensures !within(r) {
      assert WindowEnd(endDay) < WindowStart(startDay);
    }
    FilterNonePass(within, ValidRows(t));
  }

  /** The output lists the rows of the input in their relative order within each of
      its two parts, the dated rows first. */
  lemma FilterByDateOrder(t: Table, startDay: int, endDay: int)
    ensures FilterByDate(t, startDay, endDay)
         == Filter(Within(startDay, endDay), t) + InvalidRows(t)
    ensures IsSubsequence(Filter(Within(startDay, endDay), t), t)
    ensures IsSubsequence(InvalidRows(t), t)
  {
    FilterNarrower(HasStart, Within(startDay, endDay), t);
    FilterIsSubsequence(Within(startDay, endDay), t);
    FilterIsSubsequence(LacksStart, t);
  }

  /** Filtering the output again with the same or a wider window returns it unchanged. */
  lemma RefilterWiderWindow(t: Table, startDay: int, endDay: int, startDay': int, endDay': int)
    requires startDay' <= startDay && endDay <= endDay'
    ensures FilterByDate(FilterByDate(t, startDay, endDay), startDay', endDay')
         == FilterByDate(t, startDay, endDay)
  {
    var out := FilterByDate(t, startDay, endDay);
    var kept := Filter(Within(startDay, endDay), ValidRows(t));
    FilterByDateParts(t, startDay, endDay);
    forall r | r in ValidRows(out) ensures Within(startDay', endDay')(r) {
      FilterMembership(HasStart, out, r);
      FilterByDateMembership(t, startDay, endDay, r);
    }
    FilterAllPass(Within(startDay', endDay'), ValidRows(out));
    FilterNarrower(HasStart, Within(startDay, endDay), t);
  }

  lemma FilterByDateIdempotent(t: Table, startDay: int, endDay: int)
    ensures FilterByDate(FilterByDate(t, startDay, endDay), startDay, endDay)
         == FilterByDate(t, startDay, endDay)
  {
    RefilterWiderWindow(t, startDay, endDay, startDay, endDay);
  }
}
