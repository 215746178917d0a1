/**
 * One survey submission (a row of the exported table) and the columns the
 * dashboard reads. Timestamps are whole seconds, already parsed: `None`
 * stands for a value `pd.to_datetime(..., errors='coerce')` turned into NaT.
 * Every text column may hold a missing value.
 */
module Survey {
  import opened Wrappers

  datatype Record = Record(
    submittedBy: Option<string>,
    start: Option<int>,
    end: Option<int>,
    gender: Option<string>,
    cropType: Option<string>,
    platformRegistered: Option<string>,
    financialServices: Option<string>,
    income: Option<string>)

  /** A table: rows in their positional order. */
  type Table = seq<Record>

  function Submitters(t: Table): seq<Option<string>>
  {
    seq(|t|, i requires 0 <= i < |t| => t[i].submittedBy)
  }

  function Genders(t: Table): seq<Option<string>>
  {
    seq(|t|, i requires 0 <= i < |t| => t[i].gender)
  }

  function CropTypes(t: Table): seq<Option<string>>
  {
    seq(|t|, i requires 0 <= i < |t| => t[i].cropType)
  }

  function PlatformRegistrations(t: Table): seq<Option<string>>
  {
    seq(|t|, i requires 0 <= i < |t| => t[i].platformRegistered)
  }

  function FinancialServiceAnswers(t: Table): seq<Option<string>>
  {
    seq(|t|, i requires 0 <= i < |t| => t[i].financialServices)
  }

  function Incomes(t: Table): seq<Option<string>>
  {
    seq(|t|, i requires 0 <= i < |t| => t[i].income)
  }

  /** The form completion time, `end - start`, in seconds: missing when either
      timestamp is, and negative when the form ends before it starts. */
  function CompletionSeconds(r: Record): (d: Option<int>)
    ensures d.Some? <==> r.start.Some? && r.end.Some?
    ensures d.Some? ==> r.start.value + d.value == r.end.value
    ensures d.Some? ==> (d.value < 0 <==> r.end.value < r.start.value)
  {
    if r.start.Some? && r.end.Some? then Some(r.end.value - r.start.value) else None
  }

  /** The `form_complete_time` column, one entry per row. */
  function CompletionTimes(t: Table): (c: seq<Option<int>>)
    ensures |c| == |t|
    ensures forall i :: 0 <= i < |t| ==> (c[i].Some? <==> t[i].start.Some? && t[i].end.Some?)
    ensures forall i :: 0 <= i < |t| && c[i].Some? ==> t[i].start.value + c[i].value == t[i].end.value
  {
    seq(|t|, i requires 0 <= i < |t| => CompletionSeconds(t[i]))
  }
}
