/**
 * `extract_financial_services`: for the free-text multi-select answer, count
 * for each of six fixed options how many non-missing answers contain it as a
 * substring. The options form an ordered dictionary initialised to zero, so
 * every option is reported, in declaration order, even with a count of 0.
 */
module FinancialServices {
  import opened Wrappers
  import opened Strings
  import opened Tallies

  const SERVICE_OPTIONS: seq<string> := [
    "Mobile Money",
    "Bank Account",
    "Personal Susu",
    "Group savings",
    "None",
    "Other (Please specify)"
  ]

  /** One row of the returned frame: a financial service and its count. */
  datatype ServiceCount = ServiceCount(service: string, count: nat)

  /** The options are the keys of a dictionary: no option is listed twice. */
  predicate Distinct(options: seq<string>)
  {
    forall i, j :: 0 <= i < j < |options| ==> options[i] != options[j]
  }

  lemma ServiceOptionsAreDistinct()
    ensures Distinct(SERVICE_OPTIONS)
  {
  }

  /** The loop of `extract_financial_services` over a dictionary whose keys are
      `options`, all starting at zero. */
  method CountOptions(column: seq<Option<string>>, options: seq<string>) returns (rows: seq<ServiceCount>)
    requires Distinct(options)
    ensures |rows| == |options|
    ensures forall j :: 0 <= j < |rows| ==>
      rows[j] == ServiceCount(options[j], CountContaining(column, options[j]))
  {
    var services: map<string, nat> := map o | o in options :: 0;
    var entries := NonNull(column);
    var i := 0;
    while i < |entries|
      invariant 0 <= i <= |entries|
      invariant forall j :: 0 <= j < |options| ==>
        options[j] in services && services[options[j]] == CountHits(entries[..i], options[j])
    {
      var entry := entries[i];
      assert entries[..i + 1] == entries[..i] + [entry];
      forall j | 0 <= j < |options|
        ensures CountHits(entries[..i + 1], options[j])
             == CountHits(entries[..i], options[j]) + (if Contains(entry, options[j]) then 1 else 0)
      {
        CountHitsSnoc(entries[..i], entry, options[j]);
      }
      var k := 0;
      while k < |options|
        invariant 0 <= k <= |options|
        invariant forall j :: 0 <= j < |options| ==> options[j] in services
        invariant forall j :: 0 <= j < k ==>
          services[options[j]] == CountHits(entries[..i + 1], options[j])
        invariant forall j :: k <= j < |options| ==>
          services[options[j]] == CountHits(entries[..i], options[j])
      {
        var service := options[k];
        if Contains(entry, service) {
          services := services[service := services[service] + 1];
        }
        k := k + 1;
      }
      i := i + 1;
    }
    assert entries[..i] == entries;
    rows := seq(|options|, j requires 0 <= j < |options| => ServiceCount(options[j], services[options[j]]));
    forall j | 0 <= j < |options|
      ensures rows[j].count == CountContaining(column, options[j])
    {
      CountContainingDropsNulls(column, options[j]);
    }
  }

  /** For every option, in declaration order, the number of non-missing answers that contain it. */
  method ExtractFinancialServices(column: seq<Option<string>>) returns (rows: seq<ServiceCount>)
    ensures |rows| == |SERVICE_OPTIONS|
    ensures forall j :: 0 <= j < |rows| ==>
      rows[j] == ServiceCount(SERVICE_OPTIONS[j], CountContaining(column, SERVICE_OPTIONS[j]))
    ensures forall j :: 0 <= j < |rows| ==> rows[j].count <= |NonNull(column)|
  {
    ServiceOptionsAreDistinct();
    rows := CountOptions(column, SERVICE_OPTIONS);
  }

  /** Two answers and a missing one: each answer adds one for the options it contains. */
  lemma CountTwoAndMissing(a: string, b: string, o: string)
    ensures CountContaining([Some(a), Some(b), None], o)
         == (if Contains(a, o) then 1 else 0) + (if Contains(b, o) then 1 else 0)
  {
    CountContainingAppend([], Some(a), o);
    CountContainingAppend([Some(a)], Some(b), o);
    CountContainingAppend([Some(a), Some(b)], None, o);
    assert [Some(a), Some(b), None] == [Some(a), Some(b)] + [None];
    assert [Some(a), Some(b)] == [Some(a)] + [Some(b)];
    assert [Some(a)] == [] + [Some(a)];
  }

  /** The example answers of the two lemmas below. */
  predicate ExampleAnswers(a: string, b: string)
  {
    a == "Mobile Money, Bank Account" && b == "None"
  }

  lemma ExampleHits(a: string, b: string)
    requires ExampleAnswers(a, b)
    ensures CountContaining([Some(a), Some(b), None], "Mobile Money") == 1
    ensures CountContaining([Some(a), Some(b), None], "Bank Account") == 1
  {
    OccursContains(a, "Mobile Money", 0);
    FirstCharAbsent(b, "Mobile Money");
    CountTwoAndMissing(a, b, "Mobile Money");
    assert a == "Mobile Money, " + "Bank Account";
    assert a[14..14 + |"Bank Account"|] == "Bank Account";
    OccursContains(a, "Bank Account", 14);
    FirstCharAbsent(b, "Bank Account");
    CountTwoAndMissing(a, b, "Bank Account");
  }

  lemma ExampleNone(a: string, b: string)
    requires ExampleAnswers(a, b)
    ensures CountContaining([Some(a), Some(b), None], "None") == 1
  {
    assert "None"[0] == 'N';
    FirstCharAbsent(a, "None");
    OccursContains(b, "None", 0);
    CountTwoAndMissing(a, b, "None");
  }

  lemma ExampleMiss(a: string, b: string)
    requires ExampleAnswers(a, b)
    ensures CountContaining([Some(a), Some(b), None], "Personal Susu") == 0
  {
    assert "Personal Susu"[0] == 'P';
    FirstCharAbsent(a, "Personal Susu");
    FirstCharAbsent(b, "Personal Susu");
    CountTwoAndMissing(a, b, "Personal Susu");
  }

  /** Answers "Mobile Money, Bank Account", "None" and a missing one give one each to
      "Mobile Money", "Bank Account" and "None" and zero to "Personal Susu"; the missing
      answer contributes to no option. */
  lemma ExampleCounts(a: string, b: string)
    requires ExampleAnswers(a, b)
    ensures CountContaining([Some(a), Some(b), None], "Mobile Money") == 1
    ensures CountContaining([Some(a), Some(b), None], "Bank Account") == 1
    ensures CountContaining([Some(a), Some(b), None], "None") == 1
    ensures CountContaining([Some(a), Some(b), None], "Personal Susu") == 0
  {
    ExampleHits(a, b);
    ExampleNone(a, b);
    ExampleMiss(a, b);
  }
}
