/**
 * Substitution of enumerator codes by display names in the submitter column
 * (`Series.replace(enumerator_dict)`): a code that is a key of the table is
 * replaced by its name, every other value, missing ones included, passes
 * through.
 */
module Enumerators {
  import opened Wrappers
  import opened Survey

  /** The fixed code-to-name table of the dashboard. */
  const ENUMERATOR_NAMES: map<string, string> := map[
    "enuma002" := "Afishietu",
    "enuma003" := "Seidu",
    "enuma004" := "Zenabu",
    "enuma005" := "Sarah",
    "enuma006" := "Hilary",
    "enuma007" := "Zuwera",
    "enuma008" := "Adelaide",
    "enuma009" := "Razak",
    "enuma010" := "Joseph",
    "enuma011" := "Gifty"
  ]

  /** No display name is itself a code, so a second substitution finds nothing to replace. */
  predicate NamesAreNotCodes(names: map<string, string>)
  {
    forall code :: code in names ==> names[code] !in names
  }

  /** The submitter value is not a code of `names`. */
  predicate IsNotCode(names: map<string, string>, v: Option<string>)
  {
    v.None? || v.value !in names
  }

  /** Replace one value. */
  function Substitute(names: map<string, string>, v: Option<string>): (r: Option<string>)
    ensures v.Some? && v.value in names ==> r == Some(names[v.value])
    ensures IsNotCode(names, v) ==> r == v
    ensures NamesAreNotCodes(names) ==> IsNotCode(names, r)
  {
    match v
    case Some(x) => if x in names then Some(names[x]) else v
    case None => None
  }

  /** Replace the submitter of every row; nothing else in a row changes. */
  function SubstituteSubmitters(names: map<string, string>, t: Table): Table
  {
    seq(|t|, i requires 0 <= i < |t| => t[i].(submittedBy := Substitute(names, t[i].submittedBy)))
  }

  /** Row by row: same number of rows in the same order, a code becomes its name,
      any other submitter (a missing one included) is kept, and no other field changes. */
  lemma SubstitutionPerRow(names: map<string, string>, t: Table, i: int)
    requires 0 <= i < |t|
    ensures |SubstituteSubmitters(names, t)| == |t|
    ensures var r := SubstituteSubmitters(names, t)[i];
            && (t[i].submittedBy.Some? && t[i].submittedBy.value in names ==>
                  r.submittedBy == Some(names[t[i].submittedBy.value]))
            && (IsNotCode(names, t[i].submittedBy) ==> r == t[i])
            && r.(submittedBy := t[i].submittedBy) == t[i]
  {
  }

  /** Every submitter of the table is something other than a code. */
  predicate NoCodesLeft(names: map<string, string>, t: Table)
  {
    forall r :: r in t ==> IsNotCode(names, r.submittedBy)
  }

  lemma DashboardNamesAreNotCodes()
    ensures NamesAreNotCodes(ENUMERATOR_NAMES)
  {
  }

  /** After the substitution no submitter is a code any more. */
  lemma {:induction false} SubstitutionLeavesNoCodes(names: map<string, string>, t: Table)
    requires NamesAreNotCodes(names)
    ensures NoCodesLeft(names, SubstituteSubmitters(names, t))
  {
  }

  /** Substituting a table with no codes left changes nothing. */
  lemma {:induction false} SubstituteWithoutCodes(names: map<string, string>, t: Table)
    requires NoCodesLeft(names, t)
    ensures SubstituteSubmitters(names, t) == t
  {
  }

  /** Applying the substitution a second time is a no-op. */
  lemma SubstituteIdempotent(names: map<string, string>, t: Table)
    requires NamesAreNotCodes(names)
    ensures SubstituteSubmitters(names, SubstituteSubmitters(names, t)) == SubstituteSubmitters(names, t)
  {
  }
}
