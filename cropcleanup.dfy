/**
 * Clean-up of the crop-type column: every whitespace run is deleted and the
 * rest is title-cased; a missing value stays missing.
 */
module CropCleanup {
  import opened Wrappers
  import opened Strings
  import opened Survey

  /** `re.sub(r'\s+', '', s).title() if pd.notnull(s) else s` */
  function CleanCropType(v: Option<string>): (r: Option<string>)
    ensures r.None? <==> v.None?
    ensures r.Some? ==> NoSpace(r.value) && |r.value| <= |v.value|
  {
    match v
    case None => None
    case Some(s) =>
      RemoveSpaceSpec(s);
      TitleFromLength(RemoveSpace(s), false);
      TitleFromKeepsNoSpace(RemoveSpace(s), false);
      Some(Title(RemoveSpace(s)))
  }

  /** Cleaning a cleaned value changes nothing. */
  lemma CleanCropTypeIdempotent(v: Option<string>)
    ensures CleanCropType(CleanCropType(v)) == CleanCropType(v)
  {
    if v.Some? {
      var t := CleanCropType(v).value;
      RemoveSpaceNoop(t);
      TitleIdempotent(RemoveSpace(v.value));
    }
  }

  /** The column assignment: every row's crop type is cleaned, nothing else changes. */
  function CleanCropColumn(t: Table): Table
  {
    seq(|t|, i requires 0 <= i < |t| => t[i].(cropType := CleanCropType(t[i].cropType)))
  }

  /** Row by row: same rows in the same order, a missing crop type stays missing,
      a present one loses all whitespace, and no other field changes. */
  lemma CleanCropColumnPerRow(t: Table, i: int)
    requires 0 <= i < |t|
    ensures |CleanCropColumn(t)| == |t|
    ensures var r := CleanCropColumn(t)[i];
            && (r.cropType.None? <==> t[i].cropType.None?)
            && (r.cropType.Some? ==> NoSpace(r.cropType.value))
            && r.(cropType := t[i].cropType) == t[i]
  {
  }

  lemma CleanCropColumnIdempotent(t: Table)
    ensures CleanCropColumn(CleanCropColumn(t)) == CleanCropColumn(t)
  {
    forall i | 0 <= i < |t|
      ensures CleanCropColumn(CleanCropColumn(t))[i] == CleanCropColumn(t)[i]
    {
      CleanCropTypeIdempotent(t[i].cropType);
    }
  }
}
