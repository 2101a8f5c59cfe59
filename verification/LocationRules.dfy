/** The manager's rules that keep country and region consistent. */
module LocationRules {
  import opened Wrappers
  import opened Location
  import opened Profile

  function FieldValue<T>(f: Field<T>): Option<T> {
    if f.SetTo? then Some(f.value) else None
  }

  /** Rule 2: a country that changes or is cleared, with no region in the patch,
      clears the region. */
  predicate ErasesRegion(stored: Row, patch: ProfilePatch) {
    patch.country.IsSet() && !patch.region.IsSet() && stored.country != FieldValue(patch.country)
  }

  /** The patch with rule 2 applied. */
  function Ruled(stored: Row, patch: ProfilePatch): ProfilePatch {
    if ErasesRegion(stored, patch) then patch.(region := Cleared) else patch
  }

  function ApplyLocationRules(iso: Iso, stored: Row, patch: ProfilePatch): Result<ProfilePatch, LocationError> {
    var country := if patch.country.IsSet() then FieldValue(patch.country) else stored.country;
    var ruled := Ruled(stored, patch);
    if ruled.region.SetTo? then
      var _ :- ValidateLocation(iso, country, FieldValue(ruled.region));
      Ok(ruled)
    else if ruled.country.SetTo? then
      var _ :- ValidateLocation(iso, FieldValue(ruled.country), None);
      Ok(ruled)
    else Ok(ruled)
  }

  /** On a row with a valid location the rules accept a patch exactly when the row
      they would write has a valid location. */
  lemma RulesExact(iso: Iso, stored: Row, patch: ProfilePatch, now: int)
    requires LocationValid(iso, stored.country, stored.region)
    ensures var next := Apply(Ruled(stored, patch), stored, now);
            var out := ApplyLocationRules(iso, stored, patch);
            && (out.Ok? <==> LocationValid(iso, next.country, next.region))
            && (out.Ok? ==> out.value == Ruled(stored, patch))
  {
    var country := if patch.country.IsSet() then FieldValue(patch.country) else stored.country;
    ValidateLocationExact(iso, country, FieldValue(patch.region));
    ValidateLocationExact(iso, FieldValue(patch.country), None);
  }

  /** The rules validated patch against a row whose location was this one: the
      write the patch stands for is compatible with any row that still has it. */
  ghost predicate Vetted(iso: Iso, country: Option<string>, patch: ProfilePatch) {
    && (patch.region.SetTo? ==>
          LocationValid(iso, ApplyField(patch.country, country), Some(patch.region.value)))
    && (patch.country.SetTo? ==> IsCountry(iso, patch.country.value))
    && (patch.country.IsSet() && !patch.region.IsSet() ==> FieldValue(patch.country) == country)
  }

  lemma RulesVet(iso: Iso, stored: Row, patch: ProfilePatch)
    requires LocationValid(iso, stored.country, stored.region)
    requires ApplyLocationRules(iso, stored, patch).Ok?
    ensures Vetted(iso, stored.country, ApplyLocationRules(iso, stored, patch).value)
  {
    var country := if patch.country.IsSet() then FieldValue(patch.country) else stored.country;
    ValidateLocationExact(iso, country, FieldValue(patch.region));
    ValidateLocationExact(iso, FieldValue(patch.country), None);
  }

  /** When a vetted patch, written over a row that others may have changed since,
      is refused: the row's country is no longer the one the region was checked
      against, or the row holds a region of another country than the written one. */
  predicate Collides(checkedAgainst: Option<string>, patch: ProfilePatch, row: Row) {
    || (patch.region.SetTo? && !patch.country.IsSet() && row.country != checkedAgainst)
    || (!patch.region.IsSet() && patch.country.IsSet() && row.region.Some? && row.country != FieldValue(patch.country))
  }

  /** A vetted patch written over any valid row: the weak prefix CHECK refuses it
      exactly when it collides, and whatever the CHECK lets through is fully valid. */
  lemma CheckClosesTheGap(iso: Iso, checkedAgainst: Option<string>, patch: ProfilePatch, row: Row, now: int)
    requires Vetted(iso, checkedAgainst, patch)
    requires LocationValid(iso, row.country, row.region)
    ensures var next := Apply(patch, row, now);
            && (RegionCountryCheck(next.country, next.region) <==> LocationValid(iso, next.country, next.region))
            && (RegionCountryCheck(next.country, next.region) <==> !Collides(checkedAgainst, patch, row))
  {
    var next := Apply(patch, row, now);
    if patch.region.SetTo? {
      var owner := ApplyField(patch.country, checkedAgainst).value;
      if next.country.Some? {
        CheckIdentifiesOwner(iso, owner, next.country.value, patch.region.value);
      }
    } else if patch.region.Unchanged? && row.region.Some? && next.country.Some? {
      CheckIdentifiesOwner(iso, row.country.value, next.country.value, row.region.value);
    }
  }
}
