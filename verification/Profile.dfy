/** The stored profile row, the tri-state patch and its direct application. */
module Profile {
  import opened Wrappers
  import opened JsonMergePatch
  import opened Dates
  import opened Location

  const GENDERS: seq<string> := ["male", "female"]
  const CATEGORIES: seq<string> := ["first", "second", "third", "fourth", "fifth"]
  const COURT_SIDES: seq<string> := ["drive", "backhand", "both"]
  const HANDEDNESSES: seq<string> := ["right", "left"]

  /** One row of user_profiles (its key, user_id, is the key of the table). The
      JSONB column keeps whatever keys were stored, known to the API or not. */
  datatype Row = Row(
    displayName: string,
    city: Option<string>,
    region: Option<string>,
    country: Option<string>,
    gender: Option<string>,
    dateOfBirth: Option<Date>,
    category: Option<string>,
    preferences: map<string, Json>,
    createdAt: int,
    updatedAt: int)

  /** One member of a merge patch: omitted, null, or a value. */
  datatype Field<+T> = Unchanged | Cleared | SetTo(value: T) {
    predicate IsSet() {
      !Unchanged?
    }
  }

  datatype PreferencesPatch = PreferencesPatch(
    clear: bool,
    courtSide: Field<string>,
    handedness: Field<string>)
  {
    predicate IsEmpty() {
      !clear && !courtSide.IsSet() && !handedness.IsSet()
    }
  }

  datatype ProfilePatch = ProfilePatch(
    displayName: Option<string>,
    city: Field<string>,
    region: Field<string>,
    country: Field<string>,
    gender: Field<string>,
    dateOfBirth: Field<Date>,
    category: Field<string>,
    preferences: PreferencesPatch)
  {
    predicate IsEmpty() {
      && displayName.None?
      && !city.IsSet() && !region.IsSet() && !country.IsSet()
      && !gender.IsSet() && !dateOfBirth.IsSet() && !category.IsSet()
      && preferences.IsEmpty()
    }
  }

  const NO_PREFERENCES := PreferencesPatch(false, Unchanged, Unchanged)
  const NO_CHANGE :=
    ProfilePatch(None, Unchanged, Unchanged, Unchanged, Unchanged, Unchanged, Unchanged, NO_PREFERENCES)

  function ApplyField<T>(f: Field<T>, stored: Option<T>): Option<T> {
    match f
    case Unchanged => stored
    case Cleared => None
    case SetTo(v) => Some(v)
  }

  function ApplyPreference(f: Field<string>, key: string, stored: map<string, Json>): map<string, Json> {
    match f
    case Unchanged => stored
    case Cleared => stored - {key}
    case SetTo(v) => stored[key := JString(v)]
  }

  function ApplyPreferences(p: PreferencesPatch, stored: map<string, Json>): map<string, Json> {
    ApplyPreference(p.handedness, "handedness",
                    ApplyPreference(p.courtSide, "court_side", if p.clear then map[] else stored))
  }

  /** The meaning of a non-empty patch: field by field, stamping updated_at. */
  function Apply(p: ProfilePatch, row: Row, now: int): Row {
    Row(if p.displayName.Some? then p.displayName.value else row.displayName,
        ApplyField(p.city, row.city),
        ApplyField(p.region, row.region),
        ApplyField(p.country, row.country),
        ApplyField(p.gender, row.gender),
        ApplyField(p.dateOfBirth, row.dateOfBirth),
        ApplyField(p.category, row.category),
        ApplyPreferences(p.preferences, row.preferences),
        row.createdAt,
        now)
  }

  predicate OneOf(v: Option<string>, allowed: seq<string>) {
    v.Some? ==> v.value in allowed
  }

  predicate PreferenceOneOf(preferences: map<string, Json>, key: string, allowed: seq<string>) {
    key in preferences ==> preferences[key].JString? && preferences[key].s in allowed
  }

  /** What every row written through the API satisfies. */
  predicate RowValid(iso: Iso, row: Row) {
    && LocationValid(iso, row.country, row.region)
    && OneOf(row.gender, GENDERS)
    && OneOf(row.category, CATEGORIES)
    && PreferenceOneOf(row.preferences, "court_side", COURT_SIDES)
    && PreferenceOneOf(row.preferences, "handedness", HANDEDNESSES)
  }

  predicate FieldOneOf(f: Field<string>, allowed: seq<string>) {
    f.SetTo? ==> f.value in allowed
  }

  /** The enumerated members of a patch hold allowed values. */
  predicate EnumsValid(p: ProfilePatch) {
    && FieldOneOf(p.gender, GENDERS)
    && FieldOneOf(p.category, CATEGORIES)
    && FieldOneOf(p.preferences.courtSide, COURT_SIDES)
    && FieldOneOf(p.preferences.handedness, HANDEDNESSES)
  }

  predicate SameUpToStamp(a: Row, b: Row) {
    a.(updatedAt := b.updatedAt) == b
  }

  /** Everything but the location of a valid row stays valid under a parsed patch. */
  lemma ApplyKeepsEnums(iso: Iso, p: ProfilePatch, row: Row, now: int)
    requires EnumsValid(p) && RowValid(iso, row)
    ensures var next := Apply(p, row, now);
            RowValid(iso, next) <==> LocationValid(iso, next.country, next.region)
  {
    assert "court_side"[0] != "handedness"[0];
  }

  // ---- The JSON view of a profile ----

  /** The member of the profile resource called name, if it is not null. */
  function Shown(row: Row, name: string): Option<Json> {
    if name == "display_name" then Some(JString(row.displayName))
    else if name == "city" then Text(row.city)
    else if name == "region" then Text(row.region)
    else if name == "country" then Text(row.country)
    else if name == "gender" then Text(row.gender)
    else if name == "date_of_birth" then
      if row.dateOfBirth.Some? then Some(JString(FormatDate(row.dateOfBirth.value))) else None
    else if name == "category" then Text(row.category)
    else if name == "preferences" then Some(JObject(row.preferences))
    else None
  }

  function Text(v: Option<string>): Option<Json> {
    if v.Some? then Some(JString(v.value)) else None
  }

  const MEMBERS: set<string> :=
    {"display_name", "city", "region", "country", "gender", "date_of_birth", "category", "preferences"}

  /** The resource as RFC 7396 sees it: null members are absent. */
  function View(row: Row): map<string, Json> {
    map name | name in MEMBERS && Shown(row, name).Some? :: Shown(row, name).value
  }

  function TextMember(ms: map<string, Json>, name: string): Option<string> {
    if name in ms && ms[name].JString? then Some(ms[name].s) else None
  }

  function DateMember(ms: map<string, Json>, name: string): Option<Date> {
    var t := TextMember(ms, name);
    if t.Some? then ParseDate(t.value) else None
  }

  function ObjectMember(ms: map<string, Json>, name: string): map<string, Json> {
    if name in ms && ms[name].JObject? then ms[name].members else map[]
  }

  /** Reads a resource back into a row; an absent member is null, and absent
      preferences are empty. */
  function ReadRow(ms: map<string, Json>, createdAt: int, updatedAt: int): Row {
    var name := TextMember(ms, "display_name");
    Row(if name.Some? then name.value else "",
        TextMember(ms, "city"),
        TextMember(ms, "region"),
        TextMember(ms, "country"),
        TextMember(ms, "gender"),
        DateMember(ms, "date_of_birth"),
        TextMember(ms, "category"),
        ObjectMember(ms, "preferences"),
        createdAt,
        updatedAt)
  }

  /** The view loses nothing. */
  lemma ReadOfView(row: Row)
    ensures ReadRow(View(row), row.createdAt, row.updatedAt) == row
  {
    if row.dateOfBirth.Some? {
      ParseOfFormat(row.dateOfBirth.value);
    }
  }
}
