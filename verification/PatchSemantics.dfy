/** What a PATCH request means: section 2 of RFC 7396 on the profile's JSON view,
    except for the region a changed country erases. */
module PatchSemantics {
  import opened Wrappers
  import opened JsonMergePatch
  import opened Dates
  import opened Location
  import opened Profile
  import opened PatchParser
  import opened LocationRules
  import opened UpdateSql
  import opened ProfileStore

  function Merged(target: map<string, Json>, members: map<string, Json>): map<string, Json> {
    MergePatch(JObject(target), JObject(members)).members
  }

  /** Merging a member that is not an object replaces, removes or keeps it. */
  lemma MergedMember(target: map<string, Json>, members: map<string, Json>, name: string)
    requires name in members ==> !members[name].JObject?
    ensures var m := Merged(target, members);
            if name !in members then (name in m <==> name in target) && (name in m ==> m[name] == target[name])
            else if members[name].JNull? then name !in m
            else name in m && m[name] == members[name]
  {
    if name in members {
      var stored := if name in target then target[name] else JNull;
      assert MergePatch(stored, members[name]) == members[name];
    }
  }

  lemma TextMerges(target: map<string, Json>, members: map<string, Json>, name: string, allowed: seq<string>)
    ensures StringField(name, members).Ok? ==>
              TextMember(Merged(target, members), name)
              == ApplyField(StringField(name, members).value, TextMember(target, name))
    ensures EnumField(name, members, allowed).Ok? ==>
              TextMember(Merged(target, members), name)
              == ApplyField(EnumField(name, members, allowed).value, TextMember(target, name))
    ensures DateField(name, members).Ok? ==>
              DateMember(Merged(target, members), name)
              == ApplyField(DateField(name, members).value, DateMember(target, name))
  {
    if StringField(name, members).Ok? {
      MergedMember(target, members, name);
    }
  }

  lemma PreferencesMerge(target: map<string, Json>, members: map<string, Json>)
    requires ParsePreferences(members).Ok?
    ensures ObjectMember(Merged(target, members), "preferences")
            == ApplyPreferences(ParsePreferences(members).value, ObjectMember(target, "preferences"))
  {
    var p := ParsePreferences(members).value;
    if "preferences" !in members || members["preferences"].JNull? {
      MergedMember(target, members, "preferences");
    } else {
      PreferencesExact(members);
      var prefs := members["preferences"].members;
      var stored := ObjectMember(target, "preferences");
      var before := if "preferences" in target then target["preferences"] else JNull;
      assert MergePatch(before, JObject(prefs)) == MergePatch(JObject(stored), JObject(prefs));
      assert ObjectMember(Merged(target, members), "preferences") == Merged(stored, prefs);
      PreferencesMergeMembers(stored, prefs, p);
    }
  }

  lemma PreferencesMergeMembers(stored: map<string, Json>, prefs: map<string, Json>, p: PreferencesPatch)
    requires AcceptablePreferences(prefs)
    requires p == PreferencesPatch(
                    false,
                    EnumField("preferences.court_side", Renamed(prefs, "court_side", "preferences.court_side"), COURT_SIDES).value,
                    EnumField("preferences.handedness", Renamed(prefs, "handedness", "preferences.handedness"), HANDEDNESSES).value)
    ensures Merged(stored, prefs) == ApplyPreferences(p, stored)
  {
    assert "court_side"[0] != "handedness"[0];
    forall k
      ensures k in Merged(stored, prefs) <==> k in ApplyPreferences(p, stored)
      ensures k in Merged(stored, prefs) ==> Merged(stored, prefs)[k] == ApplyPreferences(p, stored)[k]
    {
      MergedMember(stored, prefs, k);
    }
  }

  /** A parsed patch means what RFC 7396 says of the members it was parsed from. */
  lemma PatchIsMerge(row: Row, members: map<string, Json>, now: int)
    requires ParsePatch(members).Ok?
    ensures ReadRow(Merged(View(row), members), row.createdAt, now) == Apply(ParsePatch(members).value, row, now)
  {
    var view := View(row);
    ReadOfView(row);
    MergedMember(view, members, "display_name");
    TextMerges(view, members, "city", []);
    TextMerges(view, members, "region", []);
    TextMerges(view, members, "country", []);
    TextMerges(view, members, "gender", GENDERS);
    TextMerges(view, members, "date_of_birth", []);
    TextMerges(view, members, "category", CATEGORIES);
    PreferencesMerge(view, members);
  }

  // ---- The whole request ----

  /** The members RFC 7396 is applied to: the request's, plus a null region when the
      country really changes and the request says nothing about the region. */
  function EffectiveMembers(row: Row, members: map<string, Json>): map<string, Json> {
    if "country" in members && "region" !in members && TextMember(members, "country") != row.country then
      members["region" := JNull]
    else members
  }

  /** A request with no member, or only an empty preferences object. */
  predicate SaysNothing(members: map<string, Json>) {
    members.Keys <= {"preferences"} && ("preferences" in members ==> members["preferences"] == JObject(map[]))
  }

  lemma SaysNothingExact(members: map<string, Json>)
    requires ParsePatch(members).Ok?
    ensures ParsePatch(members).value.IsEmpty() <==> SaysNothing(members)
  {
    ParseExact(members);
    if "preferences" in members && members["preferences"].JObject? {
      var prefs := members["preferences"].members;
      assert prefs == map[] <==> "court_side" !in prefs && "handedness" !in prefs;
    }
    assert members.Keys <= {"preferences"} <==>
           "display_name" !in members && "city" !in members && "region" !in members && "country" !in members &&
           "gender" !in members && "date_of_birth" !in members && "category" !in members;
  }

  lemma ReadsElsewhere(members: map<string, Json>, name: string, allowed: seq<string>)
    requires name != "region"
    ensures StringField(name, members["region" := JNull]) == StringField(name, members)
    ensures EnumField(name, members["region" := JNull], allowed) == EnumField(name, members, allowed)
    ensures DateField(name, members["region" := JNull]) == DateField(name, members)
    ensures name == "preferences" ==> ParsePreferences(members["region" := JNull]) == ParsePreferences(members)
    ensures name == "display_name" ==> ParseDisplayName(members["region" := JNull]) == ParseDisplayName(members)
  {
  }

  /** An added null region parses to a cleared region and disturbs nothing else. */
  lemma ParseWithNullRegion(members: map<string, Json>)
    requires ParsePatch(members).Ok? && "region" !in members
    ensures ParsePatch(members["region" := JNull]) == Ok(ParsePatch(members).value.(region := Cleared))
  {
    hide FirstUnknown, StringField, EnumField, DateField, ParsePreferences, ParseDisplayName;
    MemberLists();
    NoUnknownExact(members, PROFILE_MEMBERS, MEMBERS, "");
    NoUnknownExact(members["region" := JNull], PROFILE_MEMBERS, MEMBERS, "");
    NullRegionField(members);
    assert "region"[0] != "gender"[0];
    ReadsElsewhere(members, "display_name", []);
    ReadsElsewhere(members, "city", []);
    ReadsElsewhere(members, "country", []);
    ReadsElsewhere(members, "gender", GENDERS);
    ReadsElsewhere(members, "date_of_birth", []);
    ReadsElsewhere(members, "category", CATEGORIES);
    ReadsElsewhere(members, "preferences", []);
  }

  lemma NullRegionField(members: map<string, Json>)
    ensures StringField("region", members["region" := JNull]) == Ok(Cleared)
    ensures "region" !in members ==> StringField("region", members) == Ok(Unchanged)
  {
  }

  /** The rules' view of the request is the effective members' patch. */
  lemma RulesAreEffectiveMembers(row: Row, members: map<string, Json>)
    requires ParsePatch(members).Ok?
    ensures ParsePatch(EffectiveMembers(row, members)) == Ok(Ruled(row, ParsePatch(members).value))
  {
    var p := ParsePatch(members).value;
    assert ErasesRegion(row, p) <==>
           "country" in members && "region" !in members && TextMember(members, "country") != row.country;
    if "region" !in members {
      ParseWithNullRegion(members);
    }
  }

  /** The row the request stands for. */
  function TargetRow(row: Row, members: map<string, Json>, now: int): Row {
    ReadRow(Merged(View(row), EffectiveMembers(row, members)), row.createdAt,
            if SaysNothing(members) then row.updatedAt else now)
  }

  /** Main result: served alone on a valid row, a request is accepted exactly when
      ADR-015 allows its members and the merged resource has a valid location; the
      new row is then the merged resource. A refused request is a client error,
      never a conflict or an internal failure. */
  lemma PatchIsMergePatch(iso: Iso, table: map<Uid, Row>, id: Uid, members: map<string, Json>, now: int)
    requires id in table && RowValid(iso, table[id])
    ensures var target := TargetRow(table[id], members, now);
            var out := PatchResult(iso, table, id, members, now);
            && (out.Ok? <==> Acceptable(members) && LocationValid(iso, target.country, target.region))
            && (out.Ok? ==> out.value == target && RowValid(iso, target))
            && (out.Err? ==> if Acceptable(members) then out.error.InvalidLocation? else out.error.BadRequest?)
  {
    ParseExact(members);
    if Acceptable(members) {
      hide ParsePatch, Acceptable;
      var row := table[id];
      var patch := ParsePatch(members).value;
      var ruled := Ruled(row, patch);
      SaysNothingExact(members);
      RulesAreEffectiveMembers(row, members);
      if patch.IsEmpty() {
        PatchIsMerge(row, EffectiveMembers(row, members), row.updatedAt);
        assert Apply(ruled, row, row.updatedAt) == row;
      } else {
        PatchIsMerge(row, EffectiveMembers(row, members), now);
        WriteAlone(iso, table, id, patch, now);
      }
    }
  }

  /** Rules that succeed imply that every CHECK passes, when nothing happens between
      read and write. */
  lemma WriteAlone(iso: Iso, table: map<Uid, Row>, id: Uid, patch: ProfilePatch, now: int)
    requires id in table && RowValid(iso, table[id])
    requires EnumsValid(patch) && !patch.IsEmpty()
    ensures var next := Apply(Ruled(table[id], patch), table[id], now);
            var out := UpdateResult(iso, table, id, patch, now);
            && (out.Ok? <==> LocationValid(iso, next.country, next.region))
            && (out.Ok? ==> out.value == next && RowValid(iso, next))
            && (out.Err? ==> out.error.InvalidLocation?)
  {
    var row := table[id];
    RulesExact(iso, row, patch, now);
    var next := Apply(Ruled(row, patch), row, now);
    ApplyKeepsEnums(iso, Ruled(row, patch), row, now);
    if LocationValid(iso, next.country, next.region) {
      ValidPassesCheck(iso, next.country, next.region);
    }
  }

  /** A successful request repeated at once succeeds again and changes nothing but
      the stamp. */
  lemma ReplayIsHarmless(iso: Iso, table: map<Uid, Row>, id: Uid, members: map<string, Json>, now: int, later: int)
    requires id in table && RowValid(iso, table[id])
    requires PatchResult(iso, table, id, members, now).Ok?
    ensures var once := PatchResult(iso, table, id, members, now).value;
            var twice := PatchResult(iso, table[id := once], id, members, later);
            twice.Ok? && SameUpToStamp(once, twice.value)
  {
    ParseExact(members);
    hide ParsePatch;
    var patch := ParsePatch(members).value;
    if !patch.IsEmpty() {
      var row := table[id];
      WriteAlone(iso, table, id, patch, now);
      var once := Apply(Ruled(row, patch), row, now);
      WriteAlone(iso, table[id := once], id, patch, later);
      ApplyTwice(patch, row, now, later);
    }
  }

  lemma ApplyTwice(patch: ProfilePatch, row: Row, now: int, later: int)
    ensures var once := Apply(Ruled(row, patch), row, now);
            SameUpToStamp(once, Apply(Ruled(once, patch), once, later))
  {
    assert "court_side"[0] != "handedness"[0];
  }

  // ---- Printing a profile and patching it back ----

  datatype PreferencesResponse = PreferencesResponse(courtSide: Option<string>, handedness: Option<string>)

  /** The response body; every member but those of preferences is always present,
      as null when unset. */
  datatype ProfileResponse = ProfileResponse(
    userId: Uid,
    displayName: string,
    city: Option<string>,
    region: Option<string>,
    country: Option<string>,
    gender: Option<string>,
    dateOfBirth: Option<string>,
    category: Option<string>,
    preferences: PreferencesResponse,
    updatedAt: int)

  function ToProfileResponse(id: Uid, row: Row): ProfileResponse {
    ProfileResponse(
      id, row.displayName, row.city, row.region, row.country, row.gender,
      if row.dateOfBirth.Some? then Some(FormatDate(row.dateOfBirth.value)) else None,
      row.category,
      PreferencesResponse(TextMember(row.preferences, "court_side"), TextMember(row.preferences, "handedness")),
      row.updatedAt)
  }

  function Nullable(v: Option<string>): Json {
    if v.Some? then JString(v.value) else JNull
  }

  function OmitEmpty(key: string, v: Option<string>): map<string, Json> {
    if v.Some? then map[key := JString(v.value)] else map[]
  }

  /** The response's members that a patch may contain. */
  function EchoMembers(resp: ProfileResponse): map<string, Json> {
    map[
      "display_name" := JString(resp.displayName),
      "city" := Nullable(resp.city),
      "region" := Nullable(resp.region),
      "country" := Nullable(resp.country),
      "gender" := Nullable(resp.gender),
      "date_of_birth" := Nullable(resp.dateOfBirth),
      "category" := Nullable(resp.category),
      "preferences" := JObject(OmitEmpty("court_side", resp.preferences.courtSide)
                               + OmitEmpty("handedness", resp.preferences.handedness))]
  }

  predicate Echoable(row: Row) {
    !IsBlank(row.displayName) && (row.city.Some? ==> !IsBlank(row.city.value))
  }

  /** No enumerated value, code or printed date is blank. */
  lemma NotBlank(iso: Iso, row: Row)
    requires RowValid(iso, row)
    ensures row.gender.Some? ==> !IsBlank(row.gender.value)
    ensures row.category.Some? ==> !IsBlank(row.category.value)
    ensures row.country.Some? ==> !IsBlank(row.country.value)
    ensures row.region.Some? ==> !IsBlank(row.region.value)
    ensures row.dateOfBirth.Some? ==> !IsBlank(FormatDate(row.dateOfBirth.value))
    ensures forall v <- COURT_SIDES + HANDEDNESSES :: !IsBlank(v)
  {
    forall v | v in GENDERS + CATEGORIES + COURT_SIDES + HANDEDNESSES
      ensures !IsBlank(v)
    {
      assert v[0] in v && !IsSpace(v[0]);
    }
    if row.country.Some? {
      var c := row.country.value;
      assert IsAlpha2(c);
      assert c[0] in c && !IsSpace(c[0]);
      if row.region.Some? {
        var r := row.region.value;
        assert c + "-" <= r;
        assert r[0] == (c + "-")[0] == c[0] && r[0] in r;
      }
    }
    if row.dateOfBirth.Some? {
      var s := FormatDate(row.dateOfBirth.value);
      assert s[4] == '-' && s[4] in s && !IsSpace('-');
    }
  }

  /** Patching a rendered profile back succeeds exactly when its free-text members
      are not blank (a provider may have supplied a blank name), and then changes
      nothing but the stamp. */
  lemma EchoIsHarmless(iso: Iso, table: map<Uid, Row>, id: Uid, now: int)
    requires id in table && RowValid(iso, table[id])
    ensures var members := EchoMembers(ToProfileResponse(id, table[id]));
            var out := PatchResult(iso, table, id, members, now);
            && (out.Ok? <==> Echoable(table[id]))
            && (out.Ok? ==> out.value == table[id].(updatedAt := now))
  {
    var row := table[id];
    var members := EchoMembers(ToProfileResponse(id, row));
    PatchIsMergePatch(iso, table, id, members, now);
    EchoAcceptable(iso, id, row);
    EchoTarget(iso, id, row, now);
  }

  lemma EchoAcceptable(iso: Iso, id: Uid, row: Row)
    requires RowValid(iso, row)
    ensures Acceptable(EchoMembers(ToProfileResponse(id, row))) <==> Echoable(row)
  {
    hide EchoMembers, TextOrNull, OneOfOrNull, DateOrNull, AcceptablePreferences, IsBlank;
    var resp := ToProfileResponse(id, row);
    var members := EchoMembers(resp);
    NotBlank(iso, row);
    EchoLookup(resp);
    if row.dateOfBirth.Some? {
      ParseOfFormat(row.dateOfBirth.value);
    }
    EchoField(members, "city", row.city, []);
    EchoField(members, "region", row.region, []);
    EchoField(members, "country", row.country, []);
    EchoField(members, "gender", row.gender, GENDERS);
    EchoField(members, "date_of_birth", resp.dateOfBirth, []);
    EchoField(members, "category", row.category, CATEGORIES);
    EchoPreferencesAcceptable(resp.preferences);
  }

  lemma EchoLookup(resp: ProfileResponse)
    ensures var members := EchoMembers(resp);
            && members.Keys == MEMBERS
            && members["display_name"] == JString(resp.displayName)
            && members["city"] == Nullable(resp.city)
            && members["region"] == Nullable(resp.region)
            && members["country"] == Nullable(resp.country)
            && members["gender"] == Nullable(resp.gender)
            && members["date_of_birth"] == Nullable(resp.dateOfBirth)
            && members["category"] == Nullable(resp.category)
            && members["preferences"] == JObject(OmitEmpty("court_side", resp.preferences.courtSide)
                                                 + OmitEmpty("handedness", resp.preferences.handedness))
  {
  }

  lemma EchoField(members: map<string, Json>, name: string, v: Option<string>, allowed: seq<string>)
    requires name in members && members[name] == Nullable(v)
    ensures TextOrNull(members, name) <==> (v.Some? ==> !IsBlank(v.value))
    ensures OneOfOrNull(members, name, allowed) <==> (v.Some? ==> !IsBlank(v.value) && v.value in allowed)
    ensures DateOrNull(members, name) <==> (v.Some? ==> !IsBlank(v.value) && ParseDate(v.value).Some?)
  {
  }

  lemma EchoPreferencesAcceptable(p: PreferencesResponse)
    requires p.courtSide.Some? ==> p.courtSide.value in COURT_SIDES && !IsBlank(p.courtSide.value)
    requires p.handedness.Some? ==> p.handedness.value in HANDEDNESSES && !IsBlank(p.handedness.value)
    ensures AcceptablePreferences(OmitEmpty("court_side", p.courtSide) + OmitEmpty("handedness", p.handedness))
  {
    assert "court_side"[0] != "handedness"[0];
  }

  /** Merging back a rendered text member gives the stored text. */
  lemma EchoReads(view: map<string, Json>, members: map<string, Json>, name: string, v: Option<string>)
    requires name in members && members[name] == Nullable(v)
    ensures TextMember(Merged(view, members), name) == v
  {
    MergedMember(view, members, name);
  }

  lemma EchoTarget(iso: Iso, id: Uid, row: Row, now: int)
    requires RowValid(iso, row)
    ensures TargetRow(row, EchoMembers(ToProfileResponse(id, row)), now) == row.(updatedAt := now)
  {
    hide EchoMembers, Merged, View;
    var resp := ToProfileResponse(id, row);
    var members := EchoMembers(resp);
    var view := View(row);
    EchoLookup(resp);
    assert EffectiveMembers(row, members) == members;
    assert members["display_name"] == Nullable(Some(row.displayName));
    EchoReads(view, members, "display_name", Some(row.displayName));
    EchoReads(view, members, "city", row.city);
    EchoReads(view, members, "region", row.region);
    EchoReads(view, members, "country", row.country);
    EchoReads(view, members, "gender", row.gender);
    EchoReads(view, members, "date_of_birth", resp.dateOfBirth);
    EchoReads(view, members, "category", row.category);
    if row.dateOfBirth.Some? {
      ParseOfFormat(row.dateOfBirth.value);
    }
    hide FormatDate, ParseDate;
    EchoPreferences(id, row);
  }

  lemma EchoPreferences(id: Uid, row: Row)
    requires PreferenceOneOf(row.preferences, "court_side", COURT_SIDES)
    requires PreferenceOneOf(row.preferences, "handedness", HANDEDNESSES)
    ensures ObjectMember(Merged(View(row), EchoMembers(ToProfileResponse(id, row))), "preferences") == row.preferences
  {
    var members := EchoMembers(ToProfileResponse(id, row));
    var prefs := members["preferences"].members;
    assert View(row)["preferences"] == JObject(row.preferences);
    assert ObjectMember(Merged(View(row), members), "preferences") == Merged(row.preferences, prefs);
    forall k
      ensures k in Merged(row.preferences, prefs) <==> k in row.preferences
      ensures k in Merged(row.preferences, prefs) ==> Merged(row.preferences, prefs)[k] == row.preferences[k]
    {
      MergedMember(row.preferences, prefs, k);
    }
  }

  /** The failing input: a profile created with the blank name a provider supplied. */
  lemma BlankNameEcho(iso: Iso, id: Uid, now: int, later: int)
    ensures var row := NewRow(" ", now);
            PatchResult(iso, map[id := row], id, EchoMembers(ToProfileResponse(id, row)), later)
            == Err(BadRequest(BlankString("display_name")))
  {
    var row := NewRow(" ", now);
    var members := EchoMembers(ToProfileResponse(id, row));
    EchoLookup(ToProfileResponse(id, row));
    MemberLists();
    NoUnknownExact(members, PROFILE_MEMBERS, MEMBERS, "");
    hide EchoMembers, FirstUnknown;
    assert IsBlank(" ");
  }
}
