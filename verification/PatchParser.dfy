/** Parsing of PATCH request members into a tri-state patch. */
module PatchParser {
  import opened Wrappers
  import opened TextOrder
  import opened JsonMergePatch
  import opened Dates
  import opened Profile

  datatype ParseError =
    | UnknownMember(path: string)
    | DisplayNameCleared
    | NotAString(name: string)
    | BlankString(name: string)
    | BadEnum(name: string, text: string)
    | BadDate(name: string)
    | NotAnObject

  const PROFILE_MEMBERS: seq<string> :=
    ["display_name", "city", "region", "country", "gender", "date_of_birth", "category", "preferences"]
  const PREFERENCES_MEMBERS: seq<string> := ["court_side", "handedness"]

  // ---- Unknown members ----

  predicate Sorted(s: seq<string>) {
    forall i, j | 0 <= i < j < |s| :: AtMost(s[i], s[j])
  }

  function Insert(x: string, s: seq<string>): (r: seq<string>)
    requires Sorted(s)
    ensures Sorted(r)
    ensures multiset(r) == multiset(s) + multiset{x}
  {
    if s == [] then [x]
    else
      assert s == [s[0]] + s[1..];
      if AtMost(x, s[0]) then
        assert forall y <- s :: AtMost(x, y) by {
          forall y | y in s ensures AtMost(x, y) {
            AtMostTransitive(x, s[0], y) by { AtMostTotal(s[0], s[0]); }
          }
        }
        [x] + s
      else
        AtMostTotal(x, s[0]);
        var rest := Insert(x, s[1..]);
        assert forall y <- rest :: AtMost(s[0], y) by {
          forall y | y in rest ensures AtMost(s[0], y) {
            assert y in multiset(rest);
            assert y == x || y in s[1..];
          }
        }
        [s[0]] + rest
  }

  function Sort(s: seq<string>): (r: seq<string>)
    ensures Sorted(r)
    ensures multiset(r) == multiset(s)
  {
    if s == [] then []
    else
      assert s == [s[0]] + s[1..];
      Insert(s[0], Sort(s[1..]))
  }

  function Unknown(members: map<string, Json>, allowed: seq<string>): set<string> {
    set name | name in members && name !in allowed
  }

  predicate IsLeast(name: string, names: set<string>) {
    name in names && forall other <- names :: AtMost(name, other)
  }

  ghost function Least(names: set<string>): (name: string)
    requires names != {}
    ensures IsLeast(name, names)
    decreases |names|
  {
    var x :| x in names;
    if names == {x} then AtMostTotal(x, x); x
    else
      var m := Least(names - {x});
      AtMostTotal(x, m);
      assert forall y <- names :: y == x || y in names - {x};
      assert AtMost(x, m) ==> forall y <- names - {x} :: AtMost(x, y) by {
        if AtMost(x, m) {
          forall y | y in names - {x} ensures AtMost(x, y) { AtMostTransitive(x, m, y); }
        }
      }
      AtMostTotal(x, x);
      if AtMost(x, m) then x else m
  }

  lemma LeastUnique(a: string, b: string, names: set<string>)
    requires IsLeast(a, names) && IsLeast(b, names)
    ensures a == b
  {
    AtMostAntisymmetric(a, b);
  }

  ghost function FirstUnknown(members: map<string, Json>, allowed: seq<string>, prefix: string): Option<ParseError> {
    var unknown := Unknown(members, allowed);
    if unknown == {} then None else Some(UnknownMember(prefix + Least(unknown)))
  }

  /** Collects the unknown names in whatever order the map yields them and reports
      the first one in sorted order. */
  method RejectUnknown(members: map<string, Json>, allowed: seq<string>, prefix: string)
    returns (err: Option<ParseError>)
    ensures err == FirstUnknown(members, allowed, prefix)
  {
    var names := members.Keys;
    var unknown: seq<string> := [];
    while names != {}
      invariant names <= members.Keys
      invariant forall name :: name in unknown <==> name in members.Keys - names && name !in allowed
      decreases |names|
    {
      var name :| name in names;
      names := names - {name};
      if name !in allowed {
        unknown := unknown + [name];
      }
    }
    assert forall name :: name in unknown <==> name in Unknown(members, allowed);
    if |unknown| == 0 {
      return None;
    }
    var sorted := Sort(unknown);
    assert forall name :: name in sorted <==> name in unknown by {
      assert forall name :: name in sorted <==> name in multiset(sorted);
    }
    assert unknown[0] in Unknown(members, allowed);
    assert |sorted| == |multiset(sorted)| == |unknown|;
    assert IsLeast(sorted[0], Unknown(members, allowed)) by {
      AtMostTotal(sorted[0], sorted[0]);
    }
    LeastUnique(sorted[0], Least(Unknown(members, allowed)), Unknown(members, allowed));
    return Some(UnknownMember(prefix + sorted[0]));
  }

  // ---- Single members ----

  /** Unicode white space, as trimmed by the API. */
  predicate IsSpace(c: char) {
    c in {'\t', '\n', '\U{000B}', '\U{000C}', '\r', ' ', '\U{0085}', '\U{00A0}', '\U{1680}',
          '\U{2028}', '\U{2029}', '\U{202F}', '\U{205F}', '\U{3000}'}
    || '\U{2000}' <= c <= '\U{200A}'
  }

  predicate IsBlank(s: string) {
    forall c <- s :: IsSpace(c)
  }

  function ParseString(name: string, raw: Json): Result<string, ParseError> {
    if !raw.JString? then Err(NotAString(name))
    else if IsBlank(raw.s) then Err(BlankString(name))
    else Ok(raw.s)
  }

  function StringField(name: string, members: map<string, Json>): Result<Field<string>, ParseError> {
    if name !in members then Ok(Unchanged)
    else if members[name].JNull? then Ok(Cleared)
    else
      var s :- ParseString(name, members[name]);
      Ok(SetTo(s))
  }

  function EnumField(name: string, members: map<string, Json>, allowed: seq<string>): Result<Field<string>, ParseError> {
    var f :- StringField(name, members);
    if f.SetTo? && f.value !in allowed then Err(BadEnum(name, f.value)) else Ok(f)
  }

  function DateField(name: string, members: map<string, Json>): Result<Field<Date>, ParseError> {
    var f :- StringField(name, members);
    match f
    case Unchanged => Ok(Unchanged)
    case Cleared => Ok(Cleared)
    case SetTo(s) =>
      var d := ParseDate(s);
      if d.None? then Err(BadDate(name)) else Ok(SetTo(d.value))
  }

  /** A one-member map holding members[from] under its full path, so that nested
      members are reported with that path. */
  function Renamed(members: map<string, Json>, from: string, to: string): map<string, Json> {
    if from in members then map[to := members[from]] else map[]
  }

  // ---- Whole requests ----

  ghost function ParsePreferences(members: map<string, Json>): Result<PreferencesPatch, ParseError> {
    if "preferences" !in members then Ok(NO_PREFERENCES)
    else
      match members["preferences"]
      case JNull => Ok(NO_PREFERENCES.(clear := true))
      case JObject(prefs) =>
        var unknown := FirstUnknown(prefs, PREFERENCES_MEMBERS, "preferences.");
        if unknown.Some? then Err(unknown.value)
        else
          var courtSide :- EnumField("preferences.court_side",
                                     Renamed(prefs, "court_side", "preferences.court_side"), COURT_SIDES);
          var handedness :- EnumField("preferences.handedness",
                                      Renamed(prefs, "handedness", "preferences.handedness"), HANDEDNESSES);
          Ok(PreferencesPatch(false, courtSide, handedness))
      case _ => Err(NotAnObject)
  }

  function ParseDisplayName(members: map<string, Json>): Result<Option<string>, ParseError> {
    if "display_name" !in members then Ok(None)
    else if members["display_name"].JNull? then Err(DisplayNameCleared)
    else
      var name :- ParseString("display_name", members["display_name"]);
      Ok(Some(name))
  }

  ghost function ParsePatch(members: map<string, Json>): Result<ProfilePatch, ParseError> {
    var unknown := FirstUnknown(members, PROFILE_MEMBERS, "");
    if unknown.Some? then Err(unknown.value)
    else
      var displayName :- ParseDisplayName(members);
      var city :- StringField("city", members);
      var region :- StringField("region", members);
      var country :- StringField("country", members);
      var gender :- EnumField("gender", members, GENDERS);
      var dateOfBirth :- DateField("date_of_birth", members);
      var category :- EnumField("category", members, CATEGORIES);
      var preferences :- ParsePreferences(members);
      Ok(ProfilePatch(displayName, city, region, country, gender, dateOfBirth, category, preferences))
  }

  method PreferencesField(members: map<string, Json>) returns (r: Result<PreferencesPatch, ParseError>)
    ensures r == ParsePreferences(members)
  {
    if "preferences" !in members {
      return Ok(NO_PREFERENCES);
    }
    var raw := members["preferences"];
    if raw.JNull? {
      return Ok(NO_PREFERENCES.(clear := true));
    }
    if !raw.JObject? {
      return Err(NotAnObject);
    }
    var prefs := raw.members;
    var unknown := RejectUnknown(prefs, PREFERENCES_MEMBERS, "preferences.");
    if unknown.Some? {
      return Err(unknown.value);
    }
    var patch := NO_PREFERENCES;
    var courtSide :- EnumField("preferences.court_side",
                               Renamed(prefs, "court_side", "preferences.court_side"), COURT_SIDES);
    patch := patch.(courtSide := courtSide);
    var handedness :- EnumField("preferences.handedness",
                                Renamed(prefs, "handedness", "preferences.handedness"), HANDEDNESSES);
    patch := patch.(handedness := handedness);
    return Ok(patch);
  }

  /** Fills a patch member by member, stopping at the first offending one. */
  method ParseProfilePatch(members: map<string, Json>) returns (r: Result<ProfilePatch, ParseError>)
    ensures r == ParsePatch(members)
  {
    var unknown := RejectUnknown(members, PROFILE_MEMBERS, "");
    if unknown.Some? {
      return Err(unknown.value);
    }
    var patch := NO_CHANGE;
    var displayName :- ParseDisplayName(members);
    patch := patch.(displayName := displayName);
    var city :- StringField("city", members);
    patch := patch.(city := city);
    var region :- StringField("region", members);
    patch := patch.(region := region);
    var country :- StringField("country", members);
    patch := patch.(country := country);
    var gender :- EnumField("gender", members, GENDERS);
    patch := patch.(gender := gender);
    var dateOfBirth :- DateField("date_of_birth", members);
    patch := patch.(dateOfBirth := dateOfBirth);
    var category :- EnumField("category", members, CATEGORIES);
    patch := patch.(category := category);
    var preferences :- PreferencesField(members);
    patch := patch.(preferences := preferences);
    return Ok(patch);
  }

  // ---- What is accepted, and what it means ----

  /** A clearable text member: absent, null, or a non-blank string. */
  predicate TextOrNull(members: map<string, Json>, name: string) {
    name in members && !members[name].JNull? ==> members[name].JString? && !IsBlank(members[name].s)
  }

  predicate OneOfOrNull(members: map<string, Json>, name: string, allowed: seq<string>) {
    name in members && !members[name].JNull? ==>
      members[name].JString? && !IsBlank(members[name].s) && members[name].s in allowed
  }

  predicate DateOrNull(members: map<string, Json>, name: string) {
    TextOrNull(members, name) &&
    (name in members && members[name].JString? ==> ParseDate(members[name].s).Some?)
  }

  predicate AcceptablePreferences(prefs: map<string, Json>) {
    && prefs.Keys <= {"court_side", "handedness"}
    && OneOfOrNull(prefs, "court_side", COURT_SIDES)
    && OneOfOrNull(prefs, "handedness", HANDEDNESSES)
  }

  /** The request body ADR-015 section 3 describes. */
  predicate Acceptable(members: map<string, Json>) {
    && members.Keys <= MEMBERS
    && ("display_name" in members ==> members["display_name"].JString? && !IsBlank(members["display_name"].s))
    && TextOrNull(members, "city")
    && TextOrNull(members, "region")
    && TextOrNull(members, "country")
    && OneOfOrNull(members, "gender", GENDERS)
    && DateOrNull(members, "date_of_birth")
    && OneOfOrNull(members, "category", CATEGORIES)
    && ("preferences" in members && !members["preferences"].JNull? ==>
          members["preferences"].JObject? && AcceptablePreferences(members["preferences"].members))
  }

  lemma NoUnknownExact(members: map<string, Json>, allowed: seq<string>, names: set<string>, prefix: string)
    requires forall n :: n in allowed <==> n in names
    ensures FirstUnknown(members, allowed, prefix).None? <==> members.Keys <= names
  {
    assert forall n :: n in Unknown(members, allowed) <==> n in members.Keys && n !in names;
  }

  lemma PreferencesExact(members: map<string, Json>)
    ensures ParsePreferences(members).Ok? <==>
            ("preferences" in members && !members["preferences"].JNull? ==>
               members["preferences"].JObject? && AcceptablePreferences(members["preferences"].members))
    ensures ParsePreferences(members).Ok? ==>
              var p := ParsePreferences(members).value;
              FieldOneOf(p.courtSide, COURT_SIDES) && FieldOneOf(p.handedness, HANDEDNESSES)
  {
    if "preferences" in members && members["preferences"].JObject? {
      NoUnknownExact(members["preferences"].members, PREFERENCES_MEMBERS, {"court_side", "handedness"}, "preferences.");
    }
  }

  lemma MemberLists()
    ensures forall n :: n in PROFILE_MEMBERS <==> n in MEMBERS
  {
  }

  lemma FieldsExact(members: map<string, Json>, name: string, allowed: seq<string>)
    ensures StringField(name, members).Ok? <==> TextOrNull(members, name)
    ensures EnumField(name, members, allowed).Ok? <==> OneOfOrNull(members, name, allowed)
    ensures EnumField(name, members, allowed).Ok? ==> FieldOneOf(EnumField(name, members, allowed).value, allowed)
    ensures DateField(name, members).Ok? <==> DateOrNull(members, name)
  {
  }

  /** Parsing succeeds on exactly the acceptable bodies, and then every enumerated
      member holds an allowed value. */
  lemma ParseExact(members: map<string, Json>)
    ensures ParsePatch(members).Ok? <==> Acceptable(members)
    ensures ParsePatch(members).Ok? ==> EnumsValid(ParsePatch(members).value)
  {
    MemberLists();
    NoUnknownExact(members, PROFILE_MEMBERS, MEMBERS, "");
    PreferencesExact(members);
    FieldsExact(members, "city", []);
    FieldsExact(members, "region", []);
    FieldsExact(members, "country", []);
    FieldsExact(members, "gender", GENDERS);
    FieldsExact(members, "category", CATEGORIES);
    FieldsExact(members, "date_of_birth", []);
    hide FirstUnknown, StringField, EnumField, DateField, ParsePreferences, TextOrNull, OneOfOrNull, DateOrNull,
      AcceptablePreferences, FieldOneOf;
  }
}
