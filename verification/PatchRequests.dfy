/** What particular requests are answered, spelled out character by character and
    member by member. */
module PatchRequests {
  import opened Wrappers
  import opened TextOrder
  import opened JsonMergePatch
  import opened Dates
  import opened Location
  import opened Profile
  import opened PatchParser
  import opened LocationRules
  import opened UpdateSql
  import opened ProfileStore
  import opened PatchSemantics

  // ---- Blank texts ----

  /** White space as Unicode defines it, by code point. */
  predicate WhiteSpace(c: char) {
    var n := c as int;
    || 9 <= n <= 13 || n == 32 || n == 0x85 || n == 0xA0 || n == 0x1680
    || 0x2000 <= n <= 0x200A || n == 0x2028 || n == 0x2029 || n == 0x202F || n == 0x205F || n == 0x3000
  }

  /** No printable ASCII character but the blank is white space. */
  lemma SpaceExact(c: char)
    ensures IsSpace(c) <==> WhiteSpace(c)
    ensures '!' <= c <= '~' ==> !WhiteSpace(c)
    ensures WhiteSpace(' ') && WhiteSpace('\t') && WhiteSpace('\n')
  {
  }

  /** A text is refused exactly when it holds nothing but white space; otherwise it is
      taken as it is, with the spaces around it. */
  lemma ParseStringExact(name: string, s: string)
    ensures (exists i | 0 <= i < |s| :: !WhiteSpace(s[i])) ==> ParseString(name, JString(s)) == Ok(s)
    ensures (forall i | 0 <= i < |s| :: WhiteSpace(s[i])) ==> ParseString(name, JString(s)) == Err(BlankString(name))
  {
    forall i | 0 <= i < |s| ensures IsSpace(s[i]) <==> WhiteSpace(s[i]) {
      SpaceExact(s[i]);
    }
    hide IsSpace, WhiteSpace;
    assert (forall i | 0 <= i < |s| :: IsSpace(s[i])) ==> IsBlank(s);
    assert forall i | 0 <= i < |s| :: s[i] in s;
  }

  /** A request whose one member is a text. */
  lemma SingleMember(name: string, text: string)
    requires name in {"display_name", "city", "region", "country"} && !IsBlank(text)
    ensures ParsePatch(map[name := JString(text)])
            == Ok(if name == "display_name" then NO_CHANGE.(displayName := Some(text))
                  else if name == "city" then NO_CHANGE.(city := SetTo(text))
                  else if name == "country" then NO_CHANGE.(country := SetTo(text))
                  else NO_CHANGE.(region := SetTo(text)))
  {
    var members := map[name := JString(text)];
    MemberLists();
    NoUnknownExact(members, PROFILE_MEMBERS, MEMBERS, "");
    hide FirstUnknown, IsBlank;
    assert ParsePreferences(members) == Ok(NO_PREFERENCES);
  }

  lemma SingleBlank(name: string, text: string)
    requires name in {"display_name", "city"} && IsBlank(text)
    ensures ParsePatch(map[name := JString(text)]) == Err(BlankString(name))
  {
    var members := map[name := JString(text)];
    MemberLists();
    NoUnknownExact(members, PROFILE_MEMBERS, MEMBERS, "");
    hide FirstUnknown, IsBlank;
  }

  /** What a PATCH of the city or the display name alone does to a valid row: stores the
      text as it is, exactly when some character of it is not white space. */
  lemma TextRequest(iso: Iso, table: map<Uid, Row>, id: Uid, name: string, s: string, now: int)
    requires id in table && RowValid(iso, table[id]) && name in {"display_name", "city"}
    ensures var out := PatchResult(iso, table, id, map[name := JString(s)], now);
            if exists i | 0 <= i < |s| :: !WhiteSpace(s[i]) then
              out == Ok(if name == "city" then table[id].(city := Some(s), updatedAt := now)
                        else table[id].(displayName := s, updatedAt := now))
            else out == Err(BadRequest(BlankString(name)))
  {
    BlankExact(s);
    if exists i | 0 <= i < |s| :: !WhiteSpace(s[i]) {
      SingleMember(name, s);
      hide ParsePatch, IsBlank, WhiteSpace, ApplyLocationRules;
      var patch := if name == "city" then NO_CHANGE.(city := SetTo(s)) else NO_CHANGE.(displayName := Some(s));
      assert Ruled(table[id], patch) == patch;
      WriteAlone(iso, table, id, patch, now);
    } else {
      SingleBlank(name, s);
    }
  }

  lemma BlankExact(s: string)
    ensures IsBlank(s) <==> forall i | 0 <= i < |s| :: WhiteSpace(s[i])
  {
    forall i | 0 <= i < |s| ensures IsSpace(s[i]) <==> WhiteSpace(s[i]) {
      SpaceExact(s[i]);
    }
    hide IsSpace, WhiteSpace;
    assert forall i | 0 <= i < |s| :: s[i] in s;
  }

  // ---- Enumerated texts ----

  /** The values each enumerated member takes, and no other. */
  lemma EnumsExact(name: string, s: string)
    requires name in {"gender", "category"}
    ensures ParsePatch(map[name := JString(s)]).Ok? <==>
            if name == "gender" then s == "male" || s == "female"
            else s == "first" || s == "second" || s == "third" || s == "fourth" || s == "fifth"
  {
    var members := map[name := JString(s)];
    ParseExact(members);
    hide ParsePatch;
    ValuesNotBlank(s);
  }

  lemma ValuesNotBlank(s: string)
    ensures s in GENDERS + CATEGORIES + COURT_SIDES + HANDEDNESSES ==> !IsBlank(s)
  {
    if |s| > 0 && !IsSpace(s[0]) {
      assert s[0] in s;
    }
  }

  lemma PreferenceValuesExact(key: string, s: string)
    requires key in {"court_side", "handedness"}
    ensures ParsePatch(map["preferences" := JObject(map[key := JString(s)])]).Ok? <==>
            if key == "court_side" then s == "drive" || s == "backhand" || s == "both"
            else s == "right" || s == "left"
  {
    var members := map["preferences" := JObject(map[key := JString(s)])];
    ParseExact(members);
    hide ParsePatch;
    ValuesNotBlank(s);
  }

  // ---- Which error ----

  /** What is wrong with a text member, if anything. */
  ghost function TextError(v: Json, path: string): Option<ParseError> {
    if v.JNull? then None
    else if !v.JString? then Some(NotAString(path))
    else if forall i | 0 <= i < |v.s| :: WhiteSpace(v.s[i]) then Some(BlankString(path))
    else None
  }

  ghost function ChoiceError(v: Json, path: string, allowed: set<string>): Option<ParseError> {
    if TextError(v, path).Some? then TextError(v, path)
    else if v.JString? && v.s !in allowed then Some(BadEnum(path, v.s))
    else None
  }

  /** The first of the unknown names in dictionary order. */
  ghost predicate FirstStranger(names: set<string>, known: set<string>, name: string) {
    && name in names - known
    && (forall other <- names - known :: AtMost(name, other))
  }

  ghost function PreferencesError(v: Json): Option<ParseError> {
    match v
    case JNull => None
    case JObject(prefs) =>
      if name: string :| FirstStranger(prefs.Keys, {"court_side", "handedness"}, name) then
        Some(UnknownMember("preferences." + name))
      else if "court_side" in prefs
              && ChoiceError(prefs["court_side"], "preferences.court_side", {"drive", "backhand", "both"}).Some? then
        ChoiceError(prefs["court_side"], "preferences.court_side", {"drive", "backhand", "both"})
      else if "handedness" in prefs then ChoiceError(prefs["handedness"], "preferences.handedness", {"right", "left"})
      else None
    case _ => Some(NotAnObject)
  }

  /** What is wrong with one member of the request, if it is there. */
  ghost function MemberError(members: map<string, Json>, name: string): Option<ParseError> {
    if name !in members then None
    else
      var v := members[name];
      if name == "display_name" then if v.JNull? then Some(DisplayNameCleared) else TextError(v, name)
      else if name == "gender" then ChoiceError(v, name, {"male", "female"})
      else if name == "category" then ChoiceError(v, name, {"first", "second", "third", "fourth", "fifth"})
      else if name == "date_of_birth" then
        if TextError(v, name).Some? then TextError(v, name)
        else if v.JString? && ParseDate(v.s).None? then Some(BadDate(name))
        else None
      else if name == "preferences" then PreferencesError(v)
      else TextError(v, name)
  }

  const CHECK_ORDER: seq<string> :=
    ["display_name", "city", "region", "country", "gender", "date_of_birth", "category", "preferences"]

  /** The error of the first of these members that has one. */
  ghost function FirstOf(members: map<string, Json>, names: seq<string>): Option<ParseError> {
    if names == [] then None
    else if MemberError(members, names[0]).Some? then MemberError(members, names[0])
    else FirstOf(members, names[1..])
  }

  lemma StringError(name: string, members: map<string, Json>, allowed: seq<string>, values: set<string>)
    requires name in members && forall v :: v in allowed <==> v in values
    ensures StringField(name, members).Err? <==> TextError(members[name], name).Some?
    ensures StringField(name, members).Err? ==> Some(StringField(name, members).error) == TextError(members[name], name)
    ensures EnumField(name, members, allowed).Err? <==> ChoiceError(members[name], name, values).Some?
    ensures EnumField(name, members, allowed).Err? ==>
              Some(EnumField(name, members, allowed).error) == ChoiceError(members[name], name, values)
  {
    if members[name].JString? {
      BlankExact(members[name].s);
    }
    hide IsBlank, WhiteSpace;
  }

  function Failure<T>(r: Result<T, ParseError>): Option<ParseError> {
    if r.Err? then Some(r.error) else None
  }

  lemma NameError(members: map<string, Json>)
    ensures Failure(ParseDisplayName(members)) == MemberError(members, "display_name")
  {
    if "display_name" in members && members["display_name"].JString? {
      BlankExact(members["display_name"].s);
    }
    hide IsBlank, WhiteSpace;
  }

  lemma TextFieldError(members: map<string, Json>, name: string)
    requires name in {"city", "region", "country"}
    ensures Failure(StringField(name, members)) == MemberError(members, name)
  {
    if name in members {
      StringError(name, members, [], {});
    }
    hide IsBlank, WhiteSpace, TextError, ParseString;
  }

  lemma EnumFieldError(members: map<string, Json>)
    ensures Failure(EnumField("gender", members, GENDERS)) == MemberError(members, "gender")
    ensures Failure(EnumField("category", members, CATEGORIES)) == MemberError(members, "category")
  {
    hide TextError, ChoiceError, ParseString, StringField;
    if "gender" in members {
      StringError("gender", members, GENDERS, {"male", "female"});
    }
    if "category" in members {
      StringError("category", members, CATEGORIES, {"first", "second", "third", "fourth", "fifth"});
    }
    AbsentField("gender", members, GENDERS);
    AbsentField("category", members, CATEGORIES);
    hide EnumField;
  }

  lemma AbsentField(name: string, members: map<string, Json>, allowed: seq<string>)
    ensures name !in members ==> EnumField(name, members, allowed) == Ok(Unchanged)
  {
  }

  lemma DateFieldError(members: map<string, Json>)
    ensures Failure(DateField("date_of_birth", members)) == MemberError(members, "date_of_birth")
  {
    if "date_of_birth" in members {
      StringError("date_of_birth", members, [], {});
    }
    hide IsBlank, WhiteSpace, TextError, ParseDate;
  }

  lemma RenamedError(prefs: map<string, Json>, key: string, path: string, allowed: seq<string>, values: set<string>)
    requires forall v :: v in allowed <==> v in values
    ensures Failure(EnumField(path, Renamed(prefs, key, path), allowed))
            == if key in prefs then ChoiceError(prefs[key], path, values) else None
  {
    if key in prefs {
      StringError(path, Renamed(prefs, key, path), allowed, values);
    }
    hide ChoiceError, StringField;
    AbsentField(path, Renamed(prefs, key, path), allowed);
    hide EnumField;
  }

  lemma StrangerExact(members: map<string, Json>, allowed: seq<string>, known: set<string>, prefix: string)
    requires forall n :: n in allowed <==> n in known
    ensures FirstUnknown(members, allowed, prefix).None? <==> members.Keys <= known
    ensures forall name :: FirstStranger(members.Keys, known, name) <==>
                           FirstUnknown(members, allowed, prefix).Some? && name == Least(Unknown(members, allowed))
  {
    NoUnknownExact(members, allowed, known, prefix);
    assert Unknown(members, allowed) == members.Keys - known;
    forall name
      ensures FirstStranger(members.Keys, known, name) <==>
              FirstUnknown(members, allowed, prefix).Some? && name == Least(Unknown(members, allowed))
    {
      if FirstStranger(members.Keys, known, name) {
        LeastUnique(name, Least(Unknown(members, allowed)), Unknown(members, allowed));
      }
    }
  }

  lemma PreferencesFieldError(members: map<string, Json>)
    ensures Failure(ParsePreferences(members)) == MemberError(members, "preferences")
  {
    if "preferences" in members && members["preferences"].JObject? {
      ObjectError(members, members["preferences"].members);
    }
    hide EnumField, FirstUnknown, PreferencesError;
    if "preferences" in members && !members["preferences"].JObject? {
      NoObjectError(members["preferences"]);
    }
  }

  lemma NoObjectError(v: Json)
    requires !v.JObject?
    ensures PreferencesError(v) == if v.JNull? then None else Some(NotAnObject)
  {
  }

  lemma ObjectError(members: map<string, Json>, prefs: map<string, Json>)
    requires "preferences" in members && members["preferences"] == JObject(prefs)
    ensures Failure(ParsePreferences(members)) == PreferencesError(JObject(prefs))
  {
    var keys := {"court_side", "handedness"};
    StrangerExact(prefs, PREFERENCES_MEMBERS, keys, "preferences.");
    RenamedError(prefs, "court_side", "preferences.court_side", COURT_SIDES, {"drive", "backhand", "both"});
    RenamedError(prefs, "handedness", "preferences.handedness", HANDEDNESSES, {"right", "left"});
    hide EnumField, ChoiceError, FirstStranger, Renamed, Least, Unknown;
    if FirstUnknown(prefs, PREFERENCES_MEMBERS, "preferences.").Some? {
      assert FirstStranger(prefs.Keys, keys, Least(Unknown(prefs, PREFERENCES_MEMBERS)));
    } else {
      assert forall name :: !FirstStranger(prefs.Keys, keys, name);
    }
  }

  /** Main result: a request is refused for an unknown member if there is one, the first
      in dictionary order; else for the first offending member in the order of the
      profile's columns, with the reason that member gives; else it parses. */
  lemma ErrorsExact(members: map<string, Json>)
    ensures if members.Keys <= MEMBERS then Failure(ParsePatch(members)) == FirstOf(members, CHECK_ORDER)
            else exists name :: FirstStranger(members.Keys, MEMBERS, name)
                                && ParsePatch(members) == Err(UnknownMember(name))
  {
    MemberLists();
    StrangerExact(members, PROFILE_MEMBERS, MEMBERS, "");
    if members.Keys <= MEMBERS {
      KnownErrors(members);
    } else {
      hide ParseDisplayName, StringField, EnumField, DateField, ParsePreferences;
      assert FirstStranger(members.Keys, MEMBERS, Least(Unknown(members, PROFILE_MEMBERS)));
    }
  }

  lemma KnownErrors(members: map<string, Json>)
    requires FirstUnknown(members, PROFILE_MEMBERS, "").None?
    ensures Failure(ParsePatch(members)) == FirstOf(members, CHECK_ORDER)
  {
    hide FirstUnknown, ParseDisplayName, StringField, EnumField, DateField, ParsePreferences, MemberError, FirstOf;
    NameError(members);
    TextFieldError(members, "city");
    TextFieldError(members, "region");
    TextFieldError(members, "country");
    EnumFieldError(members);
    DateFieldError(members);
    PreferencesFieldError(members);
    FirstOfEight(members);
  }

  lemma FirstOfEight(members: map<string, Json>)
    ensures FirstOf(members, CHECK_ORDER) ==
            if MemberError(members, "display_name").Some? then MemberError(members, "display_name")
            else if MemberError(members, "city").Some? then MemberError(members, "city")
            else if MemberError(members, "region").Some? then MemberError(members, "region")
            else if MemberError(members, "country").Some? then MemberError(members, "country")
            else if MemberError(members, "gender").Some? then MemberError(members, "gender")
            else if MemberError(members, "date_of_birth").Some? then MemberError(members, "date_of_birth")
            else if MemberError(members, "category").Some? then MemberError(members, "category")
            else MemberError(members, "preferences")
  {
    hide MemberError;
    var o := CHECK_ORDER;
    assert o[1..][0] == o[1] && o[2..][0] == o[2] && o[3..][0] == o[3] && o[4..][0] == o[4];
    assert o[1..][1..] == o[2..] && o[2..][1..] == o[3..] && o[3..][1..] == o[4..] && o[4..][1..] == o[5..];
    assert o[5..] == ["date_of_birth", "category", "preferences"];
    FirstOfThree(members);
    assert FirstOf(members, o[4..]) == if MemberError(members, o[4]).Some? then MemberError(members, o[4]) else FirstOf(members, o[5..]);
    assert FirstOf(members, o[3..]) == if MemberError(members, o[3]).Some? then MemberError(members, o[3]) else FirstOf(members, o[4..]);
    assert FirstOf(members, o[2..]) == if MemberError(members, o[2]).Some? then MemberError(members, o[2]) else FirstOf(members, o[3..]);
    assert FirstOf(members, o[1..]) == if MemberError(members, o[1]).Some? then MemberError(members, o[1]) else FirstOf(members, o[2..]);
  }

  lemma FirstOfThree(members: map<string, Json>)
    ensures FirstOf(members, ["date_of_birth", "category", "preferences"]) ==
            if MemberError(members, "date_of_birth").Some? then MemberError(members, "date_of_birth")
            else if MemberError(members, "category").Some? then MemberError(members, "category")
            else MemberError(members, "preferences")
  {
    hide MemberError;
    assert ["date_of_birth", "category", "preferences"][1..] == ["category", "preferences"];
    assert ["category", "preferences"][1..] == ["preferences"] && ["preferences"][1..] == [];
    assert FirstOf(members, ["preferences"]) == MemberError(members, "preferences");
  }

  /** Without a profile a request that parses is answered that there is none. */
  lemma NoProfileExact(iso: Iso, table: map<Uid, Row>, id: Uid, members: map<string, Json>, now: int)
    ensures PatchResult(iso, table, id, members, now) == Err(NoProfile) <==> id !in table && Acceptable(members)
  {
    ParseExact(members);
    hide ParsePatch, Acceptable, ApplyLocationRules;
  }

  // ---- What is shown ----

  /** The response shows every member of the resource, null where it has none; of the
      preferences it shows the two the API knows; and the stamp is the row's. */
  lemma ResponseExact(iso: Iso, id: Uid, row: Row)
    requires RowValid(iso, row)
    ensures var resp := ToProfileResponse(id, row);
            var shown := EchoMembers(resp);
            && resp.userId == id && resp.updatedAt == row.updatedAt
            && shown.Keys == MEMBERS
            && (forall name <- MEMBERS - {"preferences"} ::
                  shown[name] == if name in View(row) then View(row)[name] else JNull)
            && shown["preferences"] == JObject(map key | key in row.preferences && key in {"court_side", "handedness"} :: row.preferences[key])
  {
    var shown := EchoMembers(ToProfileResponse(id, row));
    EchoLookup(ToProfileResponse(id, row));
    hide EchoMembers, RowValid, View;
    forall name | name in MEMBERS - {"preferences"}
      ensures shown[name] == if name in View(row) then View(row)[name] else JNull
    {
      MemberShown(id, row, name);
    }
    PreferencesShown(id, row) by { ValidPreferences(iso, row); }
  }

  lemma ValidPreferences(iso: Iso, row: Row)
    requires RowValid(iso, row)
    ensures PreferenceOneOf(row.preferences, "court_side", COURT_SIDES)
    ensures PreferenceOneOf(row.preferences, "handedness", HANDEDNESSES)
  {
  }

  lemma MemberShown(id: Uid, row: Row, name: string)
    requires name in MEMBERS && name != "preferences"
    ensures name in EchoMembers(ToProfileResponse(id, row))
    ensures EchoMembers(ToProfileResponse(id, row))[name] == if name in View(row) then View(row)[name] else JNull
  {
    EchoLookup(ToProfileResponse(id, row));
    hide EchoMembers, FormatDate;
    assert name in View(row) <==> Shown(row, name).Some?;
    hide View;
  }

  lemma PreferencesShown(id: Uid, row: Row)
    requires PreferenceOneOf(row.preferences, "court_side", COURT_SIDES)
    requires PreferenceOneOf(row.preferences, "handedness", HANDEDNESSES)
    ensures "preferences" in EchoMembers(ToProfileResponse(id, row))
    ensures EchoMembers(ToProfileResponse(id, row))["preferences"]
            == JObject(map key | key in row.preferences && key in {"court_side", "handedness"} :: row.preferences[key])
  {
    EchoLookup(ToProfileResponse(id, row));
    hide EchoMembers, FormatDate;
    assert "court_side"[0] != "handedness"[0];
    var prefs := OmitEmpty("court_side", TextMember(row.preferences, "court_side"))
                 + OmitEmpty("handedness", TextMember(row.preferences, "handedness"));
    assert prefs == map key | key in row.preferences && key in {"court_side", "handedness"} :: row.preferences[key];
  }
}
