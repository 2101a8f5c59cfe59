/** The profile table and the objects that write it: the statement builder, the
    repository and the manager. */
module ProfileStore {
  import opened Wrappers
  import opened JsonMergePatch
  import opened Location
  import opened Profile
  import opened PatchParser
  import opened LocationRules
  import opened UpdateSql

  /** Collects SET clauses and their arguments. */
  class UpdateBuilder {
    var clauses: seq<Clause>
    var args: seq<SqlValue>

    ghost function Contents(): Builder
      reads this
    {
      Builder(clauses, args)
    }

    constructor ()
      ensures Contents() == Builder([], [])
    {
      clauses, args := [], [];
    }

    /** Appends v to the arguments and returns its placeholder. */
    method Arg(v: SqlValue) returns (placeholder: Expr)
      modifies this`args
      ensures args == old(args) + [v]
      ensures placeholder == Param(|args|)
    {
      args := args + [v];
      placeholder := Param(|args|);
    }

    method Set(column: ColumnId, v: SqlValue)
      modifies this
      ensures Contents() == WithSet(old(Contents()), column, v)
    {
      var placeholder := Arg(v);
      clauses := clauses + [Clause(column, placeholder)];
    }

    method SetField(column: ColumnId, f: Field<SqlValue>)
      modifies this
      ensures Contents() == WithField(old(Contents()), column, f)
    {
      match f
      case Unchanged =>
      case Cleared => Set(column, Null);
      case SetTo(v) => Set(column, v);
    }

    method MergePreferences(p: PreferencesPatch)
      modifies this
      ensures Contents() == WithPreferences(old(Contents()), p)
    {
      if p.IsEmpty() {
        return;
      }
      var additions, removals := map[], [];
      additions, removals := MergePreference(additions, removals, "court_side", p.courtSide);
      additions, removals := MergePreference(additions, removals, "handedness", p.handedness);
      assert additions == Additions(p.courtSide, "court_side") + Additions(p.handedness, "handedness");
      assert removals == Removals(p.courtSide, "court_side") + Removals(p.handedness, "handedness");
      var clear := Arg(Bool(p.clear));
      var add := Arg(JsonB(additions));
      var remove := Arg(TextArray(removals));
      clauses := clauses + [
        Clause(Preferences, Minus(Concat(Case(clear, EmptyObject, Column(Preferences)), add), remove))];
      assert args == old(args) + [Bool(p.clear), JsonB(additions), TextArray(removals)];
    }
  }

  /** Records one preference member: among the additions when it has a value, among
      the removals when it is cleared. */
  method MergePreference(additions: map<string, Json>, removals: seq<string>, key: string, f: Field<string>)
    returns (additions': map<string, Json>, removals': seq<string>)
    ensures additions' == additions + Additions(f, key)
    ensures removals' == removals + Removals(f, key)
  {
    additions', removals' := additions, removals;
    match f
    case Unchanged =>
    case Cleared => removals' := removals + [key];
    case SetTo(v) => additions' := additions[key := JString(v)];
  }

  datatype StoreError = NotFound | Conflict | Internal

  /** What a single atomic write of the patch does to the table. */
  function WriteResult(table: map<Uid, Row>, id: Uid, patch: ProfilePatch, now: int): Result<Row, StoreError> {
    if id !in table then Err(NotFound)
    else if patch.IsEmpty() then Ok(table[id])
    else
      var row := Apply(patch, table[id], now);
      match ViolatedCheck(row)
      case None => Ok(row)
      case Some(name) => Err(if name == REGION_COUNTRY_CHECK then Conflict else Internal)
  }

  /** A write of an empty patch only reads; any other fails as a conflict exactly when
      the region/country CHECK alone stands against the patched row. */
  lemma WriteResultExact(table: map<Uid, Row>, id: Uid, patch: ProfilePatch, now: int)
    ensures var out := WriteResult(table, id, patch, now);
            && (out == Err(NotFound) <==> id !in table)
            && (id in table && patch == NO_CHANGE ==> out == Ok(table[id]))
            && (id in table && patch != NO_CHANGE ==>
                  var next := Apply(patch, table[id], now);
                  var enums := OneOf(next.gender, ["male", "female"])
                               && OneOf(next.category, ["first", "second", "third", "fourth", "fifth"]);
                  out == if !enums then Err(Internal)
                         else if RegionCountryCheck(next.country, next.region) then Ok(next)
                         else Err(Conflict))
  {
    assert patch.IsEmpty() <==> patch == NO_CHANGE;
  }

  datatype ServiceError =
    | BadRequest(reason: ParseError)
    | InvalidLocation(error: LocationError)
    | NoProfile
    | ChangedConcurrently
    | Failed

  function Reported(e: StoreError): ServiceError {
    match e
    case NotFound => NoProfile
    case Conflict => ChangedConcurrently
    case Internal => Failed
  }

  /** Read, location rules, write, with nothing in between. */
  function UpdateResult(iso: Iso, table: map<Uid, Row>, id: Uid, patch: ProfilePatch, now: int): Result<Row, ServiceError> {
    if id !in table then Err(NoProfile)
    else if patch.IsEmpty() then Ok(table[id])
    else
      match ApplyLocationRules(iso, table[id], patch)
      case Err(e) => Err(InvalidLocation(e))
      case Ok(ruled) =>
        match WriteResult(table, id, ruled, now)
        case Err(e) => Err(Reported(e))
        case Ok(row) => Ok(row)
  }

  /** A whole PATCH request served alone. */
  ghost function PatchResult(iso: Iso, table: map<Uid, Row>, id: Uid, members: map<string, Json>, now: int)
    : Result<Row, ServiceError>
  {
    match ParsePatch(members)
    case Err(e) => Err(BadRequest(e))
    case Ok(patch) => UpdateResult(iso, table, id, patch, now)
  }

  /** The row a first login creates. */
  function NewRow(displayName: string, now: int): Row {
    Row(displayName, None, None, None, None, None, None, map[], now, now)
  }

  /** All a new profile shows is its display name and empty preferences. */
  lemma NewProfile(displayName: string, now: int)
    ensures var row := NewRow(displayName, now);
            && View(row) == map["display_name" := JString(displayName), "preferences" := JObject(map[])]
            && row.createdAt == now && row.updatedAt == now
  {
    var row := NewRow(displayName, now);
    assert forall name <- MEMBERS :: Shown(row, name).Some? <==> name in {"display_name", "preferences"};
  }

  class ProfileRepository {
    var table: map<Uid, Row>

    constructor ()
      ensures table == map[]
    {
      table := map[];
    }

    /** INSERT ... ON CONFLICT (user_id) DO NOTHING. */
    method EnsureExists(id: Uid, displayName: string, now: int)
      modifies this
      ensures table == if id in old(table) then old(table) else old(table)[id := NewRow(displayName, now)]
      ensures id !in old(table) ==>
                && View(table[id]) == map["display_name" := JString(displayName), "preferences" := JObject(map[])]
                && table[id].createdAt == now && table[id].updatedAt == now
    {
      if id !in table {
        NewProfile(displayName, now);
        table := table[id := NewRow(displayName, now)];
      }
    }

    method FindByUserID(id: Uid) returns (r: Result<Row, StoreError>)
      ensures r == if id in table then Ok(table[id]) else Err(NotFound)
    {
      r := if id in table then Ok(table[id]) else Err(NotFound);
    }

    /** The database's part: one atomic statement. */
    method Execute(stmt: Statement, args: seq<SqlValue>) returns (r: Result<Row, UpdateError>)
      modifies this
      ensures match Run(old(table), stmt, args)
              case Ok((id, row)) => r == Ok(row) && table == old(table)[id := row]
              case Err(e) => r == Err(e) && table == old(table)
    {
      var out := Run(table, stmt, args);
      match out
      case Ok((id, row)) =>
        table := table[id := row];
        r := Ok(row);
      case Err(e) =>
        r := Err(e);
    }

    /** Builds and executes the UPDATE of a patch; a refused write changes nothing. */
    method Update(id: Uid, patch: ProfilePatch, now: int) returns (r: Result<Row, StoreError>)
      modifies this
      ensures r == WriteResult(old(table), id, patch, now)
      ensures table == if r.Ok? then old(table)[id := r.value] else old(table)
    {
      hide Run, WithField, WithSet, WithPreferences, Apply, ViolatedCheck;
      if patch.IsEmpty() {
        r := FindByUserID(id);
        return;
      }
      var b := new UpdateBuilder();
      NameFieldIsSet(Builder([], []), patch.displayName);
      if patch.displayName.Some? {
        b.Set(DisplayName, Text(patch.displayName.value));
      }
      b.SetField(City, TextField(patch.city));
      b.SetField(Region, TextField(patch.region));
      b.SetField(Country, TextField(patch.country));
      b.SetField(Gender, TextField(patch.gender));
      b.SetField(DateOfBirth, DayField(patch.dateOfBirth));
      b.SetField(Category, TextField(patch.category));
      b.MergePreferences(patch.preferences);
      b.Set(UpdatedAt, Stamp(now));
      assert b.Contents() == Compile(patch, now);
      RunIsApply(table, id, patch, now);
      var args := b.args + [Uuid(id)];
      var out := Execute(Statement.Update(b.clauses, |args|), args);
      match out
      case Ok(row) => r := Ok(row);
      case Err(NoRows) => r := Err(NotFound);
      case Err(CheckViolation(name)) => r := Err(if name == REGION_COUNTRY_CHECK then Conflict else Internal);
      case Err(SqlError) => r := Err(Internal);
    }
  }

  class ProfileManager {
    const iso: Iso
    const profiles: ProfileRepository

    constructor (iso: Iso, profiles: ProfileRepository)
      ensures this.iso == iso && this.profiles == profiles
    {
      this.iso, this.profiles := iso, profiles;
    }

    method Update(id: Uid, patch: ProfilePatch, now: int) returns (r: Result<Row, ServiceError>)
      modifies profiles
      ensures r == UpdateResult(iso, old(profiles.table), id, patch, now)
      ensures profiles.table == if r.Ok? then old(profiles.table)[id := r.value] else old(profiles.table)
    {
      var stored := profiles.FindByUserID(id);
      if stored.Err? {
        return Err(Reported(stored.error));
      }
      if patch.IsEmpty() {
        return Ok(stored.value);
      }
      var ruled := ApplyLocationRules(iso, stored.value, patch);
      if ruled.Err? {
        return Err(InvalidLocation(ruled.error));
      }
      var out := profiles.Update(id, ruled.value, now);
      r := if out.Ok? then Ok(out.value) else Err(Reported(out.error));
    }

    /** The request handler, from decoded members to the answer. */
    method Patch(id: Uid, members: map<string, Json>, now: int) returns (r: Result<Row, ServiceError>)
      modifies profiles
      ensures r == PatchResult(iso, old(profiles.table), id, members, now)
      ensures profiles.table == if r.Ok? then old(profiles.table)[id := r.value] else old(profiles.table)
    {
      var patch := ParseProfilePatch(members);
      if patch.Err? {
        return Err(BadRequest(patch.error));
      }
      r := Update(id, patch.value, now);
    }
  }
}
