/** Compilation of a patch to an UPDATE statement, and what PostgreSQL makes of it. */
module UpdateSql {
  import opened Wrappers
  import opened JsonMergePatch
  import opened Dates
  import opened Location
  import opened Profile

  type Uid = string

  /** The columns of user_profiles. */
  datatype ColumnId =
    | UserId
    | DisplayName
    | City
    | Region
    | Country
    | Gender
    | DateOfBirth
    | Category
    | Preferences
    | CreatedAt
    | UpdatedAt

  // ---- The target language ----

  datatype SqlValue =
    | Null
    | Text(text: string)
    | Day(date: Date)
    | Stamp(time: int)
    | Bool(b: bool)
    | JsonB(fields: map<string, Json>)
    | TextArray(items: seq<string>)
    | Uuid(id: Uid)

  /** Right-hand sides of SET: $n, a column of the old row, '{}'::jsonb,
      CASE WHEN c THEN t ELSE e END, jsonb || jsonb, and jsonb - text[]. */
  datatype Expr =
    | Param(n: nat)
    | Column(name: ColumnId)
    | EmptyObject
    | Case(cond: Expr, thn: Expr, els: Expr)
    | Concat(left: Expr, right: Expr)
    | Minus(from: Expr, keys: Expr)

  datatype Clause = Clause(column: ColumnId, rhs: Expr)

  /** UPDATE user_profiles SET sets WHERE user_id = $whereParam RETURNING ... */
  datatype Statement = Update(sets: seq<Clause>, whereParam: nat)

  type Cells = map<ColumnId, SqlValue>

  /** None is an SQL error: no such parameter or column, or a type mismatch. */
  function Eval(e: Expr, row: Cells, args: seq<SqlValue>): Option<SqlValue> {
    match e
    case Param(n) => if 1 <= n <= |args| then Some(args[n - 1]) else None
    case Column(name) => if name in row then Some(row[name]) else None
    case EmptyObject => Some(JsonB(map[]))
    case Case(c, t, f) =>
      var cond := Eval(c, row, args);
      if cond.None? || !cond.value.Bool? then None
      else if cond.value.b then Eval(t, row, args)
      else Eval(f, row, args)
    case Concat(l, r) =>
      var a, b := Eval(l, row, args), Eval(r, row, args);
      if a.Some? && b.Some? && a.value.JsonB? && b.value.JsonB? then
        Some(JsonB(a.value.fields + b.value.fields))
      else None
    case Minus(l, r) =>
      var a, b := Eval(l, row, args), Eval(r, row, args);
      if a.Some? && b.Some? && a.value.JsonB? && b.value.TextArray? then
        Some(JsonB(a.value.fields - set k | k in b.value.items))
      else None
  }

  /** All right-hand sides see the old row; assigning a column twice is an error. */
  function EvalSets(sets: seq<Clause>, row: Cells, args: seq<SqlValue>): Option<Cells> {
    if sets == [] then Some(map[])
    else
      var front := EvalSets(sets[..|sets| - 1], row, args);
      var last := sets[|sets| - 1];
      var v := Eval(last.rhs, row, args);
      if front.None? || v.None? || last.column in front.value || last.column !in row then None
      else Some(front.value[last.column := v.value])
  }

  /** The placeholders of an expression, from left to right. */
  function Params(e: Expr): seq<nat> {
    match e
    case Param(n) => [n]
    case Column(_) => []
    case EmptyObject => []
    case Case(c, t, f) => Params(c) + Params(t) + Params(f)
    case Concat(l, r) => Params(l) + Params(r)
    case Minus(l, r) => Params(l) + Params(r)
  }

  function ClauseParams(sets: seq<Clause>): seq<nat> {
    if sets == [] then [] else ClauseParams(sets[..|sets| - 1]) + Params(sets[|sets| - 1].rhs)
  }

  // ---- Rows as cells ----

  function TextCell(v: Option<string>): SqlValue {
    if v.Some? then Text(v.value) else Null
  }

  function DayCell(v: Option<Date>): SqlValue {
    if v.Some? then Day(v.value) else Null
  }

  function Cell(id: Uid, row: Row, column: ColumnId): SqlValue {
    match column
    case UserId => Uuid(id)
    case DisplayName => Text(row.displayName)
    case City => TextCell(row.city)
    case Region => TextCell(row.region)
    case Country => TextCell(row.country)
    case Gender => TextCell(row.gender)
    case DateOfBirth => DayCell(row.dateOfBirth)
    case Category => TextCell(row.category)
    case Preferences => JsonB(row.preferences)
    case CreatedAt => Stamp(row.createdAt)
    case UpdatedAt => Stamp(row.updatedAt)
  }

  function ToCells(id: Uid, row: Row): Cells {
    map column: ColumnId | true :: Cell(id, row, column)
  }

  predicate IsText(v: SqlValue) {
    v.Text? || v.Null?
  }

  function TextOf(v: SqlValue): Option<string> {
    if v.Text? then Some(v.text) else None
  }

  /** Column types and NOT NULL constraints. */
  predicate WellTyped(c: Cells) {
    && (forall column: ColumnId :: column in c)
    && c[UserId].Uuid? && c[DisplayName].Text?
    && IsText(c[City]) && IsText(c[Region]) && IsText(c[Country])
    && IsText(c[Gender]) && IsText(c[Category])
    && (c[DateOfBirth].Day? || c[DateOfBirth].Null?)
    && c[Preferences].JsonB? && c[CreatedAt].Stamp? && c[UpdatedAt].Stamp?
  }

  /** Reads a returned row into a profile. */
  function ScanProfile(c: Cells): Row
    requires WellTyped(c)
  {
    Row(c[DisplayName].text, TextOf(c[City]), TextOf(c[Region]), TextOf(c[Country]), TextOf(c[Gender]),
        if c[DateOfBirth].Day? then Some(c[DateOfBirth].date) else None,
        TextOf(c[Category]), c[Preferences].fields, c[CreatedAt].time, c[UpdatedAt].time)
  }

  lemma ScanOfCells(id: Uid, row: Row)
    ensures WellTyped(ToCells(id, row)) && ScanProfile(ToCells(id, row)) == row
  {
  }

  // ---- Running a statement ----

  datatype UpdateError = NoRows | SqlError | CheckViolation(constraint: string)

  const REGION_COUNTRY_CHECK := "user_profiles_region_country_check"

  /** The first violated CHECK, in the alphabetical order PostgreSQL tests them. */
  function ViolatedCheck(row: Row): Option<string> {
    if !OneOf(row.category, CATEGORIES) then Some("user_profiles_category_check")
    else if !OneOf(row.gender, GENDERS) then Some("user_profiles_gender_check")
    else if !RegionCountryCheck(row.country, row.region) then Some(REGION_COUNTRY_CHECK)
    else None
  }

  /** One atomic UPDATE ... RETURNING: the new row, or why there is none. */
  function Run(table: map<Uid, Row>, stmt: Statement, args: seq<SqlValue>): Result<(Uid, Row), UpdateError> {
    var who := Eval(Param(stmt.whereParam), map[], args);
    if who.None? || !who.value.Uuid? then Err(SqlError)
    else
      var id := who.value.id;
      if id !in table then Err(NoRows)
      else
        var before := ToCells(id, table[id]);
        var edits := EvalSets(stmt.sets, before, args);
        if edits.None? || !WellTyped(before + edits.value) || UserId in edits.value then Err(SqlError)
        else
          var row := ScanProfile(before + edits.value);
          var violated := ViolatedCheck(row);
          if violated.Some? then Err(CheckViolation(violated.value)) else Ok((id, row))
  }

  // ---- The compiler, as a function ----

  datatype Builder = Builder(clauses: seq<Clause>, args: seq<SqlValue>)

  function WithSet(b: Builder, column: ColumnId, v: SqlValue): Builder {
    Builder(b.clauses + [Clause(column, Param(|b.args| + 1))], b.args + [v])
  }

  function WithField(b: Builder, column: ColumnId, f: Field<SqlValue>): Builder {
    match f
    case Unchanged => b
    case Cleared => WithSet(b, column, Null)
    case SetTo(v) => WithSet(b, column, v)
  }

  function Additions(f: Field<string>, key: string): map<string, Json> {
    if f.SetTo? then map[key := JString(f.value)] else map[]
  }

  function Removals(f: Field<string>, key: string): seq<string> {
    if f.Cleared? then [key] else []
  }

  function MergeExpr(first: nat): Expr {
    Minus(Concat(Case(Param(first), EmptyObject, Column(Preferences)), Param(first + 1)), Param(first + 2))
  }

  function WithPreferences(b: Builder, p: PreferencesPatch): Builder {
    if p.IsEmpty() then b
    else
      Builder(b.clauses + [Clause(Preferences, MergeExpr(|b.args| + 1))],
              b.args + [Bool(p.clear),
                        JsonB(Additions(p.courtSide, "court_side") + Additions(p.handedness, "handedness")),
                        TextArray(Removals(p.courtSide, "court_side") + Removals(p.handedness, "handedness"))])
  }

  function TextField(f: Field<string>): Field<SqlValue> {
    match f
    case Unchanged => Unchanged
    case Cleared => Cleared
    case SetTo(v) => SetTo(Text(v))
  }

  function DayField(f: Field<Date>): Field<SqlValue> {
    match f
    case Unchanged => Unchanged
    case Cleared => Cleared
    case SetTo(v) => SetTo(Day(v))
  }

  function NameField(name: Option<string>): Field<SqlValue> {
    if name.Some? then SetTo(Text(name.value)) else Unchanged
  }

  lemma NameFieldIsSet(b: Builder, name: Option<string>)
    ensures WithField(b, DisplayName, NameField(name))
            == if name.Some? then WithSet(b, DisplayName, Text(name.value)) else b
  {
  }

  function Compile(patch: ProfilePatch, now: int): Builder {
    var b := WithField(Builder([], []), DisplayName, NameField(patch.displayName));
    var b := WithField(b, City, TextField(patch.city));
    var b := WithField(b, Region, TextField(patch.region));
    var b := WithField(b, Country, TextField(patch.country));
    var b := WithField(b, Gender, TextField(patch.gender));
    var b := WithField(b, DateOfBirth, DayField(patch.dateOfBirth));
    var b := WithField(b, Category, TextField(patch.category));
    var b := WithPreferences(b, patch.preferences);
    WithSet(b, UpdatedAt, Stamp(now))
  }

  // ---- The compiler preserves meaning ----

  /** ps is first, first + 1, first + 2, ... */
  predicate CountsFrom(ps: seq<nat>, first: nat) {
    forall i | 0 <= i < |ps| :: ps[i] == first + i
  }

  /** b assigns distinct columns among `columns`, uses each placeholder once and in
      order, and turns the row `from` into `to`. */
  ghost predicate Sound(b: Builder, columns: set<ColumnId>, from: Cells, to: Cells) {
    var edits := EvalSets(b.clauses, from, b.args);
    && edits.Some?
    && edits.value.Keys <= columns
    && from + edits.value == to
    && |ClauseParams(b.clauses)| == |b.args|
    && CountsFrom(ClauseParams(b.clauses), 1)
  }

  lemma {:induction false} EvalStable(e: Expr, row: Cells, args: seq<SqlValue>, more: seq<SqlValue>)
    requires Eval(e, row, args).Some?
    ensures Eval(e, row, args + more) == Eval(e, row, args)
  {
    match e
    case Param(_) =>
    case Column(_) =>
    case EmptyObject =>
    case Case(c, t, f) =>
      EvalStable(c, row, args, more);
      if Eval(c, row, args).value.b { EvalStable(t, row, args, more); } else { EvalStable(f, row, args, more); }
    case Concat(l, r) =>
      EvalStable(l, row, args, more);
      EvalStable(r, row, args, more);
    case Minus(l, r) =>
      EvalStable(l, row, args, more);
      EvalStable(r, row, args, more);
  }

  lemma {:induction false} EvalSetsStable(sets: seq<Clause>, row: Cells, args: seq<SqlValue>, more: seq<SqlValue>)
    requires EvalSets(sets, row, args).Some?
    ensures EvalSets(sets, row, args + more) == EvalSets(sets, row, args)
  {
    if sets != [] {
      EvalSetsStable(sets[..|sets| - 1], row, args, more);
      EvalStable(sets[|sets| - 1].rhs, row, args, more);
    }
  }

  lemma SetsSnoc(sets: seq<Clause>, row: Cells, args: seq<SqlValue>, clause: Clause, more: seq<SqlValue>, v: SqlValue)
    requires EvalSets(sets, row, args).Some?
    requires clause.column in row && clause.column !in EvalSets(sets, row, args).value
    requires Eval(clause.rhs, row, args + more) == Some(v)
    ensures EvalSets(sets + [clause], row, args + more) == Some(EvalSets(sets, row, args).value[clause.column := v])
    ensures ClauseParams(sets + [clause]) == ClauseParams(sets) + Params(clause.rhs)
  {
    var next := sets + [clause];
    assert next[..|next| - 1] == sets && next[|next| - 1] == clause;
    EvalSetsStable(sets, row, args, more);
  }

  /** Adding a clause over fresh placeholders extends the meaning by its column. */
  lemma ClauseSound(b: Builder, columns: set<ColumnId>, from: Cells, to: Cells,
                    clause: Clause, more: seq<SqlValue>, v: SqlValue)
    requires Sound(b, columns, from, to)
    requires clause.column !in columns && clause.column in from
    requires Eval(clause.rhs, from, b.args + more) == Some(v)
    requires |Params(clause.rhs)| == |more| && CountsFrom(Params(clause.rhs), |b.args| + 1)
    ensures Sound(Builder(b.clauses + [clause], b.args + more), columns + {clause.column}, from, to[clause.column := v])
  {
    hide EvalSets, Eval, ClauseParams, Params;
    SetsSnoc(b.clauses, from, b.args, clause, more, v);
    var edits := EvalSets(b.clauses, from, b.args).value;
    assert from + edits[clause.column := v] == (from + edits)[clause.column := v];
  }

  lemma SetSound(b: Builder, columns: set<ColumnId>, from: Cells, to: Cells, column: ColumnId, v: SqlValue)
    requires Sound(b, columns, from, to)
    requires column !in columns && column in from
    ensures Sound(WithSet(b, column, v), columns + {column}, from, to[column := v])
  {
    ClauseSound(b, columns, from, to, Clause(column, Param(|b.args| + 1)), [v], v);
  }

  function FieldCell(f: Field<SqlValue>, stored: SqlValue): SqlValue {
    match f
    case Unchanged => stored
    case Cleared => Null
    case SetTo(v) => v
  }

  lemma FieldSound(b: Builder, columns: set<ColumnId>, from: Cells, to: Cells, column: ColumnId, f: Field<SqlValue>)
    requires Sound(b, columns, from, to)
    requires column !in columns && column in from && column in to
    ensures Sound(WithField(b, column, f), columns + {column}, from, to[column := FieldCell(f, to[column])])
  {
    if f.Unchanged? {
      assert to[column := to[column]] == to;
    } else {
      SetSound(b, columns, from, to, column, FieldCell(f, to[column]));
    }
  }

  /** The one-expression JSONB merge does what merging member by member does. */
  lemma MergeIsMemberwise(p: PreferencesPatch, stored: map<string, Json>)
    ensures ((if p.clear then map[] else stored)
             + (Additions(p.courtSide, "court_side") + Additions(p.handedness, "handedness")))
            - (set k | k in Removals(p.courtSide, "court_side") + Removals(p.handedness, "handedness"))
            == ApplyPreferences(p, stored)
  {
    assert "court_side"[0] != "handedness"[0];
    var cs, h := Removals(p.courtSide, "court_side"), Removals(p.handedness, "handedness");
    assert forall k :: k in cs + h <==> k in cs || k in h;
  }

  lemma MergeParams(n: nat)
    ensures Params(MergeExpr(n)) == [n, n + 1, n + 2]
  {
    var base := Case(Param(n), EmptyObject, Column(Preferences));
    assert Params(base) == [n];
    assert Params(Concat(base, Param(n + 1))) == [n, n + 1];
  }

  /** The expression over its three arguments, which stand after n others. */
  lemma MergeEval(p: PreferencesPatch, from: Cells, args: seq<SqlValue>, n: nat, stored: map<string, Json>)
    requires Preferences in from && from[Preferences] == JsonB(stored)
    requires |args| == n + 3 && args[n] == Bool(p.clear)
    requires args[n + 1] == JsonB(Additions(p.courtSide, "court_side") + Additions(p.handedness, "handedness"))
    requires args[n + 2] == TextArray(Removals(p.courtSide, "court_side") + Removals(p.handedness, "handedness"))
    ensures Eval(MergeExpr(n + 1), from, args) == Some(JsonB(ApplyPreferences(p, stored)))
  {
    MergeIsMemberwise(p, stored);
    hide ApplyPreferences, Additions, Removals;
    var base := Case(Param(n + 1), EmptyObject, Column(Preferences));
    assert Eval(base, from, args) == Some(JsonB(if p.clear then map[] else stored));
    assert Eval(Concat(base, Param(n + 2)), from, args)
        == Some(JsonB((if p.clear then map[] else stored) + args[n + 1].fields));
    assert Eval(Param(n + 3), from, args) == Some(args[n + 2]);
  }

  lemma PreferencesSound(b: Builder, columns: set<ColumnId>, from: Cells, to: Cells, p: PreferencesPatch)
    requires Sound(b, columns, from, to)
    requires Preferences !in columns && Preferences in from && from[Preferences].JsonB?
    ensures Sound(WithPreferences(b, p), columns + {Preferences}, from,
                  to[Preferences := JsonB(ApplyPreferences(p, from[Preferences].fields))])
  {
    var stored := from[Preferences].fields;
    if p.IsEmpty() {
      NothingMerged(b, columns, from, to, p);
    } else {
      hide ApplyPreferences, Sound, Additions, Removals, Eval, Params, MergeExpr;
      var n := |b.args|;
      var more := WithPreferences(b, p).args[n..];
      assert b.args + more == WithPreferences(b, p).args && |more| == 3;
      MergeParams(n + 1);
      MergeEval(p, from, b.args + more, n, stored);
      ClauseSound(b, columns, from, to, Clause(Preferences, MergeExpr(n + 1)), more, JsonB(ApplyPreferences(p, stored)));
    }
  }

  lemma NothingMerged(b: Builder, columns: set<ColumnId>, from: Cells, to: Cells, p: PreferencesPatch)
    requires Sound(b, columns, from, to) && p.IsEmpty()
    requires Preferences !in columns && Preferences in from && from[Preferences].JsonB?
    ensures Sound(b, columns + {Preferences}, from, to[Preferences := JsonB(ApplyPreferences(p, from[Preferences].fields))])
  {
    var next := JsonB(ApplyPreferences(p, from[Preferences].fields));
    assert next == from[Preferences];
    assert to[Preferences] == from[Preferences];
    assert to[Preferences := next] == to;
  }

  lemma CellsWith(id: Uid, a: Row, b: Row, column: ColumnId)
    requires forall c: ColumnId :: c != column ==> Cell(id, a, c) == Cell(id, b, c)
    ensures ToCells(id, a)[column := Cell(id, b, column)] == ToCells(id, b)
    ensures forall c: ColumnId :: c in ToCells(id, a)
  {
    hide Cell;
  }

  lemma AllColumns(id: Uid, row: Row)
    ensures forall c: ColumnId :: c in ToCells(id, row)
    ensures ToCells(id, row)[Preferences] == JsonB(row.preferences)
  {
  }

  /** One step of the compiler moves the target from row a to row b. */
  lemma StepSound(b: Builder, columns: set<ColumnId>, from: Cells, id: Uid, a: Row, r: Row, column: ColumnId, f: Field<SqlValue>)
    requires Sound(b, columns, from, ToCells(id, a))
    requires column !in columns && column in from
    requires Cell(id, r, column) == FieldCell(f, Cell(id, a, column))
    requires forall c: ColumnId :: c != column ==> Cell(id, a, c) == Cell(id, r, c)
    ensures Sound(WithField(b, column, f), columns + {column}, from, ToCells(id, r))
  {
    hide Sound, WithField, Cell;
    FieldSound(b, columns, from, ToCells(id, a), column, f);
    CellsWith(id, a, r, column);
  }

  lemma NothingSound(from: Cells)
    ensures Sound(Builder([], []), {}, from, from)
  {
    assert from + map[] == from;
  }

  /** The whole compiler: the clauses turn the stored cells into the cells of the
      directly patched row, and placeholders 1..n each occur once, in order. */
  lemma CompileSound(patch: ProfilePatch, id: Uid, row: Row, now: int)
    ensures Sound(Compile(patch, now),
                  {DisplayName, City, Region, Country, Gender, DateOfBirth, Category, Preferences, UpdatedAt},
                  ToCells(id, row), ToCells(id, Apply(patch, row, now)))
  {
    hide Sound, WithField, WithPreferences, WithSet;
    var from := ToCells(id, row);
    var b0 := Builder([], []);
    NothingSound(from);
    var b3, c3, r3 := CompileSound3(patch, id, row, from, b0);
    var b6, c6, r6 := CompileSound6(patch, id, row, from, b3, c3, r3);
    var c9 := CompileSound9(patch, id, row, from, b6, c6, r6, now);
    assert c9 == {DisplayName, City, Region, Country, Gender, DateOfBirth, Category, Preferences, UpdatedAt};
  }

  lemma CompileSound3(patch: ProfilePatch, id: Uid, row: Row, from: Cells, b0: Builder)
    returns (b3: Builder, c3: set<ColumnId>, r3: Row)
    requires from == ToCells(id, row) && Sound(b0, {}, from, from)
    ensures b3 == WithField(WithField(WithField(b0, DisplayName, NameField(patch.displayName)),
                                      City, TextField(patch.city)), Region, TextField(patch.region))
    ensures c3 == {DisplayName, City, Region}
    ensures r3 == row.(displayName := if patch.displayName.Some? then patch.displayName.value else row.displayName,
                       city := ApplyField(patch.city, row.city), region := ApplyField(patch.region, row.region))
    ensures Sound(b3, c3, from, ToCells(id, r3))
  {
    hide Sound, WithField, ToCells;
    AllColumns(id, row);
    var r1 := row.(displayName := if patch.displayName.Some? then patch.displayName.value else row.displayName);
    StepSound(b0, {}, from, id, row, r1, DisplayName, NameField(patch.displayName));
    var b1, c1 := WithField(b0, DisplayName, NameField(patch.displayName)), {} + {DisplayName};
    var r2 := r1.(city := ApplyField(patch.city, row.city));
    StepSound(b1, c1, from, id, r1, r2, City, TextField(patch.city));
    var b2, c2 := WithField(b1, City, TextField(patch.city)), c1 + {City};
    r3 := r2.(region := ApplyField(patch.region, row.region));
    StepSound(b2, c2, from, id, r2, r3, Region, TextField(patch.region));
    b3, c3 := WithField(b2, Region, TextField(patch.region)), c2 + {Region};
  }

  lemma CompileSound6(patch: ProfilePatch, id: Uid, row: Row, from: Cells, b3: Builder, c3: set<ColumnId>, r3: Row)
    returns (b6: Builder, c6: set<ColumnId>, r6: Row)
    requires from == ToCells(id, row) && Sound(b3, c3, from, ToCells(id, r3))
    requires c3 == {DisplayName, City, Region}
    requires r3.country == row.country && r3.gender == row.gender && r3.dateOfBirth == row.dateOfBirth
    ensures b6 == WithField(WithField(WithField(b3, Country, TextField(patch.country)),
                                      Gender, TextField(patch.gender)), DateOfBirth, DayField(patch.dateOfBirth))
    ensures c6 == {DisplayName, City, Region, Country, Gender, DateOfBirth}
    ensures r6 == r3.(country := ApplyField(patch.country, row.country), gender := ApplyField(patch.gender, row.gender),
                      dateOfBirth := ApplyField(patch.dateOfBirth, row.dateOfBirth))
    ensures Sound(b6, c6, from, ToCells(id, r6))
  {
    hide Sound, WithField, ToCells;
    AllColumns(id, row);
    var r4 := r3.(country := ApplyField(patch.country, row.country));
    StepSound(b3, c3, from, id, r3, r4, Country, TextField(patch.country));
    var b4, c4 := WithField(b3, Country, TextField(patch.country)), c3 + {Country};
    var r5 := r4.(gender := ApplyField(patch.gender, row.gender));
    StepSound(b4, c4, from, id, r4, r5, Gender, TextField(patch.gender));
    var b5, c5 := WithField(b4, Gender, TextField(patch.gender)), c4 + {Gender};
    r6 := r5.(dateOfBirth := ApplyField(patch.dateOfBirth, row.dateOfBirth));
    StepSound(b5, c5, from, id, r5, r6, DateOfBirth, DayField(patch.dateOfBirth));
    b6, c6 := WithField(b5, DateOfBirth, DayField(patch.dateOfBirth)), c5 + {DateOfBirth};
  }

  lemma CompileSound9(patch: ProfilePatch, id: Uid, row: Row, from: Cells, b6: Builder, c6: set<ColumnId>, r6: Row, now: int)
    returns (c9: set<ColumnId>)
    requires from == ToCells(id, row) && Sound(b6, c6, from, ToCells(id, r6))
    requires c6 == {DisplayName, City, Region, Country, Gender, DateOfBirth}
    requires r6.category == row.category && r6.preferences == row.preferences
    ensures var b8 := WithPreferences(WithField(b6, Category, TextField(patch.category)), patch.preferences);
            var r9 := r6.(category := ApplyField(patch.category, row.category),
                          preferences := ApplyPreferences(patch.preferences, row.preferences), updatedAt := now);
            Sound(WithSet(b8, UpdatedAt, Stamp(now)), c9, from, ToCells(id, r9))
    ensures c9 == c6 + {Category} + {Preferences} + {UpdatedAt}
  {
    hide Sound, WithField, WithPreferences, WithSet, ToCells, ApplyPreferences;
    AllColumns(id, row);
    var r7 := r6.(category := ApplyField(patch.category, row.category));
    StepSound(b6, c6, from, id, r6, r7, Category, TextField(patch.category));
    var b7, c7 := WithField(b6, Category, TextField(patch.category)), c6 + {Category};
    var r8 := r7.(preferences := ApplyPreferences(patch.preferences, row.preferences));
    PreferencesSound(b7, c7, from, ToCells(id, r7), patch.preferences);
    CellsWith(id, r7, r8, Preferences);
    var b8, c8 := WithPreferences(b7, patch.preferences), c7 + {Preferences};
    SetSound(b8, c8, from, ToCells(id, r8), UpdatedAt, Stamp(now));
    CellsWith(id, r8, r8.(updatedAt := now), UpdatedAt);
    c9 := c8 + {UpdatedAt};
  }

  /** The statement of a compiled patch: the user id is the last argument and the
      WHERE clause refers to it. */
  function UpdateStatement(b: Builder): Statement {
    Update(b.clauses, |b.args| + 1)
  }

  /** Every placeholder of the statement, in reading order. */
  function StatementParams(stmt: Statement): seq<nat> {
    ClauseParams(stmt.sets) + [stmt.whereParam]
  }

  /** For every patch the statement uses placeholders 1..n in order, once each; n is
      the number of arguments and the last one is the user id in WHERE. */
  lemma PlaceholdersExact(patch: ProfilePatch, id: Uid, now: int)
    ensures var b := Compile(patch, now);
            var params := StatementParams(UpdateStatement(b));
            && |params| == |b.args + [Uuid(id)]|
            && CountsFrom(params, 1)
            && (b.args + [Uuid(id)])[UpdateStatement(b).whereParam - 1] == Uuid(id)
  {
    var anyRow := Row("", None, None, None, None, None, None, map[], 0, 0);
    CompileSound(patch, id, anyRow, now);
    hide Compile, ClauseParams, EvalSets;
  }

  /** No column is assigned twice. */
  lemma ColumnsDistinct(patch: ProfilePatch, now: int)
    ensures var sets := Compile(patch, now).clauses;
            forall i, j | 0 <= i < j < |sets| :: sets[i].column != sets[j].column
  {
    var anyRow := Row("", None, None, None, None, None, None, map[], 0, 0);
    CompileSound(patch, "", anyRow, now);
    hide Compile;
    var b := Compile(patch, now);
    AssignedOnce(b.clauses, ToCells("", anyRow), b.args);
  }

  lemma {:induction false} AssignedOnce(sets: seq<Clause>, row: Cells, args: seq<SqlValue>)
    requires EvalSets(sets, row, args).Some?
    ensures forall i, j | 0 <= i < j < |sets| :: sets[i].column != sets[j].column
    ensures EvalSets(sets, row, args).value.Keys == set i | 0 <= i < |sets| :: sets[i].column
  {
    if sets != [] {
      AssignedOnce(sets[..|sets| - 1], row, args);
    }
  }

  /** Executing a compiled patch is applying it: the statement never fails with an
      SQL error, reaches the user's row only, leaves the key and the creation stamp
      alone, and a CHECK decides on the directly patched row. */
  lemma RunIsApply(table: map<Uid, Row>, id: Uid, patch: ProfilePatch, now: int)
    ensures var b := Compile(patch, now);
            var out := Run(table, UpdateStatement(b), b.args + [Uuid(id)]);
            out == if id !in table then Err(NoRows)
                   else
                     var row := Apply(patch, table[id], now);
                     if ViolatedCheck(row).Some? then Err(CheckViolation(ViolatedCheck(row).value)) else Ok((id, row))
  {
    hide Compile, EvalSets, ViolatedCheck, ScanProfile, WellTyped, ToCells, ClauseParams;
    var b := Compile(patch, now);
    var args := b.args + [Uuid(id)];
    assert Eval(Param(|b.args| + 1), map[], args) == Some(Uuid(id));
    if id in table {
      CompileSound(patch, id, table[id], now);
      EvalSetsStable(b.clauses, ToCells(id, table[id]), b.args, [Uuid(id)]);
      ScanOfCells(id, Apply(patch, table[id], now));
    }
  }
}
