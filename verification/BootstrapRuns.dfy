/** The bootstrap of the first admin: what it achieves, what a broken one leaves behind,
    and why only it can lead to an admin. */
module BootstrapRuns {
  import opened Wrappers
  import opened Accounts
  import opened Sessions
  import opened LoginRuns
  import opened PatRuns
  import ProfileStore

  // ---- A bootstrap run to its end ----

  /** The state after the four round trips of bootstrap i. */
  ghost function Bootstrapped(hash: string -> string, s: System, i: nat, admin: Uid, placeholder: string,
                              patId: PatId, salt: string, now: int): System {
    Next(hash, Next(hash, WithAdmin(hash, s, i, admin, placeholder), Of(i, SavePat(patId, salt))), Of(i, EnsureProfile(now)))
  }

  /** The state after its first two. */
  ghost function WithAdmin(hash: string -> string, s: System, i: nat, admin: Uid, placeholder: string): System {
    Next(hash, Next(hash, s, Of(i, CountUsers)), Of(i, UpsertUser(admin, placeholder)))
  }

  function FirstAdmin(x: Session, placeholder: string): User
    requires x.Bootstrap?
  {
    User(x.email, x.name, Admin, PatOnly, placeholder)
  }

  lemma EmptyUpsert(users: Users, u: User, freshId: Uid)
    requires users == map[]
    ensures UpsertRow(users, u, freshId) == Ok(Upserted(map[freshId := u], freshId))
  {
  }

  /** No users, nothing at all. */
  lemma EmptyDb(hash: string -> string, db: Db)
    requires DbOk(hash, db) && db.users == map[]
    ensures db == EMPTY
  {
    if db.tokens != [] {
      FirstTokenHasUser(hash, db);
    }
    assert db.profiles.Keys == {} && db.made.Keys == {} && db.pats.Keys == {};
    hide Unique;
  }

  lemma FirstTokenHasUser(hash: string -> string, db: Db)
    requires DbOk(hash, db) && db.tokens != []
    ensures db.users != map[]
  {
    assert TokenOk(db, db.tokens[0]);
  }

  lemma FirstTwo(hash: string -> string, s: System, i: nat, admin: Uid, placeholder: string)
    requires i < |s.sessions| && s.sessions[i].Bootstrap? && s.sessions[i].boot.Requested?
    ensures var x := s.sessions[i];
            var u := FirstAdmin(x, placeholder);
            WithAdmin(hash, s, i, admin, placeholder) ==
            if s.db.users == map[] then
              System(s.db.(users := map[admin := u]), s.sessions[i := x.(boot := HasAdmin(Account(admin, u)))])
            else System(s.db, s.sessions[i := x.(boot := NotNeeded)])
  {
    hide Next, UpsertRow;
    StepEffect(hash, s, i, CountUsers);
    var m := Next(hash, s, Of(i, CountUsers));
    StepEffect(hash, m, i, UpsertUser(admin, placeholder));
    if s.db.users == map[] {
      EmptyUpsert(s.db.users, FirstAdmin(s.sessions[i], placeholder), admin);
    }
  }

  /** Main result: run from any reachable state, a bootstrap, first or repeated, gives the
      system its admin, with a profile and a key that resolves to it, exactly when
      there is no account yet; once there is one, it changes nothing. */
  lemma BootstrapRetryExact(hash: string -> string, s: System, i: nat, admin: Uid, placeholder: string,
                            patId: PatId, salt: string, now: int)
    requires Reachable(hash, s)
    requires i < |s.sessions| && s.sessions[i].Bootstrap? && s.sessions[i].boot.Requested?
    ensures var x := s.sessions[i];
            var t := Bootstrapped(hash, s, i, admin, placeholder, patId, salt, now);
            if s.db.users == map[] then
              && t == System(Db(map[admin := FirstAdmin(x, placeholder)],
                                map[admin := ProfileStore.NewRow(x.name, now)],
                                map[patId := Pat(admin, hash(x.rawKey + salt), salt, None)],
                                map[patId := Grant(admin, x.rawKey, None)], []),
                             s.sessions[i := x.(boot := Finished(admin))])
              && (forall rows, time | Lists(t.db.pats, rows) :: ResolveIn(hash, t.db.users, rows, x.rawKey, time) == Ok(admin))
            else t == System(s.db, s.sessions[i := x.(boot := NotNeeded)])
  {
    ReachableOk(hash, s);
    hide Reachable, Next, WithAdmin;
    FirstTwo(hash, s, i, admin, placeholder);
    var b := WithAdmin(hash, s, i, admin, placeholder);
    StepEffect(hash, b, i, SavePat(patId, salt));
    var c := Next(hash, b, Of(i, SavePat(patId, salt)));
    StepEffect(hash, c, i, EnsureProfile(now));
    if s.db.users == map[] {
      EmptyDb(hash, s.db);
      var t := Next(hash, c, Of(i, EnsureProfile(now)));
      forall rows, time | Lists(t.db.pats, rows)
        ensures ResolveIn(hash, t.db.users, rows, s.sessions[i].rawKey, time) == Ok(admin)
      {
        OnlyKeyResolves(hash, t.db, patId, s.sessions[i].rawKey, salt, admin, rows, time);
      }
    }
  }

  lemma OnlyKeyResolves(hash: string -> string, db: Db, patId: PatId, rawKey: string, salt: string, admin: Uid,
                        rows: seq<Pat>, time: int)
    requires db.pats == map[patId := Pat(admin, hash(rawKey + salt), salt, None)] && admin in db.users
    requires Lists(db.pats, rows)
    ensures ResolveIn(hash, db.users, rows, rawKey, time) == Ok(admin)
  {
    hide Lists;
    ListsExact(db.pats, rows);
    assert |db.pats| == 1 && db.pats[patId] in rows;
    assert rows == [db.pats[patId]];
  }

  // ---- No admin without a bootstrap's PAT ----

  /** The step is the one that stores the PAT of a bootstrap. */
  predicate SavesNow(x: Session, step: Step) {
    step.SavePat? && x.Bootstrap? && x.boot.HasAdmin?
  }

  predicate Saves(s: System, a: Action) {
    a.Of? && a.i < |s.sessions| && SavesNow(s.sessions[a.i], a.step)
  }

  ghost predicate SavedIn(hash: string -> string, s: System, actions: seq<Action>)
    decreases |actions|
  {
    actions != [] && (Saves(s, actions[0]) || SavedIn(hash, Next(hash, s, actions[0]), actions[1..]))
  }

  /** Nobody can act as an admin: no PAT was ever made, no token carries the role, and
      who has it has neither login nor profile. */
  ghost predicate QuietDb(db: Db) {
    && db.made == map[] && db.pats == map[]
    && (forall t <- db.tokens :: t.role == Member)
    && (forall id <- db.users ::
          db.users[id].role == Admin ==> db.users[id].provider == PatOnly && id !in db.profiles)
  }

  /** Nor is any request about to change that. */
  predicate QuietSession(x: Session) {
    match x
    case Login(provider, _, _, _, phase) =>
      && provider != PatOnly
      && (phase.HasUser? ==> phase.account.row.role == Member)
      && (phase.HasProfile? ==> phase.account.row.role == Member)
    case Bootstrap(_, _, _, phase) => !phase.HasPat? && !phase.Finished?
    case PatLogin(_, phase) => !phase.Matched?
    case PatCreation(_, _, _, phase) => !phase.OwnerFound? && !phase.Created?
  }

  ghost predicate Quiet(s: System) {
    QuietDb(s.db) && forall x <- s.sessions :: QuietSession(x)
  }

  lemma AdvanceQuiet(hash: string -> string, db: Db, x: Session, step: Step)
    requires DbOk(hash, db) && SessionOk(db, x) && FreshStep(db, step)
    requires QuietDb(db) && QuietSession(x) && !SavesNow(x, step)
    ensures var (next, y) := Advance(hash, db, x, step); QuietDb(next) && QuietSession(y)
  {
    hide LoginStep, BootStep, ExchangeStep, CreationStep, DbOk, SessionOk, QuietDb, QuietSession;
    match x
    case Login(_, _, _, _, _) => LoginQuiet(hash, db, x, step);
    case Bootstrap(_, _, _, _) => BootQuiet(hash, db, x, step);
    case PatLogin(_, _) => ExchangeQuiet(hash, db, x, step);
    case PatCreation(_, _, _, _) => CreationQuiet(hash, db, x, step);
  }

  lemma LoginQuiet(hash: string -> string, db: Db, x: Session, step: Step)
    requires DbOk(hash, db) && SessionOk(db, x) && FreshStep(db, step) && QuietDb(db) && QuietSession(x) && x.Login?
    ensures var (next, y) := LoginStep(db, x, step); QuietDb(next) && QuietSession(y)
  {
    hide UpsertRow, Unique, PatsOk, TokenOk, EmailOwner, Granted;
    match (x.login, step)
    case (Exchanged, UpsertUser(freshId, _)) =>
      UpsertExact(db.users, User(x.email, x.name, Member, x.provider, x.providerId), freshId);
    case _ =>
  }

  lemma BootQuiet(hash: string -> string, db: Db, x: Session, step: Step)
    requires DbOk(hash, db) && FreshStep(db, step) && QuietDb(db) && QuietSession(x) && x.Bootstrap? && !SavesNow(x, step)
    ensures var (next, y) := BootStep(hash, db, x, step); QuietDb(next) && QuietSession(y)
  {
    hide UpsertRow, Unique, PatsOk, TokenOk;
    match (x.boot, step)
    case (NoUsersSeen, UpsertUser(freshId, placeholder)) =>
      UpsertExact(db.users, FirstAdmin(x, placeholder), freshId);
    case _ =>
  }

  lemma ExchangeQuiet(hash: string -> string, db: Db, x: Session, step: Step)
    requires QuietDb(db) && QuietSession(x) && x.PatLogin?
    ensures var (next, y) := ExchangeStep(hash, db, x, step); QuietDb(next) && QuietSession(y)
  {
    hide Lists;
    if step.ListPats? && Lists(db.pats, step.rows) {
      ListsExact(db.pats, step.rows);
      assert step.rows == [];
    }
  }

  lemma CreationQuiet(hash: string -> string, db: Db, x: Session, step: Step)
    requires QuietDb(db) && QuietSession(x) && x.PatCreation?
    ensures var (next, y) := CreationStep(hash, db, x, step); QuietDb(next) && QuietSession(y)
  {
  }

  lemma ServeQuiet(hash: string -> string, s: System, a: Action)
    requires DbOk(hash, s.db) && QuietDb(s.db) && !a.Of?
    ensures QuietDb(Serve(s.db, a))
    ensures Serve(s.db, a).users == s.db.users
  {
    hide Unique, PatsOk;
    if a.RefreshToken? && a.caller < |s.db.tokens| {
      assert TokenOk(s.db, s.db.tokens[a.caller]);
    }
  }

  lemma NextQuiet(hash: string -> string, s: System, a: Action)
    requires Inv(hash, s) && Fresh(s, a) && Quiet(s) && !Saves(s, a)
    ensures Quiet(Next(hash, s, a))
  {
    hide DbOk, SessionOk, QuietDb, QuietSession, SavesNow, Advance, Serve, FreshStep;
    if a.Of? {
      if a.i < |s.sessions| {
        AdvanceQuiet(hash, s.db, s.sessions[a.i], a.step);
      }
    } else {
      ServeQuiet(hash, s, a);
    }
  }

  lemma {:induction false} RunQuiet(hash: string -> string, s: System, actions: seq<Action>)
    requires Inv(hash, s) && Legal(hash, s, actions) && Quiet(s) && !SavedIn(hash, s, actions)
    ensures Quiet(RunAll(hash, s, actions))
    decreases |actions|
  {
    hide Inv, Next, Fresh, Quiet, Saves;
    if actions != [] {
      NextOk(hash, s, actions[0]);
      NextQuiet(hash, s, actions[0]);
      RunQuiet(hash, Next(hash, s, actions[0]), actions[1..]);
    }
  }

  lemma InitialQuiet(s: System)
    requires Initial(s)
    ensures Quiet(s)
  {
    forall x | x in s.sessions ensures QuietSession(x) {
      assert NotBegun(x);
    }
  }

  lemma SaveMakes(hash: string -> string, s: System, a: Action)
    requires Saves(s, a)
    ensures a.step.patId in Next(hash, s, a).db.made
  {
    StepEffect(hash, s, a.i, a.step);
    hide Next;
  }

  lemma {:induction false} MadeStaysMade(hash: string -> string, s: System, actions: seq<Action>)
    requires Legal(hash, s, actions) && (s.db.made != map[] || SavedIn(hash, s, actions))
    ensures RunAll(hash, s, actions).db.made != map[]
    decreases |actions|
  {
    hide Next, Saves, Fresh;
    if actions != [] {
      if s.db.made != map[] {
        var id :| id in s.db.made;
        NextPat(hash, s, actions[0], id);
      } else if Saves(s, actions[0]) {
        SaveMakes(hash, s, actions[0]);
      }
      MadeStaysMade(hash, Next(hash, s, actions[0]), actions[1..]);
    }
  }

  /** Main result: everything an admin can do starts with a bootstrap's PAT. In any run
      from empty tables a PAT exists only if some bootstrap stored its own; until
      then no token has the admin role, and no account that can log in has it. */
  lemma AdminStartsWithBootstrap(hash: string -> string, s: System, actions: seq<Action>)
    requires Initial(s) && Legal(hash, s, actions)
    ensures var t := RunAll(hash, s, actions);
            && (t.db.made != map[] <==> SavedIn(hash, s, actions))
            && (t.db.made == map[] ==> Quiet(t))
  {
    hide RunAll, Legal, Quiet, SavedIn;
    InitialOk(hash, s);
    InitialQuiet(s);
    if SavedIn(hash, s, actions) {
      MadeStaysMade(hash, s, actions);
    } else {
      RunQuiet(hash, s, actions);
      QuietMakesNothing(RunAll(hash, s, actions));
    }
  }

  lemma QuietMakesNothing(s: System)
    requires Quiet(s)
    ensures s.db.made == map[]
  {
  }

  lemma ReachableQuiet(hash: string -> string, s: System)
    requires Reachable(hash, s) && s.db.made == map[]
    ensures Quiet(s) && Inv(hash, s)
  {
    hide Quiet, Legal, Initial, RunAll, Inv;
    ReachableOk(hash, s);
    var s0, actions :| Initial(s0) && Legal(hash, s0, actions) && s == RunAll(hash, s0, actions);
    AdminStartsWithBootstrap(hash, s0, actions);
  }

  // ---- Broken bootstraps ----

  /** A bootstrap that has not begun, or is over. */
  predicate Idle(x: Session) {
    x.Bootstrap? ==> x.boot.Requested? || x.boot.NotNeeded? || x.boot.GivenUp? || x.boot.Finished?
  }

  /** No bootstrap is under way. */
  predicate NoneUnderway(s: System) {
    forall x <- s.sessions :: Idle(x)
  }

  lemma NextIdle(hash: string -> string, s: System, a: Action)
    requires NoneUnderway(s) && s.db.users != map[]
    ensures NoneUnderway(Next(hash, s, a)) && !Saves(s, a)
  {
    if a.Of? && a.i < |s.sessions| {
      StepEffect(hash, s, a.i, a.step);
      AdvanceIdle(hash, s.db, s.sessions[a.i], a.step);
      assert Idle(s.sessions[a.i]);
      IdleSavesNothing(s.sessions[a.i], a.step);
    } else {
      OthersStay(hash, s, a);
    }
    hide Advance, Next, Idle, SavesNow;
    var t := Next(hash, s, a);
    forall x | x in t.sessions ensures Idle(x) {
      var k :| 0 <= k < |t.sessions| && t.sessions[k] == x;
      assert s.sessions[k] in s.sessions;
    }
  }

  lemma IdleSavesNothing(x: Session, step: Step)
    requires Idle(x)
    ensures !SavesNow(x, step)
  {
  }

  lemma AdvanceIdle(hash: string -> string, db: Db, x: Session, step: Step)
    requires Idle(x) && db.users != map[]
    ensures Idle(Advance(hash, db, x, step).1)
  {
    hide LoginStep, ExchangeStep, UpsertRow;
    if x.Login? {
      LoginStays(db, x, step);
    } else if x.PatLogin? {
      ExchangeStays(hash, db, x, step);
    }
  }

  lemma LoginStays(db: Db, x: Session, step: Step)
    requires x.Login?
    ensures LoginStep(db, x, step).1.Login?
  {
    hide UpsertRow, EmailOwner;
  }

  lemma ExchangeStays(hash: string -> string, db: Db, x: Session, step: Step)
    requires x.PatLogin?
    ensures ExchangeStep(hash, db, x, step).1.PatLogin?
  {
    hide OwnerIn, Lists;
  }

  /** Nothing a quiet system serves changes a role. */
  lemma QuietKeepsRoles(hash: string -> string, s: System, a: Action)
    requires Inv(hash, s) && Fresh(s, a) && Quiet(s)
    ensures forall id <- s.db.users ::
              id in Next(hash, s, a).db.users && Next(hash, s, a).db.users[id].role == s.db.users[id].role
  {
    NextOk(hash, s, a);
    hide Inv, Next, Fresh;
    assert Promoted(s, a) == None;
  }

  /** Main result, the lock-out: once an account exists, no bootstrap is under way and no
      PAT was ever made, then whatever requests follow, there never is a PAT, a token
      with the admin role, or a change of any role. */
  lemma {:induction false} LockedOut(hash: string -> string, s: System, later: seq<Action>)
    requires Inv(hash, s) && Legal(hash, s, later) && Quiet(s) && s.db.users != map[] && NoneUnderway(s)
    ensures var t := RunAll(hash, s, later);
            && t.db.made == map[] && t.db.pats == map[]
            && (forall token <- t.db.tokens :: token.role == Member)
            && (forall id <- s.db.users :: id in t.db.users && t.db.users[id].role == s.db.users[id].role)
            && NoneUnderway(t)
    decreases |later|
  {
    if later != [] {
      NextOk(hash, s, later[0]);
      NextIdle(hash, s, later[0]);
      NextQuiet(hash, s, later[0]);
      QuietKeepsRoles(hash, s, later[0]);
      var m := Next(hash, s, later[0]);
      hide Inv, Next, Fresh, Quiet, NoneUnderway;
      var id :| id in s.db.users;
      assert id in m.db.users;
      LockedOut(hash, m, later[1..]);
    }
  }

  /** Some continuation stores a PAT, and with it an admin can act. */
  ghost predicate CanRecover(hash: string -> string, s: System) {
    exists later :: Legal(hash, s, later) && RunAll(hash, s, later).db.made != map[]
  }

  /** Main result: as long as no PAT was made and with no bootstrap under way, a system
      with a bootstrap still to be requested can get its first PAT exactly when it has
      no account: the row of an unfinished bootstrap, or of anybody who logged in
      first, rules it out for ever. */
  lemma RecoverExact(hash: string -> string, s: System, i: nat)
    requires Reachable(hash, s) && s.db.made == map[] && NoneUnderway(s)
    requires i < |s.sessions| && s.sessions[i].Bootstrap? && s.sessions[i].boot.Requested?
    ensures CanRecover(hash, s) <==> s.db.users == map[]
  {
    hide Quiet, Inv, RunAll, Legal, NoneUnderway;
    ReachableQuiet(hash, s);
    if s.db.users == map[] {
      FourSteps(hash, s, i);
    } else {
      forall later | Legal(hash, s, later) ensures RunAll(hash, s, later).db.made == map[] {
        LockedOut(hash, s, later);
      }
    }
  }

  /** The bootstrap itself is such a continuation. */
  lemma FourSteps(hash: string -> string, s: System, i: nat)
    requires s.db.users == map[] && s.db.made == map[]
    requires i < |s.sessions| && s.sessions[i].Bootstrap? && s.sessions[i].boot.Requested?
    ensures CanRecover(hash, s)
  {
    FirstTwo(hash, s, i, "", "");
    var later := [Of(i, CountUsers), Of(i, UpsertUser("", "")), Of(i, SavePat("", ""))];
    StepEffect(hash, s, i, CountUsers);
    hide Next, FirstAdmin;
    var a := Next(hash, s, later[0]);
    var b := Next(hash, a, later[1]);
    assert b == WithAdmin(hash, s, i, "", "");
    SaveMakes(hash, b, later[2]);
    var c := Next(hash, b, later[2]);
    assert later[1..] == [later[1], later[2]] && later[1..][1..] == [later[2]] && [later[2]][1..] == [];
    assert Fresh(b, later[2]) && Fresh(a, later[1]) && Fresh(s, later[0]);
    hide Fresh;
    assert RunAll(hash, c, []) == c && Legal(hash, c, []);
    assert Legal(hash, b, [later[2]]) && RunAll(hash, b, [later[2]]) == c;
    assert Legal(hash, a, later[1..]) && RunAll(hash, a, later[1..]) == c;
    assert Legal(hash, s, later) && RunAll(hash, s, later) == c;
  }

  /** An account with provider "pat" and no profile when no bootstrap is under way. */
  ghost predicate Stranded(s: System, admin: Uid) {
    admin in s.db.users && s.db.users[admin].provider == PatOnly && admin !in s.db.profiles && NoneUnderway(s)
  }

  /** Such an account never gets a profile: no login reaches it, and no later bootstrap
      resumes it. */
  lemma {:induction false} StrandedForever(hash: string -> string, s: System, actions: seq<Action>, admin: Uid)
    requires Inv(hash, s) && Legal(hash, s, actions) && Stranded(s, admin)
    ensures Stranded(RunAll(hash, s, actions), admin)
    decreases |actions|
  {
    if actions != [] {
      NextOk(hash, s, actions[0]);
      NextStrands(hash, s, actions[0], admin);
      hide Inv, Stranded, Next, Fresh;
      StrandedForever(hash, Next(hash, s, actions[0]), actions[1..], admin);
    }
  }

  lemma NextStrands(hash: string -> string, s: System, a: Action, admin: Uid)
    requires Inv(hash, s) && Fresh(s, a) && Stranded(s, admin)
    ensures Stranded(Next(hash, s, a), admin)
  {
    NextOk(hash, s, a);
    NextIdle(hash, s, a);
    NextProfile(hash, s, a, admin);
    hide Next, DbOk, Fresh;
    assert a.Of? && a.i < |s.sessions| ==> SessionOk(s.db, s.sessions[a.i]) && Idle(s.sessions[a.i]);
  }

  /** The failing input: a bootstrap that breaks right after the admin's row. Whatever
      follows, retries included, the admin has no profile and no PAT, and nobody ever
      holds an admin token. */
  lemma PartialBootstrapIsFinal(hash: string -> string, s: System, i: nat, admin: Uid, placeholder: string, later: seq<Action>)
    requires Initial(s) && i < |s.sessions| && s.sessions[i].Bootstrap?
    requires Legal(hash, Next(hash, WithAdmin(hash, s, i, admin, placeholder), Of(i, Break)), later)
    ensures var t := RunAll(hash, Next(hash, WithAdmin(hash, s, i, admin, placeholder), Of(i, Break)), later);
            && admin in t.db.users && t.db.users[admin].role == Admin && admin !in t.db.profiles
            && t.db.made == map[] && t.db.pats == map[]
            && (forall token <- t.db.tokens :: token.role == Member)
  {
    assert NotBegun(s.sessions[i]);
    hide Next, WithAdmin, RunAll, Legal;
    FirstTwo(hash, s, i, admin, placeholder);
    var b := WithAdmin(hash, s, i, admin, placeholder);
    StepEffect(hash, b, i, Break);
    var c := Next(hash, b, Of(i, Break));
    var u := FirstAdmin(s.sessions[i], placeholder);
    assert c == System(EMPTY.(users := map[admin := u]), s.sessions[i := s.sessions[i].(boot := GivenUp)]);
    BrokenState(hash, s, c, i, admin, u);
    LockedOut(hash, c, later);
    StrandedForever(hash, c, later, admin);
  }

  lemma BrokenState(hash: string -> string, s: System, c: System, i: nat, admin: Uid, u: User)
    requires Initial(s) && i < |s.sessions| && s.sessions[i].Bootstrap?
    requires u.role == Admin && u.provider == PatOnly
    requires c == System(EMPTY.(users := map[admin := u]), s.sessions[i := s.sessions[i].(boot := GivenUp)])
    ensures Inv(hash, c) && Quiet(c) && NoneUnderway(c) && Stranded(c, admin) && c.db.users != map[]
  {
    forall x | x in c.sessions ensures SessionOk(c.db, x) && QuietSession(x) && Idle(x) {
      assert x == s.sessions[i].(boot := GivenUp) || NotBegun(x);
    }
    assert admin in c.db.users;
  }

  /** A PAT carries no promise of a profile: one round trip further, the bootstrap leaves
      a working key and no profile, and whoever presents the key gets an admin token. */
  lemma PatTokenWithoutProfile(hash: string -> string, s: System, i: nat, j: nat, admin: Uid, placeholder: string,
                               patId: PatId, salt: string, now: int)
    requires Initial(s) && i < |s.sessions| && s.sessions[i].Bootstrap?
    requires j < |s.sessions| && s.sessions[j].PatLogin? && s.sessions[j].raw == s.sessions[i].rawKey
    ensures var broken := Next(hash, Next(hash, WithAdmin(hash, s, i, admin, placeholder), Of(i, SavePat(patId, salt))), Of(i, Break));
            var row := Pat(admin, hash(s.sessions[i].rawKey + salt), salt, None);
            var t := Next(hash, Next(hash, broken, Of(j, ListPats([row], now))), Of(j, LoadUser));
            t.db.tokens == [Token(admin, Admin, PatExchange)] && t.db.profiles == map[]
  {
    hide Next, WithAdmin;
    KeyWithoutProfile(hash, s, i, admin, placeholder, patId, salt);
    var broken := Next(hash, Next(hash, WithAdmin(hash, s, i, admin, placeholder), Of(i, SavePat(patId, salt))), Of(i, Break));
    assert NotBegun(s.sessions[j]);
    Exchanges(hash, broken, j, patId, admin, salt, now);
  }

  /** What such a bootstrap leaves behind. */
  lemma KeyWithoutProfile(hash: string -> string, s: System, i: nat, admin: Uid, placeholder: string, patId: PatId, salt: string)
    requires Initial(s) && i < |s.sessions| && s.sessions[i].Bootstrap?
    ensures var broken := Next(hash, Next(hash, WithAdmin(hash, s, i, admin, placeholder), Of(i, SavePat(patId, salt))), Of(i, Break));
            var x := s.sessions[i];
            broken == System(Db(map[admin := FirstAdmin(x, placeholder)], map[],
                                map[patId := Pat(admin, hash(x.rawKey + salt), salt, None)],
                                map[patId := Grant(admin, x.rawKey, None)], []),
                             s.sessions[i := x.(boot := GivenUp)])
  {
    assert NotBegun(s.sessions[i]);
    hide Next, WithAdmin;
    FirstTwo(hash, s, i, admin, placeholder);
    var b := WithAdmin(hash, s, i, admin, placeholder);
    StepEffect(hash, b, i, SavePat(patId, salt));
    StepEffect(hash, Next(hash, b, Of(i, SavePat(patId, salt))), i, Break);
  }

  /** Presenting the key of the only PAT there is. */
  lemma Exchanges(hash: string -> string, s: System, j: nat, patId: PatId, admin: Uid, salt: string, now: int)
    requires j < |s.sessions| && s.sessions[j].PatLogin? && s.sessions[j].exchange.Presented?
    requires s.db.pats == map[patId := Pat(admin, hash(s.sessions[j].raw + salt), salt, None)] && admin in s.db.users
    ensures var row := s.db.pats[patId];
            var t := Next(hash, Next(hash, s, Of(j, ListPats([row], now))), Of(j, LoadUser));
            t.db == Issued(s.db, Token(admin, s.db.users[admin].role, PatExchange))
  {
    var row := s.db.pats[patId];
    OneRow(patId, row);
    assert OwnerIn(hash, [row], s.sessions[j].raw, now) == Ok(admin);
    hide Next, Lists, OwnerIn;
    StepEffect(hash, s, j, ListPats([row], now));
    StepEffect(hash, Next(hash, s, Of(j, ListPats([row], now))), j, LoadUser);
  }

  lemma OneRow(patId: PatId, row: Pat)
    ensures Lists(map[patId := row], [row])
  {
    assert ListsBy(map[patId := row], [patId], [row]);
  }
}
