/** Logins, bootstraps and the operations on PATs as one system. A request is a
    session: a sequence of database round trips, each of which commits on its own
    and may be the last. */
module Sessions {
  import opened Wrappers
  import opened Accounts
  import Profile
  import ProfileStore

  type Row = Profile.Row

  datatype LoginPhase =
    | Exchanged                      // the provider vouched for the identity
    | Refused                        // the upsert found the email taken
    | Explained(disclosed: Option<Provider>)
    | HasUser(account: Account)      // user row committed, as the statement returned it
    | HasProfile(account: Account)   // profile row committed
    | SignedIn(id: Uid)
    | Broken                         // a step failed; nothing more happens

  datatype BootPhase =
    | Requested
    | NoUsersSeen
    | HasAdmin(account: Account)
    | HasPat(account: Account)
    | Finished(id: Uid)
    | NotNeeded
    | GivenUp

  datatype ExchangePhase =
    | Presented
    | Matched(user: Uid)             // the rows named the owner of the key
    | Accepted(user: Uid)
    | Rejected(error: PatError)
    | Dropped

  datatype CreationPhase =
    | Asked
    | OwnerFound                     // an admin asked, and the owner exists
    | Created
    | NoOwner
    | Forbidden
    | Abandoned

  datatype Session =
    | Login(provider: Provider, providerId: string, email: string, name: string, login: LoginPhase)
    | Bootstrap(email: string, name: string, rawKey: string, boot: BootPhase)
    | PatLogin(raw: string, exchange: ExchangePhase)
    | PatCreation(user: Uid, rawKey: string, expiresAt: Option<int>, creation: CreationPhase)

  datatype Via = OAuth | PatExchange | Refresh

  /** A JWT: who, with which role, and how it was obtained. */
  datatype Token = Token(user: Uid, role: Role, via: Via)

  /** The tables and the tokens issued so far. `made` remembers what each PAT that was
      ever stored was made for. */
  datatype Db = Db(
    users: Users,
    profiles: map<Uid, Row>,
    pats: map<PatId, Pat>,
    made: map<PatId, Grant>,
    tokens: seq<Token>)

  datatype System = System(db: Db, sessions: seq<Session>)

  /** One round trip of a session. `caller` is the token a request presents. */
  datatype Step =
    | UpsertUser(freshId: Uid, placeholder: string)
    | Explain
    | EnsureProfile(now: int)
    | Sign
    | Break
    | CountUsers
    | SavePat(patId: PatId, salt: string)
    | ListPats(rows: seq<Pat>, now: int)
    | LoadUser
    | FindOwner(caller: nat)

  /** A step of session i, or a request that is a single statement. */
  datatype Action =
    | Of(i: nat, step: Step)
    | SetRole(caller: nat, user: Uid, role: Role)
    | RevokePat(caller: nat, patId: PatId)
    | EditProfile(caller: nat, user: Uid, row: Row)
    | RefreshToken(caller: nat)

  // ---- Effects ----

  predicate AdminToken(db: Db, caller: nat) {
    caller < |db.tokens| && db.tokens[caller].role == Admin
  }

  /** INSERT ... ON CONFLICT DO NOTHING. */
  function Ensured(db: Db, a: Account, now: int): Db {
    if a.id in db.profiles then db else db.(profiles := db.profiles[a.id := ProfileStore.NewRow(a.row.name, now)])
  }

  function Saved(hash: string -> string, db: Db, patId: PatId, salt: string, g: Grant): Db {
    db.(pats := db.pats[patId := Pat(g.user, hash(g.rawKey + salt), salt, g.expiresAt)], made := db.made[patId := g])
  }

  function Issued(db: Db, t: Token): Db {
    db.(tokens := db.tokens + [t])
  }

  ghost function EmailOwner(users: Users, email: string): Option<User> {
    if id: Uid :| id in users && users[id].email == email then Some(users[id]) else None
  }

  /** The redirect and device logins after the code exchange. The token is signed from
      the account as the upsert returned it. */
  ghost function LoginStep(db: Db, x: Session, step: Step): (Db, Session)
    requires x.Login?
  {
    match (x.login, step)
    case (Exchanged, UpsertUser(freshId, _)) =>
      (match UpsertRow(db.users, User(x.email, x.name, Member, x.provider, x.providerId), freshId)
       case Ok(out) => (db.(users := out.users), x.(login := HasUser(Account(out.id, out.users[out.id]))))
       case Err(_) => (db, x.(login := Refused)))
    case (Refused, Explain) => (db, x.(login := Explained(Disclosed(EmailOwner(db.users, x.email)))))
    case (HasUser(account), EnsureProfile(now)) => (Ensured(db, account, now), x.(login := HasProfile(account)))
    case (HasProfile(account), Sign) =>
      (Issued(db, Token(account.id, account.row.role, OAuth)), x.(login := SignedIn(account.id)))
    case (SignedIn(_), Break) => (db, x)
    case (_, Break) => (db, x.(login := Broken))
    case _ => (db, x)
  }

  ghost function BootStep(hash: string -> string, db: Db, x: Session, step: Step): (Db, Session)
    requires x.Bootstrap?
  {
    match (x.boot, step)
    case (Requested, CountUsers) => (db, x.(boot := if db.users == map[] then NoUsersSeen else NotNeeded))
    case (NoUsersSeen, UpsertUser(freshId, placeholder)) =>
      (match UpsertRow(db.users, User(x.email, x.name, Admin, PatOnly, placeholder), freshId)
       case Ok(out) => (db.(users := out.users), x.(boot := HasAdmin(Account(out.id, out.users[out.id]))))
       case Err(_) => (db, x.(boot := GivenUp)))
    case (HasAdmin(account), SavePat(patId, salt)) =>
      (Saved(hash, db, patId, salt, Grant(account.id, x.rawKey, None)), x.(boot := HasPat(account)))
    case (HasPat(account), EnsureProfile(now)) => (Ensured(db, account, now), x.(boot := Finished(account.id)))
    case (Finished(_), Break) => (db, x)
    case (_, Break) => (db, x.(boot := GivenUp))
    case _ => (db, x)
  }

  /** Exchanging a PAT for a token: all PATs are read, then the owner. */
  ghost function ExchangeStep(hash: string -> string, db: Db, x: Session, step: Step): (Db, Session)
    requires x.PatLogin?
  {
    match (x.exchange, step)
    case (Presented, ListPats(rows, now)) =>
      if !Lists(db.pats, rows) then (db, x)
      else
        (match OwnerIn(hash, rows, x.raw, now)
         case Ok(owner) => (db, x.(exchange := Matched(owner)))
         case Err(e) => (db, x.(exchange := Rejected(e))))
    case (Matched(owner), LoadUser) =>
      if owner in db.users then
        (Issued(db, Token(owner, db.users[owner].role, PatExchange)), x.(exchange := Accepted(owner)))
      else (db, x.(exchange := Rejected(OwnerMissing)))
    case (Accepted(_), Break) => (db, x)
    case (_, Break) => (db, x.(exchange := Dropped))
    case _ => (db, x)
  }

  /** Only the holder of an admin token can have a PAT made. */
  function CreationStep(hash: string -> string, db: Db, x: Session, step: Step): (Db, Session)
    requires x.PatCreation?
  {
    match (x.creation, step)
    case (Asked, FindOwner(caller)) =>
      (db, x.(creation := if !AdminToken(db, caller) then Forbidden
                          else if x.user in db.users then OwnerFound
                          else NoOwner))
    case (OwnerFound, SavePat(patId, salt)) =>
      (Saved(hash, db, patId, salt, Grant(x.user, x.rawKey, x.expiresAt)), x.(creation := Created))
    case (Created, Break) => (db, x)
    case (_, Break) => (db, x.(creation := Abandoned))
    case _ => (db, x)
  }

  ghost function Advance(hash: string -> string, db: Db, x: Session, step: Step): (Db, Session) {
    match x
    case Login(_, _, _, _, _) => LoginStep(db, x, step)
    case Bootstrap(_, _, _, _) => BootStep(hash, db, x, step)
    case PatLogin(_, _) => ExchangeStep(hash, db, x, step)
    case PatCreation(_, _, _, _) => CreationStep(hash, db, x, step)
  }

  /** Requests that are one statement. Roles and revocations need an admin token, a
      profile edit its owner's. A refresh signs the user's present record. */
  function Serve(db: Db, a: Action): Db
    requires !a.Of?
  {
    match a
    case SetRole(caller, user, role) =>
      if AdminToken(db, caller) && user in db.users then
        db.(users := db.users[user := db.users[user].(role := role)])
      else db
    case RevokePat(caller, patId) => if AdminToken(db, caller) then db.(pats := db.pats - {patId}) else db
    case EditProfile(caller, user, row) =>
      if caller < |db.tokens| && db.tokens[caller].user == user && user in db.profiles then
        db.(profiles := db.profiles[user := row])
      else db
    case RefreshToken(caller) =>
      if caller < |db.tokens| && db.tokens[caller].user in db.users then
        var user := db.tokens[caller].user;
        Issued(db, Token(user, db.users[user].role, Refresh))
      else db
  }

  /** One committed step; a step that is not enabled changes nothing. */
  ghost function Next(hash: string -> string, s: System, a: Action): System {
    match a
    case Of(i, step) =>
      if i < |s.sessions| then
        var (db, x) := Advance(hash, s.db, s.sessions[i], step);
        System(db, s.sessions[i := x])
      else s
    case _ => s.(db := Serve(s.db, a))
  }

  /** Generated keys are new. */
  ghost predicate FreshStep(db: Db, step: Step) {
    match step
    case UpsertUser(freshId, placeholder) =>
      freshId !in db.users && (forall id <- db.users :: !HasKey(db.users[id], PatOnly, placeholder))
    case SavePat(patId, _) => patId !in db.made
    case _ => true
  }

  ghost predicate Fresh(s: System, a: Action) {
    a.Of? ==> FreshStep(s.db, a.step)
  }

  ghost predicate Legal(hash: string -> string, s: System, actions: seq<Action>)
    decreases |actions|
  {
    actions == [] || (Fresh(s, actions[0]) && Legal(hash, Next(hash, s, actions[0]), actions[1..]))
  }

  ghost function RunAll(hash: string -> string, s: System, actions: seq<Action>): System
    decreases |actions|
  {
    if actions == [] then s else RunAll(hash, Next(hash, s, actions[0]), actions[1..])
  }

  predicate NotBegun(x: Session) {
    match x
    case Login(provider, _, _, _, phase) => phase.Exchanged? && provider != PatOnly
    case Bootstrap(_, _, _, phase) => phase.Requested?
    case PatLogin(_, phase) => phase.Presented?
    case PatCreation(_, _, _, phase) => phase.Asked?
  }

  const EMPTY := Db(map[], map[], map[], map[], [])

  /** Empty tables and any number of sessions about to begin. */
  ghost predicate Initial(s: System) {
    s.db == EMPTY && forall x <- s.sessions :: NotBegun(x)
  }

  // ---- The invariant ----

  ghost predicate Granted(db: Db, user: Uid) {
    exists id :: id in db.made && db.made[id].user == user
  }

  /** A stored PAT holds the salted hash of the key it was made for. */
  ghost predicate PatsOk(hash: string -> string, db: Db) {
    && (forall id <- db.made :: db.made[id].user in db.users)
    && (forall id <- db.pats ::
          id in db.made &&
          var g := db.made[id];
          var salt := db.pats[id].salt;
          db.pats[id] == Pat(g.user, hash(g.rawKey + salt), salt, g.expiresAt))
  }

  /** Whoever has a token has an account; whoever logged in has a profile; and whoever
      has none was given a PAT. */
  ghost predicate TokenOk(db: Db, t: Token) {
    t.user in db.users && (t.user in db.profiles || (t.via != OAuth && Granted(db, t.user)))
  }

  ghost predicate DbOk(hash: string -> string, db: Db) {
    && Unique(db.users)
    && db.profiles.Keys <= db.users.Keys
    && PatsOk(hash, db)
    && (forall t <- db.tokens :: TokenOk(db, t))
  }

  ghost predicate IsAccount(db: Db, a: Account, provider: Provider, providerId: string) {
    a.id in db.users && HasKey(db.users[a.id], provider, providerId)
  }

  /** What a session knows is true of the tables. */
  ghost predicate SessionOk(db: Db, x: Session) {
    match x
    case Login(provider, providerId, _, _, phase) =>
      && provider != PatOnly
      && (match phase
          case HasUser(a) => IsAccount(db, a, provider, providerId)
          case HasProfile(a) => IsAccount(db, a, provider, providerId) && a.id in db.profiles
          case SignedIn(id) => id in db.users && HasKey(db.users[id], provider, providerId) && id in db.profiles
          case Explained(disclosed) => disclosed != Some(PatOnly)
          case _ => true)
    case Bootstrap(_, _, _, phase) =>
      (match phase
       case HasAdmin(a) => a.id in db.users && db.users[a.id].provider == PatOnly
       case HasPat(a) => a.id in db.users && db.users[a.id].provider == PatOnly
       case Finished(id) => id in db.profiles
       case _ => true)
    case PatLogin(_, phase) => phase.Matched? ==> phase.user in db.users && Granted(db, phase.user)
    case PatCreation(user, _, _, phase) => phase.OwnerFound? ==> user in db.users
  }

  ghost predicate Inv(hash: string -> string, s: System) {
    DbOk(hash, s.db) && forall x <- s.sessions :: SessionOk(s.db, x)
  }

  /** No account, profile, grant or token is lost, no account changes its identity nor,
      but for `promoted`, its role. */
  ghost predicate Keeps(db: Db, next: Db, promoted: Option<Uid>) {
    && db.profiles.Keys <= next.profiles.Keys
    && db.tokens <= next.tokens
    && (forall id <- db.made :: id in next.made && next.made[id] == db.made[id])
    && (forall id <- db.users ::
          && id in next.users && HasKey(next.users[id], db.users[id].provider, db.users[id].providerId)
          && (Some(id) != promoted ==> next.users[id].role == db.users[id].role))
  }

  lemma GrantedKept(db: Db, next: Db, promoted: Option<Uid>, user: Uid)
    requires Granted(db, user) && Keeps(db, next, promoted)
    ensures Granted(next, user)
  {
    var id :| id in db.made && db.made[id].user == user;
    assert id in next.made && next.made[id].user == user;
  }

  lemma SessionKept(db: Db, next: Db, promoted: Option<Uid>, x: Session)
    requires SessionOk(db, x) && Keeps(db, next, promoted)
    ensures SessionOk(next, x)
  {
    if x.PatLogin? && x.exchange.Matched? {
      GrantedKept(db, next, promoted, x.exchange.user);
    }
    hide Granted;
  }

  lemma TokensKept(db: Db, next: Db, promoted: Option<Uid>)
    requires forall t <- db.tokens :: TokenOk(db, t)
    requires Keeps(db, next, promoted)
    ensures forall t <- db.tokens :: TokenOk(next, t)
  {
    forall t | t in db.tokens ensures TokenOk(next, t) {
      assert TokenOk(db, t);
      if t.user !in db.profiles {
        GrantedKept(db, next, promoted, t.user);
      }
    }
  }

  lemma UpsertOk(hash: string -> string, db: Db, u: User, freshId: Uid)
    requires DbOk(hash, db) && freshId !in db.users
    requires UpsertRow(db.users, u, freshId).Ok?
    ensures var out := UpsertRow(db.users, u, freshId).value;
            var next := db.(users := out.users);
            && DbOk(hash, next) && Keeps(db, next, None)
            && IsAccount(next, Account(out.id, out.users[out.id]), u.provider, u.providerId)
  {
    hide UpsertRow, Unique, TokenOk;
    UpsertExact(db.users, u, freshId);
    var out := UpsertRow(db.users, u, freshId).value;
    var next := db.(users := out.users);
    assert PatsOk(hash, next);
    TokensKept(db, next, None);
  }

  lemma EnsuredOk(hash: string -> string, db: Db, a: Account, now: int)
    requires DbOk(hash, db) && a.id in db.users
    ensures DbOk(hash, Ensured(db, a, now)) && Keeps(db, Ensured(db, a, now), None)
    ensures a.id in Ensured(db, a, now).profiles
    ensures Ensured(db, a, now) == db.(profiles := Ensured(db, a, now).profiles)
  {
    hide Unique, TokenOk;
    TokensKept(db, Ensured(db, a, now), None);
  }

  lemma SavedOk(hash: string -> string, db: Db, patId: PatId, salt: string, g: Grant)
    requires DbOk(hash, db) && g.user in db.users && patId !in db.made
    ensures var next := Saved(hash, db, patId, salt, g);
            DbOk(hash, next) && Keeps(db, next, None) && Granted(next, g.user)
  {
    hide Unique, TokenOk;
    var next := Saved(hash, db, patId, salt, g);
    TokensKept(db, next, None);
    assert patId in next.made && next.made[patId].user == g.user;
  }

  lemma IssuedOk(hash: string -> string, db: Db, t: Token)
    requires DbOk(hash, db) && TokenOk(db, t)
    ensures DbOk(hash, Issued(db, t)) && Keeps(db, Issued(db, t), None)
  {
    hide Unique, TokenOk, Granted;
    TokensKept(db, Issued(db, t), None);
    assert TokenOk(Issued(db, t), t) by { TokenElsewhere(db, Issued(db, t), t); }
  }

  lemma TokenElsewhere(db: Db, next: Db, t: Token)
    requires TokenOk(db, t) && Keeps(db, next, None)
    ensures TokenOk(next, t)
  {
    if t.user !in db.profiles {
      GrantedKept(db, next, None, t.user);
    }
  }

  lemma KeepsItself(db: Db)
    ensures Keeps(db, db, None)
  {
  }

  lemma LoginStepOk(hash: string -> string, db: Db, x: Session, step: Step)
    requires DbOk(hash, db) && SessionOk(db, x) && FreshStep(db, step) && x.Login?
    ensures var (next, y) := LoginStep(db, x, step); DbOk(hash, next) && Keeps(db, next, None) && SessionOk(next, y)
  {
    hide DbOk, Keeps, UpsertRow, Ensured, Issued, EmailOwner;
    KeepsItself(db);
    match (x.login, step)
    case (Exchanged, UpsertUser(freshId, _)) =>
      if UpsertRow(db.users, User(x.email, x.name, Member, x.provider, x.providerId), freshId).Ok? {
        UpsertOk(hash, db, User(x.email, x.name, Member, x.provider, x.providerId), freshId);
      }
    case (HasUser(a), EnsureProfile(now)) =>
      EnsuredOk(hash, db, a, now);
    case (HasProfile(a), Sign) =>
      IssuedOk(hash, db, Token(a.id, a.row.role, OAuth));
      SessionKept(db, Issued(db, Token(a.id, a.row.role, OAuth)), None, x);
    case _ =>
  }

  lemma BootStepOk(hash: string -> string, db: Db, x: Session, step: Step)
    requires DbOk(hash, db) && SessionOk(db, x) && FreshStep(db, step) && x.Bootstrap?
    ensures var (next, y) := BootStep(hash, db, x, step); DbOk(hash, next) && Keeps(db, next, None) && SessionOk(next, y)
  {
    hide DbOk, Keeps, UpsertRow, Ensured, Saved;
    KeepsItself(db);
    match (x.boot, step)
    case (NoUsersSeen, UpsertUser(freshId, placeholder)) =>
      if UpsertRow(db.users, User(x.email, x.name, Admin, PatOnly, placeholder), freshId).Ok? {
        UpsertOk(hash, db, User(x.email, x.name, Admin, PatOnly, placeholder), freshId);
      }
    case (HasAdmin(a), SavePat(patId, salt)) =>
      SavedOk(hash, db, patId, salt, Grant(a.id, x.rawKey, None));
      SessionKept(db, Saved(hash, db, patId, salt, Grant(a.id, x.rawKey, None)), None, x);
    case (HasPat(a), EnsureProfile(now)) =>
      EnsuredOk(hash, db, a, now);
    case _ =>
  }

  lemma ExchangeStepOk(hash: string -> string, db: Db, x: Session, step: Step)
    requires DbOk(hash, db) && SessionOk(db, x) && x.PatLogin?
    ensures var (next, y) := ExchangeStep(hash, db, x, step); DbOk(hash, next) && Keeps(db, next, None) && SessionOk(next, y)
  {
    hide Keeps, Unique, OwnerIn, Lists, Issued, Granted, DbOk;
    KeepsItself(db);
    match (x.exchange, step)
    case (Presented, ListPats(rows, now)) =>
      if Lists(db.pats, rows) && OwnerIn(hash, rows, x.raw, now).Ok? {
        OwnerHasGrant(hash, db, rows, x.raw, now);
      }
    case (Matched(owner), LoadUser) =>
      var t := Token(owner, db.users[owner].role, PatExchange);
      IssuedOk(hash, db, t);
    case _ =>
  }

  lemma OwnerHasGrant(hash: string -> string, db: Db, rows: seq<Pat>, raw: string, now: int)
    requires DbOk(hash, db) && Lists(db.pats, rows) && OwnerIn(hash, rows, raw, now).Ok?
    ensures var u := OwnerIn(hash, rows, raw, now).value; u in db.users && Granted(db, u)
  {
    hide Lists, FirstMatch, Unique, TokenOk;
    ListsExact(db.pats, rows);
    FirstMatchExact(hash, rows, raw);
    var p := FirstMatch(hash, rows, raw).value;
    var id :| id in db.pats && db.pats[id] == p;
    assert id in db.made && db.made[id].user == p.user;
  }

  lemma CreationStepOk(hash: string -> string, db: Db, x: Session, step: Step)
    requires DbOk(hash, db) && SessionOk(db, x) && FreshStep(db, step) && x.PatCreation?
    ensures var (next, y) := CreationStep(hash, db, x, step); DbOk(hash, next) && Keeps(db, next, None) && SessionOk(next, y)
  {
    hide DbOk, Keeps, Saved;
    KeepsItself(db);
    match (x.creation, step)
    case (OwnerFound, SavePat(patId, salt)) =>
      SavedOk(hash, db, patId, salt, Grant(x.user, x.rawKey, x.expiresAt));
    case _ =>
  }

  lemma AdvanceOk(hash: string -> string, db: Db, x: Session, step: Step)
    requires DbOk(hash, db) && SessionOk(db, x) && FreshStep(db, step)
    ensures var (next, y) := Advance(hash, db, x, step); DbOk(hash, next) && Keeps(db, next, None) && SessionOk(next, y)
  {
    hide DbOk, Keeps, SessionOk, FreshStep, LoginStep, BootStep, ExchangeStep, CreationStep;
    match x
    case Login(_, _, _, _, _) => LoginStepOk(hash, db, x, step);
    case Bootstrap(_, _, _, _) => BootStepOk(hash, db, x, step);
    case PatLogin(_, _) => ExchangeStepOk(hash, db, x, step);
    case PatCreation(_, _, _, _) => CreationStepOk(hash, db, x, step);
  }

  /** Whose role the action sets. */
  function Promoted(s: System, a: Action): Option<Uid> {
    if a.SetRole? && AdminToken(s.db, a.caller) then Some(a.user) else None
  }

  lemma RoleKeepsUnique(users: Users, user: Uid, role: Role)
    requires Unique(users) && user in users
    ensures Unique(users[user := users[user].(role := role)])
  {
  }

  lemma SetRoleOk(hash: string -> string, db: Db, user: Uid, role: Role)
    requires DbOk(hash, db) && user in db.users
    ensures var next := db.(users := db.users[user := db.users[user].(role := role)]);
            DbOk(hash, next) && Keeps(db, next, Some(user))
  {
    hide TokenOk, Granted, Unique;
    RoleKeepsUnique(db.users, user, role);
    TokensKept(db, db.(users := db.users[user := db.users[user].(role := role)]), Some(user));
  }

  lemma RevokedOk(hash: string -> string, db: Db, patId: PatId)
    requires DbOk(hash, db)
    ensures var next := db.(pats := db.pats - {patId}); DbOk(hash, next) && Keeps(db, next, None)
  {
    hide TokenOk, Granted, Unique;
    TokensKept(db, db.(pats := db.pats - {patId}), None);
  }

  lemma EditedOk(hash: string -> string, db: Db, user: Uid, row: Row)
    requires DbOk(hash, db) && user in db.profiles
    ensures var next := db.(profiles := db.profiles[user := row]); DbOk(hash, next) && Keeps(db, next, None)
  {
    hide TokenOk, Granted, Unique;
    TokensKept(db, db.(profiles := db.profiles[user := row]), None);
  }

  lemma KeepsMore(db: Db, next: Db, promoted: Option<Uid>)
    requires Keeps(db, next, None)
    ensures Keeps(db, next, promoted)
  {
  }

  lemma ServeOk(hash: string -> string, s: System, a: Action)
    requires DbOk(hash, s.db) && !a.Of?
    ensures DbOk(hash, Serve(s.db, a)) && Keeps(s.db, Serve(s.db, a), Promoted(s, a))
  {
    hide DbOk, Keeps, Issued;
    var db := s.db;
    KeepsItself(db);
    KeepsMore(db, db, Promoted(s, a));
    match a
    case SetRole(_, user, role) =>
      if user in db.users { SetRoleOk(hash, db, user, role); }
    case RevokePat(_, patId) => RevokedOk(hash, db, patId);
    case EditProfile(_, user, row) =>
      if user in db.profiles { EditedOk(hash, db, user, row); }
    case RefreshToken(caller) =>
      if caller < |db.tokens| && db.tokens[caller].user in db.users {
        RefreshOk(hash, db, caller);
        IssuedOk(hash, db, Token(db.tokens[caller].user, db.users[db.tokens[caller].user].role, Refresh));
      }
  }

  lemma RefreshOk(hash: string -> string, db: Db, caller: nat)
    requires caller < |db.tokens| && DbOk(hash, db)
    ensures db.tokens[caller].user in db.users
    ensures TokenOk(db, Token(db.tokens[caller].user, db.users[db.tokens[caller].user].role, Refresh))
  {
    assert TokenOk(db, db.tokens[caller]);
  }

  /** Every committed step keeps the invariant, and every account's identity and, but
      for UpdateRole, role. */
  lemma NextOk(hash: string -> string, s: System, a: Action)
    requires Inv(hash, s) && Fresh(s, a)
    ensures Inv(hash, Next(hash, s, a))
    ensures Keeps(s.db, Next(hash, s, a).db, Promoted(s, a))
  {
    hide DbOk, Keeps, SessionOk, FreshStep, Advance, Serve;
    if a.Of? {
      KeepsItself(s.db);
      if a.i < |s.sessions| {
        AdvanceOk(hash, s.db, s.sessions[a.i], a.step);
      }
    } else {
      ServeOk(hash, s, a);
    }
    var t := Next(hash, s, a);
    forall x | x in s.sessions ensures SessionOk(t.db, x) {
      SessionKept(s.db, t.db, Promoted(s, a), x);
    }
  }

  lemma {:induction false} RunOk(hash: string -> string, s: System, actions: seq<Action>)
    requires Inv(hash, s) && Legal(hash, s, actions)
    ensures Inv(hash, RunAll(hash, s, actions))
    decreases |actions|
  {
    hide Inv, Next, Fresh;
    if actions != [] {
      NextOk(hash, s, actions[0]);
      RunOk(hash, Next(hash, s, actions[0]), actions[1..]);
    }
  }

  lemma InitialOk(hash: string -> string, s: System)
    requires Initial(s)
    ensures Inv(hash, s)
  {
    forall x | x in s.sessions ensures SessionOk(s.db, x) {
      assert NotBegun(x);
    }
  }

  /** s is some state a system reaches from empty tables. */
  ghost predicate Reachable(hash: string -> string, s: System) {
    exists s0, actions :: Initial(s0) && Legal(hash, s0, actions) && s == RunAll(hash, s0, actions)
  }

  lemma ReachableOk(hash: string -> string, s: System)
    requires Reachable(hash, s)
    ensures Inv(hash, s)
  {
    var s0, actions :| Initial(s0) && Legal(hash, s0, actions) && s == RunAll(hash, s0, actions);
    InitialOk(hash, s0);
    RunOk(hash, s0, actions);
  }

  /** A step of one session leaves the others alone. */
  lemma OthersStay(hash: string -> string, s: System, a: Action)
    ensures var t := Next(hash, s, a);
            && |t.sessions| == |s.sessions|
            && (forall k | 0 <= k < |s.sessions| && !(a.Of? && a.i == k) :: t.sessions[k] == s.sessions[k])
  {
    hide Advance, Serve;
  }

  /** The effect of a step that is enabled. */
  lemma StepEffect(hash: string -> string, s: System, i: nat, step: Step)
    requires i < |s.sessions|
    ensures var (db, x) := Advance(hash, s.db, s.sessions[i], step);
            Next(hash, s, Of(i, step)) == System(db, s.sessions[i := x])
  {
    hide Advance;
  }
}
