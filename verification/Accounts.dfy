/** The users and personal_access_tokens tables, their repositories, and the user
    manager over them. */
module Accounts {
  import opened Wrappers

  type Uid = string
  type PatId = string

  datatype Provider = Google | GitHub | PatOnly
  datatype Role = Admin | Member

  datatype User = User(email: string, name: string, role: Role, provider: Provider, providerId: string)

  datatype Pat = Pat(user: Uid, keyHash: string, salt: string, expiresAt: Option<int>) {
    predicate IsExpired(now: int) {
      expiresAt.Some? && now > expiresAt.value
    }
  }

  datatype UserError = EmailTaken | UserNotFound

  type Users = map<Uid, User>

  predicate HasKey(u: User, provider: Provider, providerId: string) {
    u.provider == provider && u.providerId == providerId
  }

  /** UNIQUE (email) and UNIQUE (provider, provider_id). */
  ghost predicate Unique(users: Users) {
    && (forall a, b | a in users && b in users && users[a].email == users[b].email :: a == b)
    && (forall a, b | a in users && b in users && HasKey(users[a], users[b].provider, users[b].providerId) :: a == b)
  }

  ghost function KeyOwner(users: Users, provider: Provider, providerId: string): Option<Uid> {
    if id: Uid :| id in users && HasKey(users[id], provider, providerId) then Some(id) else None
  }

  /** Some other row than `except` holds the email. */
  ghost predicate EmailTakenBeside(users: Users, email: string, except: Option<Uid>) {
    exists id :: id in users && users[id].email == email && Some(id) != except
  }

  datatype Upserted = Upserted(users: Users, id: Uid)

  /** A row as a query returns it. */
  datatype Account = Account(id: Uid, row: User)

  /** INSERT ... ON CONFLICT (provider, provider_id) DO UPDATE SET email, name: the
      existing row keeps its id and role; an email held by another row is refused. */
  ghost function UpsertRow(users: Users, u: User, freshId: Uid): (r: Result<Upserted, UserError>)
    ensures r.Ok? ==> r.value.id in r.value.users
  {
    var owner := KeyOwner(users, u.provider, u.providerId);
    if EmailTakenBeside(users, u.email, owner) then Err(EmailTaken)
    else
      match owner
      case Some(id) => Ok(Upserted(users[id := users[id].(email := u.email, name := u.name)], id))
      case None => Ok(Upserted(users[freshId := u], freshId))
  }

  /** What an accepted upsert does, and exactly when it is refused. */
  lemma UpsertExact(users: Users, u: User, freshId: Uid)
    requires Unique(users) && freshId !in users
    ensures var out := UpsertRow(users, u, freshId);
            && (out.Err? <==> exists id :: id in users && users[id].email == u.email
                                           && !HasKey(users[id], u.provider, u.providerId))
            && (out.Ok? ==>
                  var t := out.value.users;
                  var id := out.value.id;
                  && Unique(t)
                  && t.Keys == users.Keys + {id} && t[id].email == u.email && t[id].name == u.name
                  && HasKey(t[id], u.provider, u.providerId)
                  && t[id].role == (if id in users then users[id].role else u.role)
                  && (id in users <==> exists k: Uid :: k in users && HasKey(users[k], u.provider, u.providerId))
                  && (forall other <- users :: other != id ==> t[other] == users[other]))
  {
    var owner := KeyOwner(users, u.provider, u.providerId);
    if owner.Some? {
      assert HasKey(users[owner.value], u.provider, u.providerId);
      if EmailTakenBeside(users, u.email, owner) {
        var id :| id in users && users[id].email == u.email && Some(id) != owner;
        assert !HasKey(users[id], u.provider, u.providerId);
      }
    }
  }

  /** The uniqueness constraints, column by column. */
  lemma UniqueExact(users: Users)
    ensures Unique(users) <==>
              forall a, b | a in users && b in users && a != b ::
                && users[a].email != users[b].email
                && !(users[a].provider == users[b].provider && users[a].providerId == users[b].providerId)
  {
  }

  /** The statement, column by column: the row with the same provider and provider id gets
      the new email and name and nothing else; without one the row is inserted as given;
      a row of a different identity that has the email refuses both. */
  lemma UpsertByColumns(users: Users, u: User, freshId: Uid, id: Uid)
    requires Unique(users)
    ensures var out := UpsertRow(users, u, freshId);
            && (out == Err(EmailTaken) <==>
                  exists k :: k in users && users[k].email == u.email
                              && !(users[k].provider == u.provider && users[k].providerId == u.providerId))
            && (out.Ok? && id in users && users[id].provider == u.provider && users[id].providerId == u.providerId ==>
                  out.value == Upserted(users[id := User(u.email, u.name, users[id].role, u.provider, u.providerId)], id))
            && (out.Ok? && (forall k <- users :: !(users[k].provider == u.provider && users[k].providerId == u.providerId)) ==>
                  out.value == Upserted(users[freshId := u], freshId))
  {
    var owner := KeyOwner(users, u.provider, u.providerId);
    assert forall k <- users ::
        HasKey(users[k], u.provider, u.providerId) <==> users[k].provider == u.provider && users[k].providerId == u.providerId;
    if owner.None? {
      assert forall k <- users :: !HasKey(users[k], u.provider, u.providerId);
    }
  }

  /** A second login of the same identity finds the account of the first. */
  lemma UpsertFindsSameAccount(users: Users, u: User, id: Uid, freshId: Uid)
    requires Unique(users) && freshId !in users
    requires id in users && HasKey(users[id], u.provider, u.providerId)
    requires UpsertRow(users, u, freshId).Ok?
    ensures UpsertRow(users, u, freshId).value.id == id
  {
  }

  // ---- Repositories ----

  class UserRepository {
    var users: Users

    ghost predicate Valid()
      reads this
    {
      Unique(users)
    }

    constructor ()
      ensures Valid() && users == map[]
    {
      users := map[];
    }

    /** One atomic statement; freshId is the generated key, used only on insert. */
    method Upsert(u: User, freshId: Uid) returns (r: Result<Account, UserError>)
      requires Valid() && freshId !in users
      modifies this
      ensures Valid()
      ensures match UpsertRow(old(users), u, freshId)
              case Ok(done) => r == Ok(Account(done.id, done.users[done.id])) && users == done.users
              case Err(e) => r == Err(e) && users == old(users)
    {
      UpsertExact(users, u, freshId);
      if id: Uid :| id in users && HasKey(users[id], u.provider, u.providerId) {
        if other: Uid :| other in users && users[other].email == u.email && other != id {
          return Err(EmailTaken);
        }
        users := users[id := users[id].(email := u.email, name := u.name)];
        return Ok(Account(id, users[id]));
      }
      if other: Uid :| other in users && users[other].email == u.email {
        return Err(EmailTaken);
      }
      users := users[freshId := u];
      return Ok(Account(freshId, u));
    }

    method FindByEmail(email: string) returns (r: Option<User>)
      requires Valid()
      ensures r.None? <==> !EmailTakenBeside(users, email, None)
      ensures r.Some? ==> exists id :: id in users && users[id] == r.value && r.value.email == email
    {
      if id: Uid :| id in users && users[id].email == email {
        return Some(users[id]);
      }
      return None;
    }

    method UpdateRole(id: Uid, role: Role) returns (err: Option<UserError>)
      requires Valid()
      modifies this
      ensures Valid()
      ensures err == if id in old(users) then None else Some(UserNotFound)
      ensures users == if id in old(users) then old(users)[id := old(users)[id].(role := role)] else old(users)
    {
      if id !in users {
        return Some(UserNotFound);
      }
      users := users[id := users[id].(role := role)];
      return None;
    }
  }

  /** Who a refused user is told owns the email: nobody, when the owner has gone or
      has no sign-in button. */
  function Disclosed(owner: Option<User>): Option<Provider> {
    if owner.None? || owner.value.provider == PatOnly then None else Some(owner.value.provider)
  }

  class PatRepository {
    var pats: map<PatId, Pat>

    constructor ()
      ensures pats == map[]
    {
      pats := map[];
    }

    method Save(p: Pat, freshId: PatId)
      requires freshId !in pats
      modifies this
      ensures pats == old(pats)[freshId := p]
    {
      pats := pats[freshId := p];
    }

    method Delete(id: PatId) returns (found: bool)
      modifies this
      ensures found == (id in old(pats)) && pats == old(pats) - {id}
    {
      found := id in pats;
      pats := pats - {id};
    }

    /** Every row, in whatever order the map yields them. */
    method FindAll() returns (rows: seq<Pat>)
      ensures Lists(pats, rows)
    {
      hide ListsBy;
      rows := [];
      var ids := pats.Keys;
      ghost var listed: seq<PatId> := [];
      NothingListed(map id | id in pats && id !in ids :: pats[id]);
      while ids != {}
        invariant ids <= pats.Keys
        invariant ListsBy(map id | id in pats && id !in ids :: pats[id], listed, rows)
        decreases |ids|
      {
        var id :| id in ids;
        ghost var before := map k | k in pats && k !in ids :: pats[k];
        ghost var after := map k | k in pats && k !in ids - {id} :: pats[k];
        assert after == before[id := pats[id]];
        ListsMore(before, listed, rows, id, pats[id]);
        rows, listed := rows + [pats[id]], listed + [id];
        ids := ids - {id};
      }
      assert pats == map id | id in pats && id !in ids :: pats[id];
    }
  }

  /** rows holds the rows with these ids, each once. */
  ghost predicate ListsBy(pats: map<PatId, Pat>, ids: seq<PatId>, rows: seq<Pat>) {
    && |ids| == |rows|
    && (forall id :: id in pats <==> id in ids)
    && (forall i, j | 0 <= i < j < |ids| :: ids[i] != ids[j])
    && (forall i | 0 <= i < |ids| :: pats[ids[i]] == rows[i])
  }

  lemma NothingListed(pats: map<PatId, Pat>)
    requires pats == map[]
    ensures ListsBy(pats, [], [])
  {
  }

  lemma ListsMore(pats: map<PatId, Pat>, ids: seq<PatId>, rows: seq<Pat>, id: PatId, p: Pat)
    requires ListsBy(pats, ids, rows) && id !in pats
    ensures ListsBy(pats[id := p], ids + [id], rows + [p])
  {
    assert forall k :: k in pats[id := p] <==> k in ids + [id];
  }

  /** rows holds exactly the rows of the table, each once, in some order. */
  ghost predicate Lists(pats: map<PatId, Pat>, rows: seq<Pat>) {
    exists ids: seq<PatId> :: ListsBy(pats, ids, rows)
  }

  lemma ListsExact(pats: map<PatId, Pat>, rows: seq<Pat>)
    requires Lists(pats, rows)
    ensures |rows| == |pats|
    ensures forall p <- rows :: exists id :: id in pats && pats[id] == p
    ensures forall id <- pats :: pats[id] in rows
  {
    var ids: seq<PatId> :| ListsBy(pats, ids, rows);
    forall id | id in pats ensures pats[id] in rows {
      var i :| 0 <= i < |ids| && ids[i] == id;
      assert rows[i] == pats[id];
    }
    forall p | p in rows ensures exists id :: id in pats && pats[id] == p {
      var i :| 0 <= i < |rows| && rows[i] == p;
      assert ids[i] in pats;
    }
    CountDistinct(ids, pats.Keys);
  }

  lemma {:induction false} CountDistinct(ids: seq<PatId>, s: set<PatId>)
    requires forall id :: id in s <==> id in ids
    requires forall i, j | 0 <= i < j < |ids| :: ids[i] != ids[j]
    ensures |ids| == |s|
  {
    if ids != [] {
      var rest := s - {ids[0]};
      assert forall id :: id in rest <==> id in ids[1..];
      CountDistinct(ids[1..], rest);
    } else {
      assert s == {};
    }
  }

  // ---- Resolving a raw key ----

  datatype PatError = InvalidPat | PatExpired | OwnerMissing

  /** The first row whose salted hash matches. */
  function FirstMatch(hash: string -> string, rows: seq<Pat>, raw: string): Option<Pat> {
    if rows == [] then None
    else if hash(raw + rows[0].salt) == rows[0].keyHash then Some(rows[0])
    else FirstMatch(hash, rows[1..], raw)
  }

  /** What the rows alone decide: whose key it is, if it is one and has not expired. */
  function OwnerIn(hash: string -> string, rows: seq<Pat>, raw: string, now: int): Result<Uid, PatError> {
    var matched := FirstMatch(hash, rows, raw);
    if matched.None? then Err(InvalidPat)
    else if matched.value.IsExpired(now) then Err(PatExpired)
    else Ok(matched.value.user)
  }

  function ResolveIn(hash: string -> string, users: Users, rows: seq<Pat>, raw: string, now: int): Result<Uid, PatError> {
    var owner :- OwnerIn(hash, rows, raw, now);
    if owner !in users then Err(OwnerMissing) else Ok(owner)
  }

  datatype SignInError = EmailRegistered(disclosed: Option<Provider>)

  class UserManager {
    const hash: string -> string
    const users: UserRepository
    const pats: PatRepository

    constructor (hash: string -> string, users: UserRepository, pats: PatRepository)
      ensures this.hash == hash && this.users == users && this.pats == pats
    {
      this.hash, this.users, this.pats := hash, users, pats;
    }

    /** Finds or creates the account of an identity. A refusal changes nothing and tells
        who owns the email. */
    method ResolveByOAuth(provider: Provider, providerId: string, email: string, name: string, freshId: Uid)
      returns (r: Result<Account, SignInError>)
      requires users.Valid() && freshId !in users.users
      modifies users
      ensures users.Valid()
      ensures match UpsertRow(old(users.users), User(email, name, Member, provider, providerId), freshId)
              case Ok(done) => r == Ok(Account(done.id, done.users[done.id])) && users.users == done.users
              case Err(_) =>
                && users.users == old(users.users)
                && exists id :: id in users.users && users.users[id].email == email
                                && r == Err(EmailRegistered(Disclosed(Some(users.users[id]))))
    {
      var u := User(email, name, Member, provider, providerId);
      UpsertExact(users.users, u, freshId);
      var out := users.Upsert(u, freshId);
      if out.Err? {
        var owner := users.FindByEmail(email);
        return Err(EmailRegistered(Disclosed(owner)));
      }
      return Ok(out.value);
    }

    /** Saves nothing when the user does not exist; never touches the users table. */
    method CreatePAT(user: Uid, expiresAt: Option<int>, rawKey: string, salt: string, freshId: PatId)
      returns (r: Result<string, UserError>)
      requires freshId !in pats.pats
      modifies pats
      ensures if user in users.users then
                r == Ok(rawKey) && pats.pats == old(pats.pats)[freshId := Pat(user, hash(rawKey + salt), salt, expiresAt)]
              else r == Err(UserNotFound) && pats.pats == old(pats.pats)
    {
      if user !in users.users {
        return Err(UserNotFound);
      }
      pats.Save(Pat(user, hash(rawKey + salt), salt, expiresAt), freshId);
      return Ok(rawKey);
    }

    method RevokePAT(id: PatId) returns (found: bool)
      modifies pats
      ensures found == (id in old(pats.pats)) && pats.pats == old(pats.pats) - {id}
    {
      found := pats.Delete(id);
    }

    /** Creates the first account, an admin with a PAT; a no-op once any account exists. */
    method BootstrapAdmin(email: string, name: string, rawKey: string, salt: string, placeholder: string,
                          freshId: Uid, freshPat: PatId)
      returns (admin: Option<Uid>)
      requires users.Valid() && freshPat !in pats.pats
      modifies users, pats
      ensures users.Valid()
      ensures if old(users.users) != map[] then
                admin == None && users.users == old(users.users) && pats.pats == old(pats.pats)
              else
                && admin == Some(freshId)
                && users.users == map[freshId := User(email, name, Admin, PatOnly, placeholder)]
                && pats.pats == old(pats.pats)[freshPat := Pat(freshId, hash(rawKey + salt), salt, None)]
    {
      if users.users != map[] {
        return None;
      }
      var u := User(email, name, Admin, PatOnly, placeholder);
      UpsertExact(users.users, u, freshId);
      var out := users.Upsert(u, freshId);
      if out.Ok? {
        pats.Save(Pat(out.value.id, hash(rawKey + salt), salt, None), freshPat);
        return Some(out.value.id);
      }
    }

    /** Tries every stored PAT until one matches. */
    method ResolveByPAT(raw: string, now: int) returns (r: Result<Uid, PatError>)
      ensures exists rows :: Lists(pats.pats, rows) && r == ResolveIn(hash, users.users, rows, raw, now)
    {
      hide Lists;
      var rows := pats.FindAll();
      var matched: Option<Pat> := None;
      var i := 0;
      while i < |rows|
        invariant 0 <= i <= |rows|
        invariant matched.None? && FirstMatch(hash, rows[i..], raw) == FirstMatch(hash, rows, raw)
      {
        var p := rows[i];
        assert rows[i..][1..] == rows[i + 1..];
        if hash(raw + p.salt) == p.keyHash {
          matched := Some(p);
          break;
        }
        i := i + 1;
      }
      assert matched == FirstMatch(hash, rows, raw);
      if matched.None? {
        return Err(InvalidPat);
      }
      if matched.value.IsExpired(now) {
        return Err(PatExpired);
      }
      if matched.value.user !in users.users {
        return Err(OwnerMissing);
      }
      return Ok(matched.value.user);
    }
  }

  // ---- What resolving means ----

  /** A PAT as its creator knows it. */
  datatype Grant = Grant(user: Uid, rawKey: string, expiresAt: Option<int>)

  ghost predicate Injective(hash: string -> string) {
    forall a, b :: hash(a) == hash(b) ==> a == b
  }

  /** The table stores exactly the live grants, hashed with their salts. */
  ghost predicate Stores(hash: string -> string, users: Users, pats: map<PatId, Pat>, live: map<PatId, Grant>) {
    && pats.Keys == live.Keys
    && (forall id <- pats ::
          && pats[id].user == live[id].user && live[id].user in users
          && pats[id].expiresAt == live[id].expiresAt
          && pats[id].keyHash == hash(live[id].rawKey + pats[id].salt))
  }

  ghost predicate DistinctKeys(live: map<PatId, Grant>) {
    forall a, b | a in live && b in live && live[a].rawKey == live[b].rawKey :: a == b
  }

  /** A stored row matches a raw key exactly when it is that key's: the salts on both
      sides of the comparison are the same and cancel. */
  lemma MatchExact(hash: string -> string, rawKey: string, raw: string, salt: string)
    requires Injective(hash)
    ensures hash(raw + salt) == hash(rawKey + salt) <==> raw == rawKey
  {
    if raw + salt == rawKey + salt {
      assert |raw| == |rawKey|;
      assert raw == (raw + salt)[..|raw|] == (rawKey + salt)[..|raw|] == rawKey;
    }
  }

  lemma {:induction false} FirstMatchExact(hash: string -> string, rows: seq<Pat>, raw: string)
    ensures var m := FirstMatch(hash, rows, raw);
            if m.Some? then m.value in rows && hash(raw + m.value.salt) == m.value.keyHash
            else forall p <- rows :: hash(raw + p.salt) != p.keyHash
  {
    if rows != [] {
      FirstMatchExact(hash, rows[1..], raw);
    }
  }

  /** Whatever order the rows come back in, they name u exactly when a live, unexpired
      grant of u has the key. */
  lemma OwnerExact(hash: string -> string, users: Users, pats: map<PatId, Pat>, live: map<PatId, Grant>,
                   rows: seq<Pat>, raw: string, now: int)
    requires Injective(hash) && Stores(hash, users, pats, live) && DistinctKeys(live) && Lists(pats, rows)
    ensures var out := OwnerIn(hash, rows, raw, now);
            && (forall u :: out == Ok(u) <==>
                  exists id :: id in live && live[id].rawKey == raw && live[id].user == u && !pats[id].IsExpired(now))
            && (out == Err(InvalidPat) <==> forall id <- live :: live[id].rawKey != raw)
            && (out == Err(PatExpired) <==> exists id :: id in live && live[id].rawKey == raw && pats[id].IsExpired(now))
            && (out.Ok? ==> out.value in users)
            && out != Err(OwnerMissing)
  {
    hide Lists, FirstMatch;
    ListsExact(pats, rows);
    FirstMatchExact(hash, rows, raw);
    var m := FirstMatch(hash, rows, raw);
    if m.Some? {
      var k :| k in pats && pats[k] == m.value;
      MatchExact(hash, live[k].rawKey, raw, pats[k].salt);
      assert live[k].rawKey == raw;
    } else {
      forall id | id in live ensures live[id].rawKey != raw {
        assert pats[id] in rows;
        MatchExact(hash, live[id].rawKey, raw, pats[id].salt);
      }
    }
  }

  /** Main result: a raw key resolves to u exactly when a live, unexpired grant of u
      has that key. */
  lemma ResolveExact(hash: string -> string, users: Users, pats: map<PatId, Pat>, live: map<PatId, Grant>,
                     rows: seq<Pat>, raw: string, now: int)
    requires Injective(hash) && Stores(hash, users, pats, live) && DistinctKeys(live) && Lists(pats, rows)
    ensures var out := ResolveIn(hash, users, rows, raw, now);
            && (forall u :: out == Ok(u) <==>
                  exists id :: id in live && live[id].rawKey == raw && live[id].user == u && !pats[id].IsExpired(now))
            && (out == Err(InvalidPat) <==> forall id <- live :: live[id].rawKey != raw)
            && (out == Err(PatExpired) <==> exists id :: id in live && live[id].rawKey == raw && pats[id].IsExpired(now))
            && out != Err(OwnerMissing)
  {
    hide Injective, Stores, DistinctKeys, Lists, OwnerIn;
    OwnerExact(hash, users, pats, live, rows, raw, now);
  }
}
