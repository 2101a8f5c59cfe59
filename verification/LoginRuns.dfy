/** What any run of the system does to accounts, logins, roles and profiles. */
module LoginRuns {
  import opened Wrappers
  import opened Accounts
  import opened Sessions
  import ProfileStore

  // ---- Accounts and roles ----

  /** a is an UpdateRole on the account by the holder of an admin token. */
  predicate Promotes(s: System, a: Action, id: Uid) {
    a.SetRole? && a.user == id && AdminToken(s.db, a.caller)
  }

  /** The role an account with `role` in s has after the run: what the last UpdateRole by
      an admin gave it. */
  ghost function RoleAfter(hash: string -> string, s: System, actions: seq<Action>, id: Uid, role: Role): Role
    decreases |actions|
  {
    if actions == [] then role
    else RoleAfter(hash, Next(hash, s, actions[0]), actions[1..], id, if Promotes(s, actions[0], id) then actions[0].role else role)
  }

  lemma NextRole(hash: string -> string, s: System, a: Action, id: Uid)
    requires Inv(hash, s) && Fresh(s, a) && id in s.db.users
    ensures var t := Next(hash, s, a);
            id in t.db.users && t.db.users[id].role == if Promotes(s, a, id) then a.role else s.db.users[id].role
  {
    NextOk(hash, s, a);
    hide Inv, Advance, Fresh;
  }

  lemma {:induction false} RunKeepsAccount(hash: string -> string, s: System, actions: seq<Action>, id: Uid)
    requires Inv(hash, s) && Legal(hash, s, actions) && id in s.db.users
    ensures var t := RunAll(hash, s, actions);
            && id in t.db.users && HasKey(t.db.users[id], s.db.users[id].provider, s.db.users[id].providerId)
            && t.db.users[id].role == RoleAfter(hash, s, actions, id, s.db.users[id].role)
    decreases |actions|
  {
    if actions != [] {
      NextOk(hash, s, actions[0]);
      NextRole(hash, s, actions[0], id);
      hide Inv, Next, Fresh, Promotes;
      RunKeepsAccount(hash, Next(hash, s, actions[0]), actions[1..], id);
    }
  }

  lemma KeyOwnerExact(users: Users, id: Uid)
    requires Unique(users) && id in users
    ensures KeyOwner(users, users[id].provider, users[id].providerId) == Some(id)
  {
    assert HasKey(users[id], users[id].provider, users[id].providerId);
  }

  /** Main result: whatever requests run, in any interleaving and with any step failing,
      emails and provider identities stay unique, an identity keeps the user id of
      its first login, and an account's role is what the last UpdateRole by an admin
      made it. */
  lemma AccountsAreStable(hash: string -> string, s: System, actions: seq<Action>)
    requires Reachable(hash, s) && Legal(hash, s, actions)
    ensures var t := RunAll(hash, s, actions);
            && Unique(t.db.users)
            && (forall id <- s.db.users ::
                  && KeyOwner(t.db.users, s.db.users[id].provider, s.db.users[id].providerId) == Some(id)
                  && t.db.users[id].role == RoleAfter(hash, s, actions, id, s.db.users[id].role))
  {
    ReachableOk(hash, s);
    RunOk(hash, s, actions);
    var t := RunAll(hash, s, actions);
    forall id | id in s.db.users
      ensures id in t.db.users && KeyOwner(t.db.users, s.db.users[id].provider, s.db.users[id].providerId) == Some(id)
      ensures t.db.users[id].role == RoleAfter(hash, s, actions, id, s.db.users[id].role)
    {
      RunKeepsAccount(hash, s, actions, id);
      KeyOwnerExact(t.db.users, id);
    }
    hide RunAll, Legal, Reachable, RoleAfter;
  }

  /** Two logins of one identity, however far they got, are logins of one user. */
  lemma SameIdentitySameUser(hash: string -> string, s: System, i: nat, j: nat)
    requires Reachable(hash, s)
    requires i < |s.sessions| && s.sessions[i].Login? && s.sessions[i].login.SignedIn?
    requires j < |s.sessions| && s.sessions[j].Login? && s.sessions[j].login.SignedIn?
    requires s.sessions[i].provider == s.sessions[j].provider && s.sessions[i].providerId == s.sessions[j].providerId
    ensures s.sessions[i].login.id == s.sessions[j].login.id
  {
    ReachableOk(hash, s);
    assert SessionOk(s.db, s.sessions[i]) && SessionOk(s.db, s.sessions[j]);
  }

  // ---- The role in a login's token ----

  /** A login past its upsert that still holds what the upsert returned. */
  predicate Carries(x: Session, a: Account) {
    && x.Login?
    && (x.login.HasUser? ==> x.login.account == a)
    && (x.login.HasProfile? ==> x.login.account == a)
    && !x.login.Exchanged?
  }

  lemma LoginCarries(db: Db, x: Session, step: Step, a: Account)
    requires Carries(x, a)
    ensures Carries(LoginStep(db, x, step).1, a)
  {
    hide UpsertRow, Ensured, EmailOwner;
  }

  lemma {:induction false} RunCarries(hash: string -> string, s: System, actions: seq<Action>, i: nat, a: Account)
    requires i < |s.sessions| && Carries(s.sessions[i], a)
    ensures var t := RunAll(hash, s, actions); i < |t.sessions| && Carries(t.sessions[i], a)
    decreases |actions|
  {
    if actions != [] {
      OthersStay(hash, s, actions[0]);
      if actions[0].Of? && actions[0].i == i {
        StepEffect(hash, s, i, actions[0].step);
        LoginCarries(s.db, s.sessions[i], actions[0].step, a);
      }
      hide Next, Carries, LoginStep;
      RunCarries(hash, Next(hash, s, actions[0]), actions[1..], i, a);
    }
  }

  /** Main result: the token of a login carries the role its account had at the login's
      own upsert, whatever happens before it is signed; the account's role may by then
      be another, but only because an admin set it in between. */
  lemma LoginTokenRole(hash: string -> string, s: System, i: nat, freshId: Uid, placeholder: string, between: seq<Action>)
    requires Reachable(hash, s)
    requires i < |s.sessions| && s.sessions[i].Login? && s.sessions[i].login.Exchanged?
    requires Legal(hash, s, [Of(i, UpsertUser(freshId, placeholder))] + between)
    requires var t := RunAll(hash, Next(hash, s, Of(i, UpsertUser(freshId, placeholder))), between);
             i < |t.sessions| && t.sessions[i].Login? && t.sessions[i].login.HasProfile?
    ensures var up := Next(hash, s, Of(i, UpsertUser(freshId, placeholder)));
            var t := RunAll(hash, up, between);
            var id := t.sessions[i].login.account.id;
            && id in up.db.users && id in t.db.users
            && Next(hash, t, Of(i, Sign)).db.tokens == t.db.tokens + [Token(id, up.db.users[id].role, OAuth)]
            && t.db.users[id].role == RoleAfter(hash, up, between, id, up.db.users[id].role)
  {
    var upsert := Of(i, UpsertUser(freshId, placeholder));
    assert ([upsert] + between)[1..] == between;
    hide Inv, RunAll, RoleAfter, Reachable, Next;
    ReachableOk(hash, s);
    NextOk(hash, s, upsert);
    var up := Next(hash, s, upsert);
    StepEffect(hash, s, i, upsert.step);
    UpsertReturnsRow(s.db, s.sessions[i], freshId, placeholder);
    if up.sessions[i].login.HasUser? {
      var a := up.sessions[i].login.account;
      RunCarries(hash, up, between, i, a);
      RunKeepsAccount(hash, up, between, a.id);
      var t := RunAll(hash, up, between);
      StepEffect(hash, t, i, Sign);
    } else {
      NeverComes(hash, up, between, i);
    }
  }

  lemma {:induction false} RunKeepsTokens(hash: string -> string, s: System, actions: seq<Action>)
    requires Inv(hash, s) && Legal(hash, s, actions)
    ensures s.db.tokens <= RunAll(hash, s, actions).db.tokens
    decreases |actions|
  {
    hide Inv, Next, Fresh;
    if actions != [] {
      NextOk(hash, s, actions[0]);
      RunKeepsTokens(hash, Next(hash, s, actions[0]), actions[1..]);
    }
  }

  /** A refresh, by contrast, follows the account: however old the presented token, the
      new one carries what the last UpdateRole by an admin made of the user. */
  lemma RefreshTokenRole(hash: string -> string, s: System, actions: seq<Action>, caller: nat)
    requires Reachable(hash, s) && Legal(hash, s, actions) && caller < |s.db.tokens|
    ensures var t := RunAll(hash, s, actions);
            var user := s.db.tokens[caller].user;
            && user in s.db.users
            && Next(hash, t, RefreshToken(caller)).db.tokens
               == t.db.tokens + [Token(user, RoleAfter(hash, s, actions, user, s.db.users[user].role), Refresh)]
  {
    ReachableOk(hash, s);
    assert TokenOk(s.db, s.db.tokens[caller]);
    hide Inv, RunAll, Legal, RoleAfter, Reachable;
    RunKeepsTokens(hash, s, actions);
    RunKeepsAccount(hash, s, actions, s.db.tokens[caller].user);
    assert RunAll(hash, s, actions).db.tokens[caller] == s.db.tokens[caller];
  }

  lemma UpsertReturnsRow(db: Db, x: Session, freshId: Uid, placeholder: string)
    requires x.Login? && x.login.Exchanged?
    ensures var (next, y) := LoginStep(db, x, UpsertUser(freshId, placeholder));
            && y.Login?
            && (y.login.HasUser? ==> y.login.account.id in next.users && y.login.account.row == next.users[y.login.account.id])
            && (!y.login.HasUser? ==> y.login.Refused?)
  {
    hide UpsertRow;
  }

  predicate Over(x: Session) {
    x.Login? && (x.login.Refused? || x.login.Explained? || x.login.Broken?)
  }

  /** A refused login never gets a profile. */
  lemma {:induction false} NeverComes(hash: string -> string, s: System, actions: seq<Action>, i: nat)
    requires i < |s.sessions| && Over(s.sessions[i])
    ensures var t := RunAll(hash, s, actions); i < |t.sessions| && Over(t.sessions[i])
    decreases |actions|
  {
    if actions != [] {
      OthersStay(hash, s, actions[0]);
      if actions[0].Of? && actions[0].i == i {
        StepEffect(hash, s, i, actions[0].step);
      }
      hide Next;
      NeverComes(hash, Next(hash, s, actions[0]), actions[1..], i);
    }
  }

  // ---- Retrying a login ----

  /** Some other account holds the email. */
  ghost predicate EmailOfAnother(users: Users, x: Session)
    requires x.Login?
  {
    exists id :: id in users && users[id].email == x.email && !HasKey(users[id], x.provider, x.providerId)
  }

  /** What the upsert of a login does. */
  lemma LoginUpsert(db: Db, x: Session, freshId: Uid, placeholder: string)
    requires Unique(db.users) && freshId !in db.users && x.Login? && x.login.Exchanged?
    ensures var (next, y) := LoginStep(db, x, UpsertUser(freshId, placeholder));
            if EmailOfAnother(db.users, x) then next == db && y == x.(login := Refused)
            else
              && next == db.(users := next.users) && y.Login? && y.login.HasUser?
              && var a := y.login.account;
                 && y == x.(login := HasUser(a))
                 && a.id in next.users && next.users[a.id] == a.row
                 && HasKey(a.row, x.provider, x.providerId) && a.row.email == x.email && a.row.name == x.name
  {
    UpsertExact(db.users, User(x.email, x.name, Member, x.provider, x.providerId), freshId);
    hide UpsertRow, Unique;
  }

  /** Main result: from any reachable state, whatever earlier attempts left behind, a
      login run to its end signs its user in with a profile exactly when no different
      account holds its email; otherwise it is refused without changing anything. */
  lemma RetryRepairs(hash: string -> string, s: System, i: nat, freshId: Uid, placeholder: string, now: int)
    requires Reachable(hash, s) && FreshStep(s.db, UpsertUser(freshId, placeholder))
    requires i < |s.sessions| && s.sessions[i].Login? && s.sessions[i].login.Exchanged?
    ensures var x := s.sessions[i];
            var up := Next(hash, s, Of(i, UpsertUser(freshId, placeholder)));
            var t := Next(hash, Next(hash, up, Of(i, EnsureProfile(now))), Of(i, Sign));
            if EmailOfAnother(s.db.users, x) then
              up == System(s.db, s.sessions[i := x.(login := Refused)])
            else
              && i < |t.sessions| && t.sessions[i].Login? && t.sessions[i].login.SignedIn?
              && var id := t.sessions[i].login.id;
                 && id in t.db.users && HasKey(t.db.users[id], x.provider, x.providerId) && t.db.users[id].email == x.email
                 && id in t.db.profiles
                 && t.db.profiles[id] == (if id in s.db.profiles then s.db.profiles[id] else ProfileStore.NewRow(x.name, now))
                 && t.db.tokens == s.db.tokens + [Token(id, t.db.users[id].role, OAuth)]
  {
    hide Next, Reachable, LoginStep;
    ReachableOk(hash, s);
    StepEffect(hash, s, i, UpsertUser(freshId, placeholder));
    LoginUpsert(s.db, s.sessions[i], freshId, placeholder);
    if !EmailOfAnother(s.db.users, s.sessions[i]) {
      var up := Next(hash, s, Of(i, UpsertUser(freshId, placeholder)));
      LoginFinish(hash, up, i, now);
    }
  }

  lemma LoginFinish(hash: string -> string, s: System, i: nat, now: int)
    requires i < |s.sessions| && s.sessions[i].Login? && s.sessions[i].login.HasUser?
    ensures var a := s.sessions[i].login.account;
            var t := Next(hash, Next(hash, s, Of(i, EnsureProfile(now))), Of(i, Sign));
            t == System(Issued(Ensured(s.db, a, now), Token(a.id, a.row.role, OAuth)),
                        s.sessions[i := s.sessions[i].(login := SignedIn(a.id))])
  {
    hide Next, Ensured, Issued;
    var x := s.sessions[i];
    var a := x.login.account;
    StepEffect(hash, s, i, EnsureProfile(now));
    var m := Next(hash, s, Of(i, EnsureProfile(now)));
    assert m == System(Ensured(s.db, a, now), s.sessions[i := x.(login := HasProfile(a))]);
    StepEffect(hash, m, i, Sign);
  }

  /** A refused login is told the provider of the account that holds its email when it
      asks, unless nobody does any more or that account has no sign-in button. */
  lemma RefusalDisclosesOwner(hash: string -> string, s: System, i: nat)
    requires Reachable(hash, s)
    requires i < |s.sessions| && s.sessions[i].Login? && s.sessions[i].login.Refused?
    ensures var email := s.sessions[i].email;
            var told := Next(hash, s, Of(i, Explain)).sessions[i].login;
            && told.Explained?
            && (forall p :: told.disclosed == Some(p) <==>
                  p != PatOnly && exists id :: id in s.db.users && s.db.users[id].email == email && s.db.users[id].provider == p)
  {
    ReachableOk(hash, s);
    StepEffect(hash, s, i, Explain);
    hide Reachable, PatsOk, TokenOk, SessionOk, Next;
  }

  // ---- Profiles ----

  /** a is an edit of the user's profile, presented with a token of that user. */
  predicate Edits(s: System, a: Action, user: Uid) {
    a.EditProfile? && a.user == user && a.caller < |s.db.tokens| && s.db.tokens[a.caller].user == user
  }

  /** What the edits of the run make of the profile. */
  ghost function RowAfter(hash: string -> string, s: System, actions: seq<Action>, user: Uid, row: Row): Row
    decreases |actions|
  {
    if actions == [] then row
    else RowAfter(hash, Next(hash, s, actions[0]), actions[1..], user, if Edits(s, actions[0], user) then actions[0].row else row)
  }

  /** The step is the EnsureProfile of a login or bootstrap of the account. */
  predicate EnsuresNow(x: Session, step: Step, id: Uid) {
    && step.EnsureProfile?
    && ((x.Login? && x.login.HasUser? && x.login.account.id == id) ||
        (x.Bootstrap? && x.boot.HasPat? && x.boot.account.id == id))
  }

  predicate Ensures(s: System, a: Action, id: Uid) {
    a.Of? && a.i < |s.sessions| && EnsuresNow(s.sessions[a.i], a.step, id)
  }

  ghost predicate EnsuredIn(hash: string -> string, s: System, actions: seq<Action>, id: Uid)
    decreases |actions|
  {
    actions != [] && (Ensures(s, actions[0], id) || EnsuredIn(hash, Next(hash, s, actions[0]), actions[1..], id))
  }

  lemma AdvanceProfile(hash: string -> string, db: Db, x: Session, step: Step, id: Uid)
    ensures var next := Advance(hash, db, x, step).0;
            && (id in next.profiles <==> id in db.profiles || EnsuresNow(x, step, id))
            && (id in db.profiles ==> next.profiles[id] == db.profiles[id])
  {
    hide UpsertRow, Lists, OwnerIn, EmailOwner, LoginStep, BootStep, ExchangeStep, CreationStep;
    match x
    case Login(_, _, _, _, _) => LoginProfile(db, x, step, id);
    case Bootstrap(_, _, _, _) => BootProfile(hash, db, x, step, id);
    case PatLogin(_, _) => ExchangeProfile(hash, db, x, step);
    case PatCreation(_, _, _, _) => CreationProfile(hash, db, x, step);
  }

  lemma LoginProfile(db: Db, x: Session, step: Step, id: Uid)
    requires x.Login?
    ensures var next := LoginStep(db, x, step).0;
            && (id in next.profiles <==> id in db.profiles || EnsuresNow(x, step, id))
            && (id in db.profiles ==> next.profiles[id] == db.profiles[id])
  {
    hide UpsertRow, EmailOwner;
  }

  lemma BootProfile(hash: string -> string, db: Db, x: Session, step: Step, id: Uid)
    requires x.Bootstrap?
    ensures var next := BootStep(hash, db, x, step).0;
            && (id in next.profiles <==> id in db.profiles || EnsuresNow(x, step, id))
            && (id in db.profiles ==> next.profiles[id] == db.profiles[id])
  {
    hide UpsertRow;
  }

  lemma ExchangeProfile(hash: string -> string, db: Db, x: Session, step: Step)
    requires x.PatLogin?
    ensures ExchangeStep(hash, db, x, step).0 == db.(tokens := ExchangeStep(hash, db, x, step).0.tokens)
  {
    hide OwnerIn, Lists;
  }

  lemma CreationProfile(hash: string -> string, db: Db, x: Session, step: Step)
    requires x.PatCreation?
    ensures CreationStep(hash, db, x, step).0.profiles == db.profiles
  {
  }

  /** What one step does to one profile. */
  lemma NextProfile(hash: string -> string, s: System, a: Action, id: Uid)
    ensures var t := Next(hash, s, a);
            && (id in t.db.profiles <==> id in s.db.profiles || Ensures(s, a, id))
            && (id in s.db.profiles ==> t.db.profiles[id] == if Edits(s, a, id) then a.row else s.db.profiles[id])
  {
    hide Advance, EnsuresNow;
    if a.Of? && a.i < |s.sessions| {
      AdvanceProfile(hash, s.db, s.sessions[a.i], a.step, id);
    }
  }

  /** Main result: after any run an account has a profile exactly when it had one before
      or some login or bootstrap of it got as far as its EnsureProfile in the run. */
  lemma {:induction false} ProfileExact(hash: string -> string, s: System, actions: seq<Action>, id: Uid)
    ensures id in RunAll(hash, s, actions).db.profiles <==> id in s.db.profiles || EnsuredIn(hash, s, actions, id)
    decreases |actions|
  {
    hide Next, Ensures;
    if actions != [] {
      NextProfile(hash, s, actions[0], id);
      ProfileExact(hash, Next(hash, s, actions[0]), actions[1..], id);
    }
  }

  /** Main result: once created, a profile is what the last edit presented with a token of
      its owner made it: every such edit takes effect, no other does, and no login,
      however often repeated, overwrites them. */
  lemma {:induction false} EditsSurvive(hash: string -> string, s: System, actions: seq<Action>, user: Uid)
    requires user in s.db.profiles
    ensures var t := RunAll(hash, s, actions);
            user in t.db.profiles && t.db.profiles[user] == RowAfter(hash, s, actions, user, s.db.profiles[user])
    decreases |actions|
  {
    hide Next, Ensures, Edits;
    if actions != [] {
      NextProfile(hash, s, actions[0], user);
      EditsSurvive(hash, Next(hash, s, actions[0]), actions[1..], user);
    }
  }

  /** An admin had a PAT made for the user. */
  ghost predicate MadeByAdmin(s: System, user: Uid) {
    exists x <- s.sessions :: x.PatCreation? && x.creation.Created? && x.user == user
  }

  /** Every grant is a bootstrap's or was made on an admin's request. */
  ghost predicate GrantsExplained(s: System) {
    forall id <- s.db.made ::
      s.db.made[id].user in s.db.users &&
      (s.db.users[s.db.made[id].user].provider == PatOnly || MadeByAdmin(s, s.db.made[id].user))
  }

  lemma MadeKept(hash: string -> string, s: System, a: Action, user: Uid)
    requires MadeByAdmin(s, user)
    ensures MadeByAdmin(Next(hash, s, a), user)
  {
    var x :| x in s.sessions && x.PatCreation? && x.creation.Created? && x.user == user;
    var k :| 0 <= k < |s.sessions| && s.sessions[k] == x;
    OthersStay(hash, s, a);
    if a.Of? && a.i == k {
      StepEffect(hash, s, k, a.step);
    }
    hide Next;
    assert Next(hash, s, a).sessions[k] == x;
  }

  /** A grant made by this very step. */
  lemma NewGrant(hash: string -> string, s: System, a: Action, id: PatId)
    requires Inv(hash, s) && Fresh(s, a) && id in Next(hash, s, a).db.made && id !in s.db.made
    ensures var t := Next(hash, s, a);
            var u := t.db.made[id].user;
            u in t.db.users && (t.db.users[u].provider == PatOnly || MadeByAdmin(t, u))
  {
    hide UpsertRow, Lists, OwnerIn, EmailOwner, DbOk, MadeByAdmin;
    assert a.Of? && a.i < |s.sessions| && a.step.SavePat?;
    var x := s.sessions[a.i];
    assert SessionOk(s.db, x);
    if x.PatCreation? {
      CreatedNow(hash, s, a);
    }
  }

  lemma CreatedNow(hash: string -> string, s: System, a: Action)
    requires a.Of? && a.i < |s.sessions| && a.step.SavePat?
    requires s.sessions[a.i].PatCreation? && s.sessions[a.i].creation.OwnerFound?
    ensures MadeByAdmin(Next(hash, s, a), s.sessions[a.i].user)
  {
    StepEffect(hash, s, a.i, a.step);
    hide Next;
    var t := Next(hash, s, a);
    assert t.sessions[a.i] in t.sessions;
  }

  lemma NextExplains(hash: string -> string, s: System, a: Action)
    requires Inv(hash, s) && Fresh(s, a) && GrantsExplained(s)
    ensures GrantsExplained(Next(hash, s, a))
  {
    hide Next, Inv, Fresh, MadeByAdmin;
    NextOk(hash, s, a);
    var t := Next(hash, s, a);
    forall id | id in t.db.made
      ensures t.db.made[id].user in t.db.users
      ensures t.db.users[t.db.made[id].user].provider == PatOnly || MadeByAdmin(t, t.db.made[id].user)
    {
      if id !in s.db.made {
        NewGrant(hash, s, a, id);
      } else if MadeByAdmin(s, s.db.made[id].user) {
        MadeKept(hash, s, a, s.db.made[id].user);
      }
    }
  }

  lemma {:induction false} RunExplains(hash: string -> string, s: System, actions: seq<Action>)
    requires Inv(hash, s) && Legal(hash, s, actions) && GrantsExplained(s)
    ensures GrantsExplained(RunAll(hash, s, actions))
    decreases |actions|
  {
    hide Inv, Next, Fresh, GrantsExplained;
    if actions != [] {
      NextOk(hash, s, actions[0]);
      NextExplains(hash, s, actions[0]);
      RunExplains(hash, Next(hash, s, actions[0]), actions[1..]);
    }
  }

  /** Main result: the user of a token has a profile exactly when some login or bootstrap
      of theirs got as far as EnsureProfile. A token without a profile never comes
      from a login; it goes back to a PAT, which is that of a bootstrap account or was
      made by an admin for an account whose logins all stopped short. */
  lemma TokenProfileExact(hash: string -> string, s: System, actions: seq<Action>, t: Token)
    requires Initial(s) && Legal(hash, s, actions) && t in RunAll(hash, s, actions).db.tokens
    ensures var end := RunAll(hash, s, actions);
            && t.user in end.db.users
            && (t.user in end.db.profiles <==> EnsuredIn(hash, s, actions, t.user))
            && (t.user !in end.db.profiles ==>
                  && t.via != OAuth && Granted(end.db, t.user)
                  && (end.db.users[t.user].provider == PatOnly || MadeByAdmin(end, t.user))
                  && (forall x <- end.sessions :: x.Login? && x.login.SignedIn? ==> x.login.id != t.user)
                  && (forall x <- end.sessions :: x.Bootstrap? && x.boot.Finished? ==> x.boot.id != t.user))
  {
    InitialOk(hash, s);
    RunOk(hash, s, actions);
    RunExplains(hash, s, actions);
    ProfileExact(hash, s, actions, t.user);
    var end := RunAll(hash, s, actions);
    hide RunAll, Legal, Initial, EnsuredIn, Unique, PatsOk, MadeByAdmin;
    assert TokenOk(end.db, t);
    assert forall x <- end.sessions :: SessionOk(end.db, x);
  }

  /** In particular every token a login ever issued belongs to a user with a profile. */
  lemma OAuthTokensHaveProfiles(hash: string -> string, s: System, t: Token)
    requires Reachable(hash, s) && t in s.db.tokens && t.via == OAuth
    ensures t.user in s.db.users && t.user in s.db.profiles
  {
    ReachableOk(hash, s);
    assert TokenOk(s.db, t);
  }

  // ---- The login as the manager runs it ----

  class AuthManager {
    const accounts: UserManager
    const profiles: ProfileStore.ProfileRepository
    var issued: seq<Token>

    constructor (accounts: UserManager, profiles: ProfileStore.ProfileRepository)
      ensures this.accounts == accounts && this.profiles == profiles && issued == []
    {
      this.accounts, this.profiles, this.issued := accounts, profiles, [];
    }

    /** The redirect and device logins after the provider has vouched for the identity:
        account, profile, token, in this order, stopping at the first failure. */
    method SignIn(provider: Provider, providerId: string, email: string, name: string, freshId: Uid, now: int)
      returns (r: Result<Uid, SignInError>)
      requires accounts.users.Valid() && freshId !in accounts.users.users
      modifies this, accounts.users, profiles
      ensures accounts.users.Valid()
      ensures r.Err? <==> exists id :: id in old(accounts.users.users) && old(accounts.users.users)[id].email == email
                                       && !HasKey(old(accounts.users.users)[id], provider, providerId)
      ensures r.Err? ==> accounts.users.users == old(accounts.users.users) && profiles.table == old(profiles.table)
                         && issued == old(issued)
      ensures r.Ok? ==>
                && r.value in accounts.users.users && HasKey(accounts.users.users[r.value], provider, providerId)
                && profiles.table == (if r.value in old(profiles.table) then old(profiles.table)
                                      else old(profiles.table)[r.value := ProfileStore.NewRow(name, now)])
                && issued == old(issued) + [Token(r.value, accounts.users.users[r.value].role, OAuth)]
    {
      UpsertExact(accounts.users.users, User(email, name, Member, provider, providerId), freshId);
      var u := accounts.ResolveByOAuth(provider, providerId, email, name, freshId);
      if u.Err? {
        return Err(u.error);
      }
      profiles.EnsureExists(u.value.id, u.value.row.name, now);
      issued := issued + [Token(u.value.id, u.value.row.role, OAuth)];
      return Ok(u.value.id);
    }
  }
}
