/** What a personal access token is worth over whole runs of the system. */
module PatRuns {
  import opened Wrappers
  import opened Accounts
  import opened Sessions

  /** What the stored PATs were made for. */
  ghost function Live(db: Db): map<PatId, Grant> {
    map id | id in db.pats && id in db.made :: db.made[id]
  }

  /** g has not expired. */
  predicate Valid(g: Grant, now: int) {
    g.expiresAt.Some? ==> now <= g.expiresAt.value
  }

  lemma LiveStores(hash: string -> string, db: Db)
    requires PatsOk(hash, db)
    ensures Stores(hash, db.users, db.pats, Live(db))
    ensures forall id <- db.pats :: id in Live(db) && db.pats[id].expiresAt == Live(db)[id].expiresAt
  {
  }

  /** The first query of an exchange names u exactly when a live, valid grant of u has
      the presented key. */
  lemma ListPatsExact(hash: string -> string, s: System, i: nat, rows: seq<Pat>, now: int)
    requires Injective(hash) && Inv(hash, s) && DistinctKeys(Live(s.db)) && Lists(s.db.pats, rows)
    requires i < |s.sessions| && s.sessions[i].PatLogin? && s.sessions[i].exchange.Presented?
    ensures var raw := s.sessions[i].raw;
            var live := Live(s.db);
            var y := Next(hash, s, Of(i, ListPats(rows, now))).sessions[i];
            && y.PatLogin? && (y.exchange.Matched? || y.exchange.Rejected?)
            && (forall u :: y.exchange == Matched(u) <==>
                  exists id :: id in live && live[id].rawKey == raw && live[id].user == u && Valid(live[id], now))
            && (y.exchange == Rejected(InvalidPat) <==> forall id <- live :: live[id].rawKey != raw)
            && (y.exchange.Rejected? ==> y.exchange.error != OwnerMissing)
  {
    hide Lists, OwnerIn, Injective, DistinctKeys, Next, DbOk, SessionOk, Live, Valid;
    assert PatsOk(hash, s.db) by { DbPatsOk(hash, s.db); }
    LiveOwner(hash, s.db, rows, s.sessions[i].raw, now);
    StepEffect(hash, s, i, ListPats(rows, now));
    var x := s.sessions[i];
    var out := OwnerIn(hash, rows, x.raw, now);
    var phase := if out.Ok? then Matched(out.value) else Rejected(out.error);
    assert Next(hash, s, Of(i, ListPats(rows, now))).sessions[i] == x.(exchange := phase);
    assert forall u :: phase == Matched(u) <==> out == Ok(u);
  }

  lemma DbPatsOk(hash: string -> string, db: Db)
    requires DbOk(hash, db)
    ensures PatsOk(hash, db)
  {
  }

  /** OwnerExact in terms of what the PATs were made for. */
  lemma LiveOwner(hash: string -> string, db: Db, rows: seq<Pat>, raw: string, now: int)
    requires Injective(hash) && PatsOk(hash, db) && DistinctKeys(Live(db)) && Lists(db.pats, rows)
    ensures var live := Live(db);
            var out := OwnerIn(hash, rows, raw, now);
            && (forall u :: out == Ok(u) <==>
                  exists id :: id in live && live[id].rawKey == raw && live[id].user == u && Valid(live[id], now))
            && (out == Err(InvalidPat) <==> forall id <- live :: live[id].rawKey != raw)
            && out != Err(OwnerMissing)
  {
    hide Lists, OwnerIn, Injective, DistinctKeys;
    LiveStores(hash, db);
    var live := Live(db);
    assert forall id <- live :: id in db.pats && (db.pats[id].IsExpired(now) <==> !Valid(live[id], now));
    hide PatsOk, Live, Stores, Valid;
    OwnerExact(hash, db.users, db.pats, live, rows, raw, now);
  }

  /** Main result: an exchange whose two queries surround any other steps, revocations and
      role changes included, gives a token for u exactly when a live, valid grant of u
      had the key at the first query; the token carries the role u has at the second. */
  lemma PatsResolveToTheirUser(hash: string -> string, s: System, i: nat, rows: seq<Pat>, now: int, between: seq<Action>)
    requires Injective(hash) && Reachable(hash, s) && DistinctKeys(Live(s.db)) && Lists(s.db.pats, rows)
    requires i < |s.sessions| && s.sessions[i].PatLogin? && s.sessions[i].exchange.Presented?
    requires var m := Next(hash, s, Of(i, ListPats(rows, now)));
             && Legal(hash, m, between)
             && i < |m.sessions| && i < |RunAll(hash, m, between).sessions|
             && RunAll(hash, m, between).sessions[i] == m.sessions[i]
    ensures var raw := s.sessions[i].raw;
            var live := Live(s.db);
            var t := RunAll(hash, Next(hash, s, Of(i, ListPats(rows, now))), between);
            var end := Next(hash, t, Of(i, LoadUser));
            if exists id :: id in live && live[id].rawKey == raw && Valid(live[id], now) then
              exists id :: id in live && live[id].rawKey == raw && Valid(live[id], now)
                && live[id].user in t.db.users
                && end.db == Issued(t.db, Token(live[id].user, t.db.users[live[id].user].role, PatExchange))
            else end.db == t.db
  {
    hide Next, RunAll, Legal, Inv, Reachable, Live, Lists, Injective, DistinctKeys, Issued;
    ReachableOk(hash, s);
    ListPatsExact(hash, s, i, rows, now);
    var m := Next(hash, s, Of(i, ListPats(rows, now)));
    NextOk(hash, s, Of(i, ListPats(rows, now)));
    RunOk(hash, m, between);
    var t := RunAll(hash, m, between);
    LoadUserExact(hash, t, i);
    var raw, live := s.sessions[i].raw, Live(s.db);
    assert forall id <- live ::
        live[id].rawKey == raw && Valid(live[id], now) ==> m.sessions[i].exchange == Matched(live[id].user);
    if m.sessions[i].exchange.Matched? {
      var u := m.sessions[i].exchange.user;
      assert m.sessions[i].exchange == Matched(u);
      var id :| id in live && live[id].rawKey == raw && live[id].user == u && Valid(live[id], now);
    }
  }

  /** The second query of an exchange. */
  lemma LoadUserExact(hash: string -> string, t: System, i: nat)
    requires Inv(hash, t) && i < |t.sessions| && t.sessions[i].PatLogin?
    ensures var phase := t.sessions[i].exchange;
            var end := Next(hash, t, Of(i, LoadUser));
            && (phase.Matched? ==>
                  && phase.user in t.db.users
                  && end.db == Issued(t.db, Token(phase.user, t.db.users[phase.user].role, PatExchange)))
            && (phase.Rejected? ==> end.db == t.db)
  {
    assert SessionOk(t.db, t.sessions[i]);
    StepEffect(hash, t, i, LoadUser);
    hide Next, DbOk, Issued;
  }

  // ---- Making a PAT ----

  /** Main result: a request for a PAT, whose two round trips surround any other steps,
      stores one, with the salted hash of its key, for the user and until the time asked
      for, exactly when it was presented with an admin's token and the user existed. */
  lemma CreatePatExact(hash: string -> string, s: System, i: nat, caller: nat, between: seq<Action>, patId: PatId, salt: string)
    requires i < |s.sessions| && s.sessions[i].PatCreation? && s.sessions[i].creation.Asked?
    requires var m := Next(hash, s, Of(i, FindOwner(caller)));
             i < |m.sessions| && i < |RunAll(hash, m, between).sessions| && RunAll(hash, m, between).sessions[i] == m.sessions[i]
    ensures var x := s.sessions[i];
            var m := Next(hash, s, Of(i, FindOwner(caller)));
            var t := RunAll(hash, m, between);
            var end := Next(hash, t, Of(i, SavePat(patId, salt)));
            var allowed := caller < |s.db.tokens| && s.db.tokens[caller].role == Admin;
            && (if allowed && x.user in s.db.users then
                  end.db == t.db.(pats := t.db.pats[patId := Pat(x.user, hash(x.rawKey + salt), salt, x.expiresAt)],
                                  made := t.db.made[patId := Grant(x.user, x.rawKey, x.expiresAt)])
                else end.db == t.db)
            && (!allowed ==> m.sessions[i].creation == Forbidden)
            && (allowed && x.user !in s.db.users ==> m.sessions[i].creation == NoOwner)
  {
    StepEffect(hash, s, i, FindOwner(caller));
    hide Next, RunAll;
    var m := Next(hash, s, Of(i, FindOwner(caller)));
    StepEffect(hash, RunAll(hash, m, between), i, SavePat(patId, salt));
  }

  // ---- Grants ----

  /** a is an admin's revocation of the PAT. */
  predicate Revokes(s: System, a: Action, id: PatId) {
    a.RevokePat? && a.patId == id && AdminToken(s.db, a.caller)
  }

  ghost predicate RevokedIn(hash: string -> string, s: System, actions: seq<Action>, id: PatId)
    decreases |actions|
  {
    actions != [] && (Revokes(s, actions[0], id) || RevokedIn(hash, Next(hash, s, actions[0]), actions[1..], id))
  }

  lemma AdvancePat(hash: string -> string, db: Db, x: Session, step: Step, id: PatId)
    requires FreshStep(db, step) && id in db.made
    ensures var next := Advance(hash, db, x, step).0;
            && (id in next.pats <==> id in db.pats)
            && (id in db.pats ==> next.pats[id] == db.pats[id])
            && id in next.made && next.made[id] == db.made[id]
  {
    hide UpsertRow, Lists, OwnerIn, EmailOwner, LoginStep, BootStep, ExchangeStep, CreationStep;
    match x
    case Login(_, _, _, _, _) => LoginPats(db, x, step);
    case Bootstrap(_, _, _, _) => BootPats(hash, db, x, step, id);
    case PatLogin(_, _) => ExchangePats(hash, db, x, step);
    case PatCreation(_, _, _, _) => CreationPats(hash, db, x, step, id);
  }

  lemma LoginPats(db: Db, x: Session, step: Step)
    requires x.Login?
    ensures LoginStep(db, x, step).0.pats == db.pats && LoginStep(db, x, step).0.made == db.made
  {
    hide UpsertRow, EmailOwner;
  }

  lemma BootPats(hash: string -> string, db: Db, x: Session, step: Step, id: PatId)
    requires x.Bootstrap? && FreshStep(db, step) && id in db.made
    ensures var next := BootStep(hash, db, x, step).0;
            && (id in next.pats <==> id in db.pats)
            && (id in db.pats ==> next.pats[id] == db.pats[id])
            && id in next.made && next.made[id] == db.made[id]
  {
    hide UpsertRow;
  }

  lemma ExchangePats(hash: string -> string, db: Db, x: Session, step: Step)
    requires x.PatLogin?
    ensures ExchangeStep(hash, db, x, step).0 == db.(tokens := ExchangeStep(hash, db, x, step).0.tokens)
  {
    hide OwnerIn, Lists;
  }

  lemma CreationPats(hash: string -> string, db: Db, x: Session, step: Step, id: PatId)
    requires x.PatCreation? && FreshStep(db, step) && id in db.made
    ensures var next := CreationStep(hash, db, x, step).0;
            && (id in next.pats <==> id in db.pats)
            && (id in db.pats ==> next.pats[id] == db.pats[id])
            && id in next.made && next.made[id] == db.made[id]
  {
  }

  lemma NextPat(hash: string -> string, s: System, a: Action, id: PatId)
    requires Fresh(s, a) && id in s.db.made
    ensures var t := Next(hash, s, a);
            && (id in t.db.pats <==> id in s.db.pats && !Revokes(s, a, id))
            && (id in t.db.pats ==> t.db.pats[id] == s.db.pats[id])
            && id in t.db.made && t.db.made[id] == s.db.made[id]
  {
    hide Advance;
    if a.Of? && a.i < |s.sessions| {
      AdvancePat(hash, s.db, s.sessions[a.i], a.step, id);
    }
  }

  /** Once made, a PAT is live exactly until an admin revokes it; its id is never used
      again, and neither its row nor what it was made for ever changes. */
  lemma {:induction false} GrantsArePermanent(hash: string -> string, s: System, actions: seq<Action>, id: PatId)
    requires Legal(hash, s, actions) && id in s.db.made
    ensures var t := RunAll(hash, s, actions);
            && id in t.db.made && t.db.made[id] == s.db.made[id]
            && (id in t.db.pats <==> id in s.db.pats && !RevokedIn(hash, s, actions, id))
            && (id in t.db.pats ==> t.db.pats[id] == s.db.pats[id])
    decreases |actions|
  {
    hide Next, Revokes, Fresh;
    if actions != [] {
      NextPat(hash, s, actions[0], id);
      GrantsArePermanent(hash, Next(hash, s, actions[0]), actions[1..], id);
    }
  }
}
