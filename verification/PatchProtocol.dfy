/** Concurrent PATCH requests: each reads the row, vets its patch against what it
    read, and later writes in one atomic guarded step. */
module PatchProtocol {
  import opened Wrappers
  import opened JsonMergePatch
  import opened Dates
  import opened Location
  import opened Profile
  import opened PatchParser
  import opened LocationRules
  import opened UpdateSql
  import opened ProfileStore
  import opened PatchSemantics
  import opened PatchRequests

  /** HasSnapshot holds what the request read and the patch it is about to write. */
  datatype Phase =
    | Start
    | HasSnapshot(snapshot: Row, ruled: ProfilePatch)
    | Done(answer: Result<Row, ServiceError>)

  datatype Request = Request(user: Uid, members: map<string, Json>, phase: Phase)

  /** What the committed steps did to the table, oldest first. */
  datatype Entry =
    | Created(user: Uid, displayName: string, now: int)
    | Committed(user: Uid, patch: ProfilePatch, now: int)

  datatype System = System(table: map<Uid, Row>, requests: seq<Request>, log: seq<Entry>)

  /** Read and Write are the two database round trips of request i; Ensure is the
      profile creation a login performs. */
  datatype Action =
    | Read(i: nat)
    | Write(i: nat, now: int)
    | Ensure(user: Uid, displayName: string, now: int)

  /** Parsing, the read and the rules. */
  ghost function AfterRead(iso: Iso, table: map<Uid, Row>, r: Request): Phase {
    match ParsePatch(r.members)
    case Err(e) => Done(Err(BadRequest(e)))
    case Ok(patch) =>
      if r.user !in table then Done(Err(NoProfile))
      else if patch.IsEmpty() then Done(Ok(table[r.user]))
      else
        match ApplyLocationRules(iso, table[r.user], patch)
        case Err(e) => Done(Err(InvalidLocation(e)))
        case Ok(ruled) => HasSnapshot(table[r.user], ruled)
  }

  ghost function Next(iso: Iso, s: System, a: Action): System {
    match a
    case Read(i) =>
      if i < |s.requests| && s.requests[i].phase.Start? then
        s.(requests := s.requests[i := s.requests[i].(phase := AfterRead(iso, s.table, s.requests[i]))])
      else s
    case Write(i, now) =>
      if i < |s.requests| && s.requests[i].phase.HasSnapshot? then
        var r := s.requests[i];
        match WriteResult(s.table, r.user, r.phase.ruled, now)
        case Ok(row) =>
          System(s.table[r.user := row], s.requests[i := r.(phase := Done(Ok(row)))],
                 s.log + [Committed(r.user, r.phase.ruled, now)])
        case Err(e) => s.(requests := s.requests[i := r.(phase := Done(Err(Reported(e))))])
      else s
    case Ensure(user, displayName, now) =>
      if user in s.table then s
      else s.(table := s.table[user := NewRow(displayName, now)], log := s.log + [Created(user, displayName, now)])
  }

  ghost function RunAll(iso: Iso, s: System, actions: seq<Action>): System
    decreases |actions|
  {
    if actions == [] then s else RunAll(iso, Next(iso, s, actions[0]), actions[1..])
  }

  /** Any valid table, any number of requests, none of which has begun. */
  ghost predicate Initial(iso: Iso, s: System) {
    && (forall u <- s.table :: RowValid(iso, s.table[u]))
    && (forall r <- s.requests :: r.phase.Start?)
    && s.log == []
  }

  ghost predicate RequestOk(iso: Iso, table: map<Uid, Row>, r: Request) {
    match r.phase
    case Start => true
    case HasSnapshot(snapshot, ruled) =>
      && r.user in table
      && RowValid(iso, snapshot)
      && EnumsValid(ruled) && !ruled.IsEmpty()
      && Vetted(iso, snapshot.country, ruled)
      && LocationValid(iso, Apply(ruled, snapshot, 0).country, Apply(ruled, snapshot, 0).region)
    case Done(answer) => answer != Err(Failed) && (answer.Ok? ==> RowValid(iso, answer.value))
  }

  ghost predicate Inv(iso: Iso, s: System) {
    && (forall u <- s.table :: RowValid(iso, s.table[u]))
    && (forall i | 0 <= i < |s.requests| :: RequestOk(iso, s.table, s.requests[i]))
  }

  lemma ReadKeepsRequest(iso: Iso, table: map<Uid, Row>, r: Request)
    requires forall u <- table :: RowValid(iso, table[u])
    ensures RequestOk(iso, table, r.(phase := AfterRead(iso, table, r)))
  {
    ParseExact(r.members);
    hide ParsePatch;
    if ParsePatch(r.members).Ok? && r.user in table && !ParsePatch(r.members).value.IsEmpty() {
      RulesExact(iso, table[r.user], ParsePatch(r.members).value, 0);
      if ApplyLocationRules(iso, table[r.user], ParsePatch(r.members).value).Ok? {
        RulesVet(iso, table[r.user], ParsePatch(r.members).value);
      }
    }
  }

  /** The write of a vetted patch over whatever the row has become. */
  lemma WriteExact(iso: Iso, table: map<Uid, Row>, id: Uid, snapshot: Row, ruled: ProfilePatch, now: int)
    requires id in table && RowValid(iso, table[id])
    requires EnumsValid(ruled) && !ruled.IsEmpty() && Vetted(iso, snapshot.country, ruled)
    ensures var out := WriteResult(table, id, ruled, now);
            && (out.Err? <==> Collides(snapshot.country, ruled, table[id]))
            && (out.Err? ==> out.error == Conflict)
            && (out.Ok? ==> RowValid(iso, out.value) && out.value == Apply(ruled, table[id], now))
  {
    ApplyKeepsEnums(iso, ruled, table[id], now);
    CheckClosesTheGap(iso, snapshot.country, ruled, table[id], now);
  }

  lemma NextKeepsInv(iso: Iso, s: System, a: Action)
    requires Inv(iso, s)
    ensures Inv(iso, Next(iso, s, a))
    ensures s.table.Keys <= Next(iso, s, a).table.Keys
  {
    hide ParsePatch, RowValid, AfterRead, EnumsValid, Vetted;
    match a
    case Read(i) =>
      if i < |s.requests| && s.requests[i].phase.Start? {
        ReadKeepsRequest(iso, s.table, s.requests[i]);
      }
    case Write(i, now) =>
      if i < |s.requests| && s.requests[i].phase.HasSnapshot? {
        var r := s.requests[i];
        WriteExact(iso, s.table, r.user, r.phase.snapshot, r.phase.ruled, now);
      }
    case Ensure(user, displayName, now) =>
      NewRowValid(iso, displayName, now);
  }

  lemma NewRowValid(iso: Iso, displayName: string, now: int)
    ensures RowValid(iso, NewRow(displayName, now))
  {
  }

  lemma {:induction false} RunKeepsInv(iso: Iso, s: System, actions: seq<Action>)
    requires Inv(iso, s)
    ensures Inv(iso, RunAll(iso, s, actions))
    ensures s.table.Keys <= RunAll(iso, s, actions).table.Keys
    decreases |actions|
  {
    if actions != [] {
      NextKeepsInv(iso, s, actions[0]);
      RunKeepsInv(iso, Next(iso, s, actions[0]), actions[1..]);
    }
  }

  lemma ReachedOk(iso: Iso, s: System, actions: seq<Action>)
    requires Initial(iso, s)
    ensures Inv(iso, RunAll(iso, s, actions))
  {
    RunKeepsInv(iso, s, actions);
  }

  /** Safety: whatever the interleaving of reads, writes and profile creations, every
      row and every answered row has a fully valid location, although the write only
      tests a prefix; and no request fails internally. */
  lemma LocationsStayValid(iso: Iso, s: System, actions: seq<Action>)
    requires Initial(iso, s)
    ensures var t := RunAll(iso, s, actions);
            && (forall u <- t.table :: LocationValid(iso, t.table[u].country, t.table[u].region))
            && (forall r <- t.requests :: r.phase.Done? ==>
                  && r.phase.answer != Err(Failed)
                  && (r.phase.answer.Ok? ==>
                        LocationValid(iso, r.phase.answer.value.country, r.phase.answer.value.region)))
  {
    RunKeepsInv(iso, s, actions);
  }

  // ---- Conflicts ----

  /** In every reachable state, the next write of a request that has read conflicts
      exactly when it collides with the row as it is now; the row's country or
      region then differs from what the request read. */
  lemma ConflictExact(iso: Iso, s: System, actions: seq<Action>, i: nat, now: int)
    requires Initial(iso, s)
    requires var t := RunAll(iso, s, actions); i < |t.requests| && t.requests[i].phase.HasSnapshot?
    ensures var t := RunAll(iso, s, actions);
            var r := t.requests[i];
            var after := Next(iso, t, Write(i, now)).requests[i].phase;
            && r.user in t.table && after.Done?
            && (after.answer == Err(ChangedConcurrently) <==>
                  Collides(r.phase.snapshot.country, r.phase.ruled, t.table[r.user]))
            && (after.answer == Err(ChangedConcurrently) ==>
                  (t.table[r.user].country, t.table[r.user].region)
                  != (r.phase.snapshot.country, r.phase.snapshot.region))
            && (after.answer != Err(ChangedConcurrently) ==> after.answer.Ok?)
  {
    RunKeepsInv(iso, s, actions);
    var t := RunAll(iso, s, actions);
    var r := t.requests[i];
    WriteExact(iso, t.table, r.user, r.phase.snapshot, r.phase.ruled, now);
    CheckClosesTheGap(iso, r.phase.snapshot.country, r.phase.ruled, r.phase.snapshot, 0);
    ValidPassesCheck(iso, Apply(r.phase.ruled, r.phase.snapshot, 0).country, Apply(r.phase.ruled, r.phase.snapshot, 0).region);
  }

  // ---- No lost updates ----

  /** A column of the profile, or one key of its preferences. */
  datatype Slot = Member(name: string) | Preference(key: string)

  function Get(row: Row, slot: Slot): Option<Json> {
    match slot
    case Member(name) => if name == "preferences" then None else Shown(row, name)
    case Preference(key) => if key in row.preferences then Some(row.preferences[key]) else None
  }

  function WrittenText(f: Field<string>): Option<Option<Json>> {
    match f
    case Unchanged => None
    case Cleared => Some(None)
    case SetTo(v) => Some(Some(JString(v)))
  }

  /** What a patch writes into a slot; None when it does not touch it. Clearing all
      preferences touches every key, also those the API does not know. */
  function Written(p: ProfilePatch, slot: Slot): Option<Option<Json>> {
    match slot
    case Member(name) =>
      if name == "display_name" then
        if p.displayName.Some? then Some(Some(JString(p.displayName.value))) else None
      else if name == "city" then WrittenText(p.city)
      else if name == "region" then WrittenText(p.region)
      else if name == "country" then WrittenText(p.country)
      else if name == "gender" then WrittenText(p.gender)
      else if name == "date_of_birth" then
        match p.dateOfBirth
        case Unchanged => None
        case Cleared => Some(None)
        case SetTo(d) => Some(Some(JString(FormatDate(d))))
      else if name == "category" then WrittenText(p.category)
      else None
    case Preference(key) =>
      var f := if key == "court_side" then p.preferences.courtSide
               else if key == "handedness" then p.preferences.handedness
               else Unchanged;
      if f.IsSet() then WrittenText(f) else if p.preferences.clear then Some(None) else None
  }

  lemma GetAfterApply(p: ProfilePatch, row: Row, now: int, slot: Slot)
    ensures Get(Apply(p, row, now), slot)
            == if Written(p, slot).Some? then Written(p, slot).value else Get(row, slot)
  {
  }

  function EntryWrites(e: Entry, slot: Slot): Option<Option<Json>> {
    match e
    case Created(_, displayName, _) => Some(Get(NewRow(displayName, 0), slot))
    case Committed(_, patch, _) => Written(patch, slot)
  }

  /** What the last entry for user that touched the slot left in it. */
  function LastWrite(log: seq<Entry>, user: Uid, slot: Slot): Option<Option<Json>> {
    if log == [] then None
    else
      var e := log[|log| - 1];
      if e.user == user && EntryWrites(e, slot).Some? then EntryWrites(e, slot)
      else LastWrite(log[..|log| - 1], user, slot)
  }

  /** What a slot must hold after the log, starting from table0. */
  function Expected(table0: map<Uid, Row>, log: seq<Entry>, user: Uid, slot: Slot): Option<Json> {
    if LastWrite(log, user, slot).Some? then LastWrite(log, user, slot).value
    else if user in table0 then Get(table0[user], slot)
    else None
  }

  ghost predicate LogExplains(table0: map<Uid, Row>, s: System) {
    forall user, slot: Slot | user in s.table :: Get(s.table[user], slot) == Expected(table0, s.log, user, slot)
  }

  /** A committed or creating step extends the explanation. */
  lemma ExtendLog(table0: map<Uid, Row>, s: System, e: Entry, row: Row)
    requires LogExplains(table0, s)
    requires e.Created? ==> e.user !in s.table && row == NewRow(e.displayName, e.now)
    requires e.Committed? ==> e.user in s.table && row == Apply(e.patch, s.table[e.user], e.now)
    ensures LogExplains(table0, s.(table := s.table[e.user := row], log := s.log + [e]))
  {
    var t := s.(table := s.table[e.user := row], log := s.log + [e]);
    assert t.log[..|t.log| - 1] == s.log;
    forall user, slot: Slot | user in t.table
      ensures Get(t.table[user], slot) == Expected(table0, t.log, user, slot)
    {
      if user == e.user && e.Committed? {
        GetAfterApply(e.patch, s.table[user], e.now, slot);
      }
      hide Get, Written, Apply;
    }
  }

  lemma NextKeepsLog(iso: Iso, table0: map<Uid, Row>, s: System, a: Action)
    requires Inv(iso, s) && LogExplains(table0, s)
    ensures LogExplains(table0, Next(iso, s, a))
  {
    hide LogExplains, RowValid, EnumsValid, Vetted, AfterRead, LocationValid;
    var t := Next(iso, s, a);
    if a.Write? && a.i < |s.requests| && s.requests[a.i].phase.HasSnapshot? {
      var r := s.requests[a.i];
      WriteExact(iso, s.table, r.user, r.phase.snapshot, r.phase.ruled, a.now);
      if WriteResult(s.table, r.user, r.phase.ruled, a.now).Ok? {
        var row := Apply(r.phase.ruled, s.table[r.user], a.now);
        ExtendLog(table0, s, Committed(r.user, r.phase.ruled, a.now), row);
        SameExplanation(table0, s.(table := t.table, log := t.log), t);
      } else {
        SameExplanation(table0, s, t);
      }
    } else if a.Ensure? && a.user !in s.table {
      ExtendLog(table0, s, Created(a.user, a.displayName, a.now), NewRow(a.displayName, a.now));
    } else {
      SameExplanation(table0, s, t);
    }
  }

  lemma SameExplanation(table0: map<Uid, Row>, s: System, t: System)
    requires LogExplains(table0, s) && t.table == s.table && t.log == s.log
    ensures LogExplains(table0, t)
  {
  }

  lemma {:induction false} RunKeepsLog(iso: Iso, table0: map<Uid, Row>, s: System, actions: seq<Action>)
    requires Inv(iso, s) && LogExplains(table0, s)
    ensures LogExplains(table0, RunAll(iso, s, actions))
    decreases |actions|
  {
    hide LogExplains, Inv, Next;
    if actions != [] {
      NextKeepsInv(iso, s, actions[0]);
      NextKeepsLog(iso, table0, s, actions[0]);
      RunKeepsLog(iso, table0, Next(iso, s, actions[0]), actions[1..]);
    }
  }

  /** No lost updates: after any interleaving every column and every preference key
      holds what the last committed patch that touched it wrote, or else what the
      row started with. */
  lemma NoLostUpdates(iso: Iso, s: System, actions: seq<Action>, user: Uid, slot: Slot)
    requires Initial(iso, s)
    requires user in RunAll(iso, s, actions).table
    ensures var t := RunAll(iso, s, actions);
            && Get(t.table[user], slot) == Expected(s.table, t.log, user, slot)
            && (user !in s.table ==> LastWrite(t.log, user, slot).Some?)
  {
    RunKeepsLog(iso, s.table, s, actions);
    if user !in s.table {
      CreationLogged(iso, s, s, actions, user, slot);
    }
  }

  lemma {:induction false} CreationLogged(iso: Iso, s0: System, s: System, actions: seq<Action>, user: Uid, slot: Slot)
    requires user in s.table && user !in s0.table ==> LastWrite(s.log, user, slot).Some?
    requires user in RunAll(iso, s, actions).table && user !in s0.table
    ensures LastWrite(RunAll(iso, s, actions).log, user, slot).Some?
    decreases |actions|
  {
    if actions != [] {
      var t := Next(iso, s, actions[0]);
      if |t.log| > |s.log| {
        assert t.log[..|t.log| - 1] == s.log;
      }
      CreationLogged(iso, s0, t, actions[1..], user, slot);
    }
  }

  predicate Touches(e: Entry, user: Uid, slot: Slot) {
    e.user == user && EntryWrites(e, slot).Some?
  }

  /** During a run a slot changes only if one of the run's entries touches it. */
  lemma {:induction false} UntouchedSlot(iso: Iso, s: System, actions: seq<Action>, user: Uid, slot: Slot)
    requires Inv(iso, s) && user in s.table
    ensures var t := RunAll(iso, s, actions);
            && user in t.table && s.log <= t.log
            && (Get(t.table[user], slot) != Get(s.table[user], slot) ==>
                  exists k :: |s.log| <= k < |t.log| && Touches(t.log[k], user, slot))
    decreases |actions|
  {
    if actions != [] {
      var m := Next(iso, s, actions[0]);
      var t := RunAll(iso, s, actions);
      NextKeepsInv(iso, s, actions[0]);
      UntouchedSlot(iso, m, actions[1..], user, slot);
      NextTouches(iso, s, actions[0], user, slot);
      if Get(m.table[user], slot) != Get(s.table[user], slot) {
        assert t.log[|s.log|] == m.log[|s.log|];
      }
    }
  }

  lemma NextTouches(iso: Iso, s: System, a: Action, user: Uid, slot: Slot)
    requires Inv(iso, s) && user in s.table
    ensures var m := Next(iso, s, a);
            && user in m.table && s.log <= m.log
            && (Get(m.table[user], slot) != Get(s.table[user], slot) ==>
                  |m.log| > |s.log| && Touches(m.log[|s.log|], user, slot))
  {
    hide RowValid, EnumsValid, Vetted, AfterRead, LocationValid, Get, Written;
    if a.Write? && a.i < |s.requests| && s.requests[a.i].phase.HasSnapshot? {
      var r := s.requests[a.i];
      WriteExact(iso, s.table, r.user, r.phase.snapshot, r.phase.ruled, a.now);
      GetAfterApply(r.phase.ruled, s.table[r.user], a.now, slot);
    }
  }

  /** A request is answered with a conflict only if, between its own read and its
      write, a committed patch wrote the country or the region of its row. */
  lemma ConflictNeedsWriter(iso: Iso, s: System, before: seq<Action>, i: nat, between: seq<Action>, now: int)
    requires Initial(iso, s)
    requires var s0 := RunAll(iso, s, before);
             i < |s0.requests| && s0.requests[i].phase.Start? &&
             var s1 := Next(iso, s0, Read(i));
             var s2 := RunAll(iso, s1, between);
             && s1.requests[i].phase.HasSnapshot?
             && i < |s2.requests| && s2.requests[i] == s1.requests[i]
             && Next(iso, s2, Write(i, now)).requests[i].phase == Done(Err(ChangedConcurrently))
    ensures var s1 := Next(iso, RunAll(iso, s, before), Read(i));
            var s2 := RunAll(iso, s1, between);
            exists k :: |s1.log| <= k < |s2.log| &&
                        (Touches(s2.log[k], s1.requests[i].user, Member("country")) ||
                         Touches(s2.log[k], s1.requests[i].user, Member("region")))
  {
    RunKeepsInv(iso, s, before);
    var s0 := RunAll(iso, s, before);
    NextKeepsInv(iso, s0, Read(i));
    var s1 := Next(iso, s0, Read(i));
    RunKeepsInv(iso, s1, between);
    var s2 := RunAll(iso, s1, between);
    var user := s1.requests[i].user;
    ConflictMeansChange(iso, s2, i, now);
    UntouchedSlot(iso, s1, between, user, Member("country"));
    UntouchedSlot(iso, s1, between, user, Member("region"));
    SnapshotIsRow(iso, s0, i);
    LocationSlots(s1.table[user], s2.table[user]);
    hide Next, Inv, RunAll, Touches, Get;
  }

  lemma SnapshotIsRow(iso: Iso, s0: System, i: nat)
    requires i < |s0.requests| && s0.requests[i].phase.Start?
    requires Next(iso, s0, Read(i)).requests[i].phase.HasSnapshot?
    ensures var s1 := Next(iso, s0, Read(i));
            && s1.requests[i].user in s1.table
            && s1.requests[i].phase.snapshot == s1.table[s1.requests[i].user]
  {
  }

  lemma LocationSlots(a: Row, b: Row)
    ensures Get(a, Member("country")) == Get(b, Member("country")) <==> a.country == b.country
    ensures Get(a, Member("region")) == Get(b, Member("region")) <==> a.region == b.region
  {
  }

  lemma ConflictMeansChange(iso: Iso, s: System, i: nat, now: int)
    requires Inv(iso, s) && i < |s.requests| && s.requests[i].phase.HasSnapshot?
    requires Next(iso, s, Write(i, now)).requests[i].phase == Done(Err(ChangedConcurrently))
    ensures var r := s.requests[i];
            r.user in s.table &&
            (s.table[r.user].country != r.phase.snapshot.country || s.table[r.user].region != r.phase.snapshot.region)
  {
    hide RowValid, EnumsValid;
    var r := s.requests[i];
    WriteExact(iso, s.table, r.user, r.phase.snapshot, r.phase.ruled, now);
    SnapshotDoesNotCollide(iso, r.phase.snapshot, r.phase.ruled);
  }

  lemma SnapshotDoesNotCollide(iso: Iso, snapshot: Row, ruled: ProfilePatch)
    requires RowValid(iso, snapshot) && Vetted(iso, snapshot.country, ruled)
    requires LocationValid(iso, Apply(ruled, snapshot, 0).country, Apply(ruled, snapshot, 0).region)
    ensures !Collides(snapshot.country, ruled, snapshot)
  {
    CheckClosesTheGap(iso, snapshot.country, ruled, snapshot, 0);
    ValidPassesCheck(iso, Apply(ruled, snapshot, 0).country, Apply(ruled, snapshot, 0).region);
  }

  // ---- Independent patches ----

  ghost predicate DisjointFootprints(p: ProfilePatch, q: ProfilePatch) {
    forall slot: Slot :: Written(p, slot).None? || Written(q, slot).None?
  }

  lemma SlotsDetermineTexts(a: Row, b: Row)
    requires forall name :: Get(a, Member(name)) == Get(b, Member(name))
    ensures a.displayName == b.displayName && a.city == b.city && a.region == b.region && a.country == b.country
    ensures a.gender == b.gender && a.category == b.category
  {
    hide FormatDate;
    assert Get(a, Member("display_name")) == Get(b, Member("display_name"));
    assert Get(a, Member("city")) == Get(b, Member("city"));
    assert Get(a, Member("gender")) == Get(b, Member("gender"));
    assert Get(a, Member("category")) == Get(b, Member("category"));
    LocationSlots(a, b);
  }

  lemma SlotsDetermineDate(a: Row, b: Row)
    requires Get(a, Member("date_of_birth")) == Get(b, Member("date_of_birth"))
    ensures a.dateOfBirth == b.dateOfBirth
  {
    hide FormatDate, ParseDate;
    if a.dateOfBirth.Some? && b.dateOfBirth.Some? {
      ParseOfFormat(a.dateOfBirth.value);
      ParseOfFormat(b.dateOfBirth.value);
    }
  }

  lemma SlotsDeterminePreferences(a: Row, b: Row)
    requires forall key :: Get(a, Preference(key)) == Get(b, Preference(key))
    ensures a.preferences == b.preferences
  {
    forall key: string
      ensures key in a.preferences <==> key in b.preferences
      ensures key in a.preferences ==> a.preferences[key] == b.preferences[key]
    {
      assert Get(a, Preference(key)) == Get(b, Preference(key));
    }
  }

  /** Rows that agree on every slot are equal up to their stamps. */
  lemma SlotsDetermineRow(a: Row, b: Row)
    requires forall slot: Slot :: Get(a, slot) == Get(b, slot)
    requires a.createdAt == b.createdAt
    ensures SameUpToStamp(a, b)
  {
    hide Get;
    SlotsDetermineTexts(a, b);
    SlotsDetermineDate(a, b);
    SlotsDeterminePreferences(a, b);
  }

  /** What patches that touch different slots do commutes, up to updated_at. */
  lemma DisjointPatchesCommute(p: ProfilePatch, q: ProfilePatch, row: Row, n1: int, n2: int, m1: int, m2: int)
    requires DisjointFootprints(p, q)
    ensures SameUpToStamp(Apply(q, Apply(p, row, n1), n2), Apply(p, Apply(q, row, m1), m2))
  {
    var a := Apply(q, Apply(p, row, n1), n2);
    var b := Apply(p, Apply(q, row, m1), m2);
    forall slot: Slot
      ensures Get(a, slot) == Get(b, slot)
    {
      GetAfterApply(p, row, n1, slot);
      GetAfterApply(q, Apply(p, row, n1), n2, slot);
      GetAfterApply(q, row, m1, slot);
      GetAfterApply(p, Apply(q, row, m1), m2, slot);
      hide Get, Written, Apply;
    }
    SlotsDetermineRow(a, b);
  }

  /** p writes only the country and q only the region, checked against a country of
      its own, and the row is such that the first of them to be written decides
      whether the second is refused. */
  predicate Crosses(p: ProfilePatch, q: ProfilePatch, checkedAgainst: Option<string>, row: Row) {
    && p.country.IsSet() && !p.region.IsSet() && q.region.IsSet() && !q.country.IsSet()
    && row.country != FieldValue(p.country)
    && (if q.region.SetTo? then
          row.region.None? && (checkedAgainst == row.country || checkedAgainst == FieldValue(p.country))
        else row.region.Some?)
  }

  predicate OrderMatters(p: ProfilePatch, checkedP: Option<string>, q: ProfilePatch, checkedQ: Option<string>, row: Row) {
    Crosses(p, q, checkedQ, row) || Crosses(q, p, checkedP, row)
  }

  /** A guarded write: a colliding patch leaves the row alone. */
  function Guarded(p: ProfilePatch, checkedAgainst: Option<string>, row: Row, now: int): Row {
    if Collides(checkedAgainst, p, row) then row else Apply(p, row, now)
  }

  /** Whether each of two disjoint patches is refused does not depend on their order,
      unless they cross. */
  lemma CollisionsCommute(p: ProfilePatch, checkedP: Option<string>, q: ProfilePatch, checkedQ: Option<string>,
                          row: Row, now: int, later: int)
    requires DisjointFootprints(p, q)
    ensures (&& (Collides(checkedP, p, row) <==> Collides(checkedP, p, Guarded(q, checkedQ, row, later)))
             && (Collides(checkedQ, q, row) <==> Collides(checkedQ, q, Guarded(p, checkedP, row, now))))
            <==> !OrderMatters(p, checkedP, q, checkedQ, row)
  {
    assert Written(p, Member("country")).None? || Written(q, Member("country")).None?;
    assert Written(p, Member("region")).None? || Written(q, Member("region")).None?;
    hide DisjointFootprints, Written;
  }

  /** Neither order nor stamps can be told apart afterwards: each request succeeds or
      fails alike, and the tables agree up to updated_at. */
  ghost predicate SameOutcome(a: System, b: System, i: nat, j: nat)
    requires i < |a.requests| == |b.requests| && j < |a.requests|
  {
    && SameAnswer(a.requests[i].phase, b.requests[i].phase)
    && SameAnswer(a.requests[j].phase, b.requests[j].phase)
    && a.table.Keys == b.table.Keys
    && (forall u <- a.table :: SameUpToStamp(a.table[u], b.table[u]))
  }

  predicate SameAnswer(a: Phase, b: Phase) {
    && a.Done? && b.Done? && (a.answer.Ok? <==> b.answer.Ok?)
    && (a.answer.Err? ==> a.answer == b.answer)
  }

  /** A write as the guarded write of its row. */
  lemma WriteEffect(iso: Iso, s: System, i: nat, now: int)
    requires Inv(iso, s) && i < |s.requests| && s.requests[i].phase.HasSnapshot?
    ensures var r := s.requests[i];
            var t := Next(iso, s, Write(i, now));
            var checked := r.phase.snapshot.country;
            && r.user in s.table
            && t.table == (if Collides(checked, r.phase.ruled, s.table[r.user]) then s.table
                           else s.table[r.user := Guarded(r.phase.ruled, checked, s.table[r.user], now)])
            && |t.requests| == |s.requests| && t.requests[i].phase.Done?
            && (forall k | 0 <= k < |s.requests| && k != i :: t.requests[k] == s.requests[k])
            && (if Collides(checked, r.phase.ruled, s.table[r.user]) then
                  t.requests[i].phase.answer == Err(ChangedConcurrently)
                else t.requests[i].phase.answer.Ok?)
  {
    hide RowValid, EnumsValid, Vetted, Collides, Apply;
    var r := s.requests[i];
    WriteExact(iso, s.table, r.user, r.phase.snapshot, r.phase.ruled, now);
  }

  /** What two writes in a row leave behind. */
  lemma TwoWrites(iso: Iso, s: System, i: nat, j: nat, now: int, later: int)
    requires Inv(iso, s) && i < |s.requests| && j < |s.requests| && i != j
    requires s.requests[i].phase.HasSnapshot? && s.requests[j].phase.HasSnapshot?
    ensures var (a, b) := (s.requests[i], s.requests[j]);
            var (p, q) := (a.phase.ruled, b.phase.ruled);
            var (cp, cq) := (a.phase.snapshot.country, b.phase.snapshot.country);
            var t := Next(iso, Next(iso, s, Write(i, now)), Write(j, later));
            && a.user in s.table && b.user in s.table && |t.requests| == |s.requests|
            && var rowB := if a.user == b.user then Guarded(p, cp, s.table[b.user], now) else s.table[b.user];
            && t.table == s.table[a.user := Guarded(p, cp, s.table[a.user], now)][b.user := Guarded(q, cq, rowB, later)]
            && t.requests[i].phase.Done? && t.requests[j].phase.Done?
            && (if Collides(cp, p, s.table[a.user]) then t.requests[i].phase.answer == Err(ChangedConcurrently)
                else t.requests[i].phase.answer.Ok?)
            && (if Collides(cq, q, rowB) then t.requests[j].phase.answer == Err(ChangedConcurrently)
                else t.requests[j].phase.answer.Ok?)
  {
    hide Next, Inv, Collides, Apply;
    NextKeepsInv(iso, s, Write(i, now));
    WriteEffect(iso, s, i, now);
    WriteEffect(iso, Next(iso, s, Write(i, now)), j, later);
  }

  /** Main result: in every reachable state the writes of two requests that touch no
      common slot, or different rows, can be exchanged exactly when they do not
      cross: same answers, same table up to updated_at. */
  lemma WritesCommuteExact(iso: Iso, s: System, actions: seq<Action>, i: nat, j: nat, n1: int, n2: int, m1: int, m2: int)
    requires Initial(iso, s)
    requires var t := RunAll(iso, s, actions);
             && i < |t.requests| && j < |t.requests| && i != j
             && t.requests[i].phase.HasSnapshot? && t.requests[j].phase.HasSnapshot?
             && (t.requests[i].user == t.requests[j].user ==>
                   DisjointFootprints(t.requests[i].phase.ruled, t.requests[j].phase.ruled))
    ensures var t := RunAll(iso, s, actions);
            var (a, b) := (t.requests[i], t.requests[j]);
            var ij := Next(iso, Next(iso, t, Write(i, n1)), Write(j, n2));
            var ji := Next(iso, Next(iso, t, Write(j, m1)), Write(i, m2));
            && |ij.requests| == |ji.requests| == |t.requests| && a.user in t.table
            && (SameOutcome(ij, ji, i, j) <==>
                  !(a.user == b.user && OrderMatters(a.phase.ruled, a.phase.snapshot.country,
                                                     b.phase.ruled, b.phase.snapshot.country, t.table[a.user])))
  {
    hide Next, Inv, Collides, Apply, Initial, OrderMatters, SameUpToStamp, DisjointFootprints;
    ReachedOk(iso, s, actions);
    var t := RunAll(iso, s, actions);
    var (a, b) := (t.requests[i], t.requests[j]);
    TwoWrites(iso, t, i, j, n1, n2);
    TwoWrites(iso, t, j, i, m1, m2);
    if a.user == b.user {
      CollisionsCommute(a.phase.ruled, a.phase.snapshot.country, b.phase.ruled, b.phase.snapshot.country,
                        t.table[a.user], n1, m1);
      if !OrderMatters(a.phase.ruled, a.phase.snapshot.country, b.phase.ruled, b.phase.snapshot.country, t.table[a.user]) {
        GuardedCommute(a.phase.ruled, a.phase.snapshot.country, b.phase.ruled, b.phase.snapshot.country,
                       t.table[a.user], n1, n2, m1, m2);
      }
    } else {
      GuardedStamps(a.phase.ruled, a.phase.snapshot.country, t.table[a.user], n1, m2);
      GuardedStamps(b.phase.ruled, b.phase.snapshot.country, t.table[b.user], n2, m1);
    }
    forall u | u in t.table ensures SameUpToStamp(t.table[u], t.table[u]) { UpToStampReflexive(t.table[u]); }
  }

  lemma UpToStampReflexive(row: Row)
    ensures SameUpToStamp(row, row)
  {
  }

  lemma GuardedStamps(p: ProfilePatch, checkedAgainst: Option<string>, row: Row, now: int, later: int)
    ensures SameUpToStamp(Guarded(p, checkedAgainst, row, now), Guarded(p, checkedAgainst, row, later))
  {
  }

  lemma GuardedCommute(p: ProfilePatch, checkedP: Option<string>, q: ProfilePatch, checkedQ: Option<string>,
                       row: Row, n1: int, n2: int, m1: int, m2: int)
    requires DisjointFootprints(p, q)
    requires Collides(checkedP, p, row) <==> Collides(checkedP, p, Guarded(q, checkedQ, row, m1))
    requires Collides(checkedQ, q, row) <==> Collides(checkedQ, q, Guarded(p, checkedP, row, n1))
    ensures SameUpToStamp(Guarded(q, checkedQ, Guarded(p, checkedP, row, n1), n2),
                          Guarded(p, checkedP, Guarded(q, checkedQ, row, m1), m2))
  {
    hide DisjointFootprints, Collides;
    DisjointPatchesCommute(p, q, row, n1, n2, m1, m2);
  }

  /** France's row, a client about to write "FR" over it, one about to move it to
      Spain, and one about to write a Spanish region. */
  const FR_AND_ES := IsoData(map["FR" := 250, "ES" := 724], map[250 := "FR", 724 := "ES"], map["ES-M" := 724])

  const HOME := NewRow("Ann", 0).(country := Some("FR"))
  const MOVED := HOME.(country := Some("ES"), updatedAt := 1)
  const STAY := NO_CHANGE.(country := SetTo("FR"))
  const LEAVE := NO_CHANGE.(country := SetTo("ES"))
  const SETTLE := NO_CHANGE.(region := SetTo("ES-M"))

  /** The three clients, each with what it has read so far. */
  function Clients(row: Row, stay: Phase, leave: Phase, settle: Phase, log: seq<Entry>): System {
    System(map["u" := row],
           [Request("u", map["country" := JString("FR")], stay),
            Request("u", map["country" := JString("ES")], leave),
            Request("u", map["region" := JString("ES-M")], settle)], log)
  }

  lemma FrAndEs()
    ensures FollowsIso3166(FR_AND_ES)
    ensures IsCountry(FR_AND_ES, "FR") && IsCountry(FR_AND_ES, "ES") && Owns(FR_AND_ES, "ES", "ES-M")
  {
    assert "ES" + "-" <= "ES-M";
  }

  lemma Parsed()
    ensures ParsePatch(map["country" := JString("FR")]) == Ok(STAY)
    ensures ParsePatch(map["country" := JString("ES")]) == Ok(LEAVE)
    ensures ParsePatch(map["region" := JString("ES-M")]) == Ok(SETTLE)
  {
    assert !IsSpace('F') && 'F' == "FR"[0] && !IsSpace('E') && 'E' == "ES"[0] && 'E' == "ES-M"[0];
    hide ParsePatch;
    SingleMember("country", "FR");
    SingleMember("country", "ES");
    SingleMember("region", "ES-M");
  }

  /** A read whose rules succeed. */
  lemma ReadEffect(iso: Iso, s: System, i: nat, patch: ProfilePatch)
    requires i < |s.requests| && s.requests[i].phase.Start? && s.requests[i].user in s.table
    requires ParsePatch(s.requests[i].members) == Ok(patch) && !patch.IsEmpty()
    requires var row := s.table[s.requests[i].user];
             && LocationValid(iso, row.country, row.region)
             && LocationValid(iso, Apply(Ruled(row, patch), row, 0).country, Apply(Ruled(row, patch), row, 0).region)
    ensures var r := s.requests[i];
            var row := s.table[r.user];
            Next(iso, s, Read(i)) == s.(requests := s.requests[i := r.(phase := HasSnapshot(row, Ruled(row, patch)))])
  {
    hide ParsePatch, LocationValid, Apply, ApplyLocationRules, Ruled;
    RulesExact(iso, s.table[s.requests[i].user], patch, 0);
  }

  const AGREED := HasSnapshot(HOME, STAY)
  const LEAVING := HasSnapshot(HOME, LEAVE.(region := Cleared))
  const LEFT := Committed("u", LEAVE.(region := Cleared), 1)

  lemma TwoReads(iso: Iso)
    requires IsCountry(iso, "FR") && IsCountry(iso, "ES")
    ensures Next(iso, Clients(HOME, Start, Start, Start, []), Read(0)) == Clients(HOME, AGREED, Start, Start, [])
    ensures Next(iso, Clients(HOME, AGREED, Start, Start, []), Read(1)) == Clients(HOME, AGREED, LEAVING, Start, [])
  {
    Parsed();
    hide ParsePatch, Next, IsCountry;
    ReadEffect(iso, Clients(HOME, Start, Start, Start, []), 0, STAY);
    ReadEffect(iso, Clients(HOME, AGREED, Start, Start, []), 1, LEAVE);
  }

  lemma LastRead(iso: Iso, left: Phase)
    requires Owns(iso, "ES", "ES-M")
    ensures Next(iso, Clients(MOVED, AGREED, left, Start, [LEFT]), Read(2))
            == Clients(MOVED, AGREED, left, HasSnapshot(MOVED, SETTLE), [LEFT])
  {
    Parsed();
    hide ParsePatch, Next;
    ReadEffect(iso, Clients(MOVED, AGREED, left, Start, [LEFT]), 2, SETTLE);
  }

  /** The three reads and the move to Spain. */
  lemma CrossingRun()
    ensures FollowsIso3166(FR_AND_ES)
    ensures Initial(FR_AND_ES, Clients(HOME, Start, Start, Start, []))
    ensures RunAll(FR_AND_ES, Clients(HOME, Start, Start, Start, []), [Read(0), Read(1), Write(1, 1), Read(2)])
            == Clients(MOVED, AGREED, Done(Ok(MOVED)), HasSnapshot(MOVED, SETTLE), [LEFT])
  {
    FrAndEs();
    hide FollowsIso3166, Next, Initial, Clients;
    var iso: Iso := FR_AND_ES;
    Homely(iso);
    TwoReads(iso);
    Moving(iso);
    LastRead(iso, Done(Ok(MOVED)));
    RunOfFour(iso, Clients(HOME, Start, Start, Start, []), Read(0), Read(1), Write(1, 1), Read(2));
  }

  lemma Homely(iso: Iso)
    requires IsCountry(iso, "FR")
    ensures Initial(iso, Clients(HOME, Start, Start, Start, []))
  {
  }

  lemma Moving(iso: Iso)
    ensures Next(iso, Clients(HOME, AGREED, LEAVING, Start, []), Write(1, 1))
            == Clients(MOVED, AGREED, Done(Ok(MOVED)), Start, [LEFT])
  {
    assert WriteResult(map["u" := HOME], "u", LEAVE.(region := Cleared), 1) == Ok(MOVED);
  }

  lemma RunOfFour(iso: Iso, s: System, a: Action, b: Action, c: Action, d: Action)
    ensures RunAll(iso, s, [a, b, c, d]) == Next(iso, Next(iso, Next(iso, Next(iso, s, a), b), c), d)
  {
    hide Next;
    assert [a, b, c, d][1..] == [b, c, d] && [b, c, d][1..] == [c, d] && [c, d][1..] == [d];
    var s3 := Next(iso, Next(iso, Next(iso, s, a), b), c);
    assert RunAll(iso, s3, [d]) == Next(iso, s3, d);
    assert RunAll(iso, Next(iso, Next(iso, s, a), b), [c, d]) == RunAll(iso, s3, [d]);
  }

  lemma StayAndSettleCross(now: int, later: int)
    ensures DisjointFootprints(STAY, SETTLE)
    ensures var fr, es := Some("FR"), Some("ES");
            && !Collides(fr, STAY, MOVED) && !Collides(es, SETTLE, MOVED)
            && Collides(es, SETTLE, Guarded(STAY, fr, MOVED, now))
            && Collides(fr, STAY, Guarded(SETTLE, es, MOVED, later))
            && Guarded(STAY, fr, MOVED, now) == MOVED.(country := fr, updatedAt := now)
            && Guarded(SETTLE, es, MOVED, later) == MOVED.(region := Some("ES-M"), updatedAt := later)
  {
  }

  /** The failing input: in a state reached from a valid row, two writes that touch
      no common slot are both fit to be written, and whichever comes first has the
      other refused. */
  lemma CrossingWritesConflict(now: int, later: int)
    ensures FollowsIso3166(FR_AND_ES)
    ensures Initial(FR_AND_ES, Clients(HOME, Start, Start, Start, []))
    ensures var iso: Iso := FR_AND_ES;
            var t := RunAll(iso, Clients(HOME, Start, Start, Start, []), [Read(0), Read(1), Write(1, 1), Read(2)]);
            && |t.requests| == 3
            && t.requests[0].phase == AGREED && t.requests[2].phase == HasSnapshot(MOVED, SETTLE)
            && DisjointFootprints(STAY, SETTLE)
            && var a := Next(iso, Next(iso, t, Write(0, now)), Write(2, later));
               var b := Next(iso, Next(iso, t, Write(2, now)), Write(0, later));
               && |a.requests| == |b.requests| == 3
               && a.requests[0].phase.Done? && a.requests[0].phase.answer.Ok?
               && a.requests[2].phase == Done(Err(ChangedConcurrently))
               && b.requests[2].phase.Done? && b.requests[2].phase.answer.Ok?
               && b.requests[0].phase == Done(Err(ChangedConcurrently))
               && a.table == map["u" := MOVED.(country := Some("FR"), updatedAt := now)]
               && b.table == map["u" := MOVED.(region := Some("ES-M"), updatedAt := now)]
  {
    hide Next, Inv, RunAll, Initial, FollowsIso3166, DisjointFootprints, Collides, Apply;
    CrossingRun();
    var iso: Iso := FR_AND_ES;
    var start := Clients(HOME, Start, Start, Start, []);
    var actions := [Read(0), Read(1), Write(1, 1), Read(2)];
    ReachedOk(iso, start, actions);
    var t := RunAll(iso, start, actions);
    TwoWrites(iso, t, 0, 2, now, later);
    TwoWrites(iso, t, 2, 0, now, later);
    StayAndSettleCross(now, now);
    assert t.requests[0].user == t.requests[2].user == "u" && t.table["u"] == MOVED;
    var a := Next(iso, Next(iso, t, Write(0, now)), Write(2, later));
    var b := Next(iso, Next(iso, t, Write(2, now)), Write(0, later));
    assert a.table == map["u" := MOVED.(country := Some("FR"), updatedAt := now)];
    assert b.table == map["u" := MOVED.(region := Some("ES-M"), updatedAt := now)];
  }

  // ---- Blank texts ----

  predicate ShownCity(city: Option<string>) {
    city.Some? ==> !IsBlank(city.value)
  }

  /** The free texts of a patch are not blank. */
  predicate ShownTexts(p: ProfilePatch) {
    ShownCity(FieldValue(p.city)) && (p.displayName.Some? ==> !IsBlank(p.displayName.value))
  }

  lemma ParsedTexts(members: map<string, Json>)
    requires ParsePatch(members).Ok?
    ensures ShownTexts(ParsePatch(members).value)
  {
    hide IsBlank;
    FieldsExact(members, "city", []);
  }

  predicate Names(e: Entry, user: Uid) {
    e.Committed? && e.user == user && e.patch.displayName.Some?
  }

  /** No stored city is blank, nor a name that a patch has ever written. */
  ghost predicate TextsShown(s: System) {
    && (forall u <- s.table :: ShownCity(s.table[u].city))
    && (forall u <- s.table :: IsBlank(s.table[u].displayName) ==> forall e <- s.log :: !Names(e, u))
    && (forall e <- s.log :: e.Committed? ==> e.user in s.table)
    && (forall i | 0 <= i < |s.requests| ::
          s.requests[i].phase.HasSnapshot? ==> ShownTexts(s.requests[i].phase.ruled))
  }

  lemma RulesKeepTexts(iso: Iso, stored: Row, patch: ProfilePatch)
    requires ApplyLocationRules(iso, stored, patch).Ok? && ShownTexts(patch)
    ensures ShownTexts(ApplyLocationRules(iso, stored, patch).value)
  {
    hide IsBlank, ValidateLocation;
  }

  lemma NextShowsTexts(iso: Iso, s: System, a: Action)
    requires Inv(iso, s) && TextsShown(s)
    ensures TextsShown(Next(iso, s, a))
  {
    hide IsBlank, ParsePatch, RowValid, EnumsValid, Vetted, Collides, LocationValid, ApplyLocationRules, ApplyPreferences;
    match a
    case Read(i) =>
      if i < |s.requests| && ParsePatch(s.requests[i].members).Ok? {
        ParsedTexts(s.requests[i].members);
        var r := s.requests[i];
        if r.user in s.table && ApplyLocationRules(iso, s.table[r.user], ParsePatch(r.members).value).Ok? {
          RulesKeepTexts(iso, s.table[r.user], ParsePatch(r.members).value);
        }
      }
    case Write(i, now) =>
      if i < |s.requests| && s.requests[i].phase.HasSnapshot? {
        var r := s.requests[i];
        WriteExact(iso, s.table, r.user, r.phase.snapshot, r.phase.ruled, now);
        hide WriteResult;
      }
    case Ensure(_, _, _) =>
  }

  lemma {:induction false} RunShowsTexts(iso: Iso, s: System, actions: seq<Action>)
    requires Inv(iso, s) && TextsShown(s)
    ensures TextsShown(RunAll(iso, s, actions))
    decreases |actions|
  {
    if actions != [] {
      NextKeepsInv(iso, s, actions[0]);
      NextShowsTexts(iso, s, actions[0]);
      RunShowsTexts(iso, Next(iso, s, actions[0]), actions[1..]);
    }
  }

  /** Whatever has been patched, patching a rendered profile back is refused only when
      its display name is blank, and then no patch ever wrote that name: it is the
      one the profile was created with. */
  lemma EchoFailsOnlyOnGivenName(iso: Iso, s: System, actions: seq<Action>, user: Uid, now: int)
    requires Initial(iso, s) && forall u <- s.table :: ShownCity(s.table[u].city)
    requires user in RunAll(iso, s, actions).table
    ensures var t := RunAll(iso, s, actions);
            var row := t.table[user];
            var out := PatchResult(iso, t.table, user, EchoMembers(ToProfileResponse(user, row)), now);
            && (out.Ok? <==> !IsBlank(row.displayName))
            && (out.Ok? ==> out.value == row.(updatedAt := now))
            && (out.Err? ==> forall e <- t.log :: !Names(e, user))
            && (out.Err? && user !in s.table ==> exists e <- t.log :: e.Created? && e.user == user && e.displayName == row.displayName)
  {
    ReachedOk(iso, s, actions);
    RunShowsTexts(iso, s, actions);
    var t := RunAll(iso, s, actions);
    EchoIsHarmless(iso, t.table, user, now);
    hide PatchResult, EchoMembers, IsBlank;
    if user !in s.table {
      NoLostUpdates(iso, s, actions, user, Member("display_name"));
      if forall e <- t.log :: !Names(e, user) {
        NameGiven(t.log, user);
      }
    }
    hide RunAll, Inv, Initial;
  }

  /** If no patch wrote the name, the last write of it is that of a creation. */
  lemma {:induction false} NameGiven(log: seq<Entry>, user: Uid)
    requires LastWrite(log, user, Member("display_name")).Some?
    requires forall e <- log :: !Names(e, user)
    ensures exists e <- log :: e.Created? && e.user == user
              && LastWrite(log, user, Member("display_name")).value == Some(JString(e.displayName))
  {
    var e := log[|log| - 1];
    assert e in log;
    if !(e.user == user && EntryWrites(e, Member("display_name")).Some?) {
      var rest := log[..|log| - 1];
      NameGiven(rest, user);
      var c :| c in rest && c.Created? && c.user == user
        && LastWrite(rest, user, Member("display_name")).value == Some(JString(c.displayName));
      assert c in log;
    }
  }

  // ---- The protocol and the sequential service agree ----

  /** A request whose read and write are adjacent is answered, and changes the table,
      as the sequential service does. */
  lemma AdjacentStepsAreSequential(iso: Iso, s: System, i: nat, now: int)
    requires Inv(iso, s) && i < |s.requests| && s.requests[i].phase.Start?
    ensures var r := s.requests[i];
            var t := Next(iso, Next(iso, s, Read(i)), Write(i, now));
            var out := PatchResult(iso, s.table, r.user, r.members, now);
            && t.requests[i].phase == Done(out)
            && t.table == if out.Ok? then s.table[r.user := out.value] else s.table
  {
    hide ParsePatch, RowValid;
    var r := s.requests[i];
    var m := Next(iso, s, Read(i));
    assert m.requests[i] == r.(phase := AfterRead(iso, s.table, r));
    assert s.table == m.table;
  }
}
