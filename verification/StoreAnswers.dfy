/** Exactly what the store answers, told from the operations performed before and their
    answers. */
module StoreAnswers {
  import opened Wrappers
  import opened UserCodes
  import opened OAuthStore
  import opened DeviceFlow
  import opened Provenance

  // ---- Authorization codes ----

  lemma {:induction false} WorldAppend(cfg: Config, w: World, a: seq<Event>, b: seq<Event>)
    requires LegalRun(cfg, w, a + b)
    ensures LegalRun(cfg, w, a) && LegalRun(cfg, RunWorld(cfg, w, a), b)
    ensures RunWorld(cfg, w, a + b) == RunWorld(cfg, RunWorld(cfg, w, a), b)
    decreases |a|
  {
    hide Advance, New;
    if a != [] {
      assert (a + b)[0] == a[0] && (a + b)[1..] == a[1..] + b;
      WorldAppend(cfg, Advance(cfg, w, a[0]), a[1..], b);
    } else {
      assert a + b == b;
    }
  }

  /** e presents the code at the provider it was issued by. */
  predicate Presents(e: Event, provider: string, code: string) {
    e.op.RedeemCode? && e.op.code == code && e.op.provider == provider
  }

  lemma CodeStays(cfg: Config, w: World, e: Event, code: string)
    requires New(w, e.op) && code in w.store.codes && code in w.issued && !Presents(e, w.store.codes[code].provider, code)
    ensures var v := Advance(cfg, w, e);
            && code in v.store.codes && v.store.codes[code] == w.store.codes[code] && code in v.issued
  {
    StoreAdvances(cfg, w, e);
    StillIssued(cfg, w, e, code);
    hide Advance, Step;
    StepKeepsCode(cfg, w.store, e, code);
  }

  lemma StepKeepsCode(cfg: Config, s: State, e: Event, code: string)
    requires FreshDraws(s, e.op) && code in s.codes && !Presents(e, s.codes[code].provider, code)
    ensures var t := Step(cfg, s, e).0; code in t.codes && t.codes[code] == s.codes[code]
  {
    hide Normalize, IsUserCode;
  }

  lemma {:induction false} CodeKept(cfg: Config, w: World, events: seq<Event>, code: string)
    requires LegalRun(cfg, w, events) && code in w.store.codes && code in w.issued
    requires forall e <- events :: !Presents(e, w.store.codes[code].provider, code)
    ensures var v := RunWorld(cfg, w, events); code in v.store.codes && v.store.codes[code] == w.store.codes[code] && code in v.issued
    decreases |events|
  {
    hide Advance, New;
    if events != [] {
      CodeStays(cfg, w, events[0], code);
      CodeKept(cfg, Advance(cfg, w, events[0]), events[1..], code);
    }
  }

  /** A redemption arrives in time, for the redirect the code was issued to if it names
      one. */
  predicate InOrder(cfg: Config, issue: Event, redeem: Event)
    requires issue.op.IssueCode? && redeem.op.RedeemCode?
  {
    redeem.now <= issue.now + cfg.codeTTL
    && (redeem.op.redirectURI == "" || redeem.op.redirectURI == issue.op.redirectURI)
  }

  lemma RedeemsNow(cfg: Config, w: World, issue: Event, redeem: Event)
    requires issue.op.IssueCode? && Presents(redeem, issue.op.provider, issue.op.code)
    requires issue.op.code in w.store.codes
    requires w.store.codes[issue.op.code]
             == AuthCode(issue.op.provider, issue.op.redirectURI, issue.op.id, issue.now + cfg.codeTTL)
    ensures var (t, a) := Step(cfg, w.store, redeem);
            && issue.op.code !in t.codes
            && (if InOrder(cfg, issue, redeem) then
                  && a == Token(redeem.op.token) && redeem.op.token in t.tokens
                  && t.tokens[redeem.op.token] == AccessToken(issue.op.provider, issue.op.id)
                else a == Failed(InvalidGrant) && t.tokens == w.store.tokens)
  {
  }

  lemma StoreAdvances(cfg: Config, w: World, e: Event)
    ensures Advance(cfg, w, e).store == Step(cfg, w.store, e).0
  {
    hide Step, Normalize;
  }

  lemma IssuedNow(cfg: Config, w: World, issue: Event)
    requires issue.op.IssueCode?
    ensures var v := Advance(cfg, w, issue);
            && issue.op.code in v.store.codes && issue.op.code in v.issued
            && v.store.codes[issue.op.code]
               == AuthCode(issue.op.provider, issue.op.redirectURI, issue.op.id, issue.now + cfg.codeTTL)
  {
  }

  lemma DeadCode(cfg: Config, s: State, code: string, provider: string, redirectURI: string, token: string, now: int)
    requires code !in s.codes
    ensures Step(cfg, s, Event(RedeemCode(provider, code, redirectURI, token), now)) == (s, Failed(InvalidGrant))
  {
  }

  /** Main result: in any run the first time its provider presents an issued code, it gives
      a token exactly when no more than codeTTL has passed since the issue and the redirect
      is the one of the issue or none. The token then opens, for ever, the identity given
      at issue, for that provider only. Either way the code is dead. */
  lemma CodeExact(cfg: Config, before: seq<Event>, issue: Event, between: seq<Event>, redeem: Event, after: seq<Event>)
    requires issue.op.IssueCode? && Presents(redeem, issue.op.provider, issue.op.code)
    requires forall e <- between :: !Presents(e, issue.op.provider, issue.op.code)
    requires LegalRun(cfg, NEW_WORLD, before + [issue] + between + [redeem] + after)
    ensures var s := RunWorld(cfg, NEW_WORLD, before + [issue] + between).store;
            var t := RunWorld(cfg, NEW_WORLD, before + [issue] + between + [redeem] + after).store;
            var good := redeem.now <= issue.now + cfg.codeTTL
                        && (redeem.op.redirectURI == "" || redeem.op.redirectURI == issue.op.redirectURI);
            && Step(cfg, s, redeem).1 == (if good then Token(redeem.op.token) else Failed(InvalidGrant))
            && (good ==> forall reader, now ::
                  Step(cfg, t, Event(LookupToken(reader, redeem.op.token), now)).1
                  == if reader == issue.op.provider then Identified(issue.op.id) else Failed(InvalidBearer))
            && (forall provider, redirectURI, token, now ::
                  Step(cfg, t, Event(RedeemCode(provider, issue.op.code, redirectURI, token), now)).1 == Failed(InvalidGrant))
  {
    hide Step, Advance, Accountable, Extends, New;
    var first := before + [issue] + between;
    WorldAppend(cfg, NEW_WORLD, first + [redeem], after);
    WorldAppend(cfg, NEW_WORLD, first, [redeem]);
    WorldAppend(cfg, NEW_WORLD, before + [issue], between);
    WorldAppend(cfg, NEW_WORLD, before, [issue]);
    NewWorldAccountable();
    var w0 := RunWorld(cfg, NEW_WORLD, before);
    assert RunWorld(cfg, w0, [issue]) == Advance(cfg, w0, issue) by { OneEvent(cfg, w0, issue); }
    var w1 := Advance(cfg, w0, issue);
    IssuedNow(cfg, w0, issue);
    CodeKept(cfg, w1, between, issue.op.code);
    var w2 := RunWorld(cfg, w1, between);
    RedeemsNow(cfg, w2, issue, redeem);
    OneEvent(cfg, w2, redeem);
    var w3 := Advance(cfg, w2, redeem);
    StoreAdvances(cfg, w2, redeem);
    RunKeeps(cfg, NEW_WORLD, first + [redeem]);
    RunKeeps(cfg, w3, after);
    var w4 := RunWorld(cfg, w3, after);
    StillIssued(cfg, w2, redeem, issue.op.code);
    Permanent(w4, w3, issue.op.code, redeem.op.token);
    forall reader, now | InOrder(cfg, issue, redeem)
      ensures Step(cfg, w4.store, Event(LookupToken(reader, redeem.op.token), now)).1
              == if reader == issue.op.provider then Identified(issue.op.id) else Failed(InvalidBearer)
    {
      LookupAnswers(cfg, w4.store, reader, redeem.op.token, now);
    }
    forall provider, redirectURI, token, now
      ensures Step(cfg, w4.store, Event(RedeemCode(provider, issue.op.code, redirectURI, token), now)).1 == Failed(InvalidGrant)
    {
      DeadCode(cfg, w4.store, issue.op.code, provider, redirectURI, token, now);
    }
  }

  lemma OneEvent(cfg: Config, w: World, e: Event)
    ensures RunWorld(cfg, w, [e]) == Advance(cfg, w, e)
  {
    hide Advance;
    assert [e][1..] == [];
  }

  lemma StillIssued(cfg: Config, w: World, e: Event, code: string)
    requires code in w.issued
    ensures code in Advance(cfg, w, e).issued
  {
    hide Step, Normalize;
  }

  lemma Permanent(v: World, w: World, code: string, token: string)
    requires Extends(v, w)
    ensures code in w.issued && code !in w.store.codes ==> code !in v.store.codes
    ensures token in w.store.tokens ==> token in v.store.tokens && v.store.tokens[token] == w.store.tokens[token]
  {
  }

  /** A code that no IssueCode of that provider has issued is refused, and refusing it
      changes nothing. */
  lemma ForeignCode(cfg: Config, events: seq<Event>, redeem: Event)
    requires LegalRun(cfg, NEW_WORLD, events) && redeem.op.RedeemCode?
    requires forall e <- events :: !(e.op.IssueCode? && e.op.provider == redeem.op.provider && e.op.code == redeem.op.code)
    ensures var s := RunWorld(cfg, NEW_WORLD, events).store; Step(cfg, s, redeem) == (s, Failed(InvalidGrant))
  {
    CodesComeFromIssues(cfg, NEW_WORLD, events, redeem.op.provider, redeem.op.code);
  }

  lemma {:induction false} CodesComeFromIssues(cfg: Config, w: World, events: seq<Event>, provider: string, code: string)
    requires code in w.store.codes ==> w.store.codes[code].provider != provider
    requires forall e <- events :: !(e.op.IssueCode? && e.op.provider == provider && e.op.code == code)
    ensures var s := RunWorld(cfg, w, events).store; code in s.codes ==> s.codes[code].provider != provider
    decreases |events|
  {
    if events != [] {
      StoreAdvances(cfg, w, events[0]);
      CodeSource(cfg, w.store, events[0], provider, code);
      hide Advance;
      CodesComeFromIssues(cfg, Advance(cfg, w, events[0]), events[1..], provider, code);
    }
  }

  lemma CodeSource(cfg: Config, s: State, e: Event, provider: string, code: string)
    requires code in s.codes ==> s.codes[code].provider != provider
    requires !(e.op.IssueCode? && e.op.provider == provider && e.op.code == code)
    ensures var t := Step(cfg, s, e).0; code in t.codes ==> t.codes[code].provider != provider
  {
    hide Normalize;
  }

  // ---- Bearer tokens ----

  /** The run answered some redemption or poll with the token. */
  ghost predicate AnsweredIn(cfg: Config, s: State, events: seq<Event>, token: string)
    decreases |events|
  {
    events != [] &&
    (Step(cfg, s, events[0]).1 == Token(token) || AnsweredIn(cfg, Step(cfg, s, events[0]).0, events[1..], token))
  }

  /** The provider and identity a source stands for. */
  function Origin(w: World, source: Source): Option<AccessToken> {
    match source
    case FromCode(c) =>
      if c in w.issued then Some(AccessToken(w.issued[c].provider, w.issued[c].identity)) else None
    case FromDevice(dc) =>
      if dc in w.store.devices && dc in w.approved then
        Some(AccessToken(w.store.devices[dc].provider, w.approved[dc]))
      else None
  }

  lemma AdvanceAnswers(cfg: Config, w: World, e: Event, token: string)
    ensures token in Advance(cfg, w, e).sources <==> token in w.sources || Step(cfg, w.store, e).1 == Token(token)
  {
    hide Normalize;
  }

  lemma {:induction false} SourcesAreAnswers(cfg: Config, w: World, events: seq<Event>, token: string)
    ensures token in RunWorld(cfg, w, events).sources <==> token in w.sources || AnsweredIn(cfg, w.store, events, token)
    decreases |events|
  {
    if events != [] {
      AdvanceAnswers(cfg, w, events[0], token);
      StoreAdvances(cfg, w, events[0]);
      hide Advance, Step;
      SourcesAreAnswers(cfg, Advance(cfg, w, events[0]), events[1..], token);
    }
  }

  /** Main result: in every reachable state a bearer token is accepted exactly when the run
      answered some redemption or poll with it, and the caller asks at the provider of
      what it was given for; it then opens the identity that was issued or approved.
      Any other token is refused. */
  lemma LookupExact(cfg: Config, events: seq<Event>, provider: string, token: string, now: int)
    requires LegalRun(cfg, NEW_WORLD, events)
    ensures var w := RunWorld(cfg, NEW_WORLD, events);
            && (token in w.sources <==> AnsweredIn(cfg, EMPTY, events, token))
            && (token in w.sources ==> Origin(w, w.sources[token]).Some?)
            && Step(cfg, w.store, Event(LookupToken(provider, token), now))
               == (w.store,
                   if token in w.sources && Origin(w, w.sources[token]).value.provider == provider then
                     Identified(Origin(w, w.sources[token]).value.identity)
                   else Failed(InvalidBearer))
  {
    TokensHaveProvenance(cfg, events);
    SourcesAreAnswers(cfg, NEW_WORLD, events, token);
    var w := RunWorld(cfg, NEW_WORLD, events);
    hide RunWorld, LegalRun, AnsweredIn;
    if token in w.sources {
      assert Explains(w, w.sources[token], w.store.tokens[token]);
    }
  }

  // ---- Device requests ----

  datatype Decision = Undecided | Refused | Granted(identity: Identity)

  /** What was done for a device code, and answered: when it was issued, how it was decided,
      whether it was exchanged, the last poll told to wait, and the slow_down answers. */
  datatype Record = Record(
    provider: string,
    userCode: string,
    at: int,
    decision: Decision,
    spent: bool,
    last: Option<int>,
    slowed: nat)

  function Note(r: Record, dc: string, e: Event, a: Answer): Record {
    if OwnPoll(e, r.provider, dc) then
      match a
      case Token(_) => r.(spent := true)
      case Failed(AuthorizationPending) => r.(last := Some(e.now))
      case Failed(SlowDown) => r.(last := Some(e.now), slowed := r.slowed + 1)
      case _ => r
    else if e.op.ResolveDevice? && e.op.provider == r.provider && Normalize(e.op.userCode) == r.userCode && a == Resolved then
      r.(decision := if e.op.approve then Granted(e.op.id) else Refused)
    else r
  }

  function NextRecord(r: Option<Record>, dc: string, e: Event, a: Answer): Option<Record> {
    if e.op.StartDevice? && e.op.deviceCode == dc then
      Some(Record(e.op.provider, e.op.userCode, e.now, Undecided, false, None, 0))
    else if r.Some? then Some(Note(r.value, dc, e, a))
    else None
  }

  function RecordAfter(cfg: Config, s: State, r: Option<Record>, events: seq<Event>, dc: string): Option<Record>
    decreases |events|
  {
    if events == [] then r
    else
      var (t, a) := Step(cfg, s, events[0]);
      RecordAfter(cfg, t, NextRecord(r, dc, events[0], a), events[1..], dc)
  }

  /** What the record of a whole run says of dc; None if no StartDevice issued it. */
  function RecordOf(cfg: Config, events: seq<Event>, dc: string): Option<Record> {
    RecordAfter(cfg, EMPTY, None, events, dc)
  }

  /** What a poll must be answered, by sections 3.4 and 3.5 of RFC 8628. */
  function Ruling(cfg: Config, r: Option<Record>, provider: string, token: string, now: int): Answer {
    if r.None? || r.value.provider != provider || r.value.spent then Failed(InvalidGrant)
    else if now > r.value.at + cfg.codeTTL then Failed(ExpiredToken)
    else
      match r.value.decision
      case Refused => Failed(AccessDenied)
      case Granted(_) => Token(token)
      case Undecided =>
        if r.value.last.Some? && now - r.value.last.value < cfg.interval + 5_000_000_000 * r.value.slowed then Failed(SlowDown)
        else Failed(AuthorizationPending)
  }

  /** The store's device is the one the record describes. */
  ghost predicate Describes(cfg: Config, r: Record, d: DeviceAuth) {
    && d.provider == r.provider && d.userCode == r.userCode
    && d.expiresAt == r.at + cfg.codeTTL && d.redeemed == r.spent
    && (match r.decision
        case Undecided =>
          && d.status == Pending && d.lastPoll == r.last
          && d.interval == cfg.interval + 5_000_000_000 * r.slowed
        case Refused => d.status == Denied
        case Granted(id) => d.status == Approved && d.identity == id)
  }

  ghost predicate Recorded(cfg: Config, s: State, r: Option<Record>, dc: string) {
    (dc in s.devices <==> r.Some?) && (r.Some? ==> Describes(cfg, r.value, s.devices[dc]))
  }

  lemma PollRuled(cfg: Config, s: State, r: Option<Record>, provider: string, dc: string, token: string, now: int)
    requires Recorded(cfg, s, r, dc)
    ensures Step(cfg, s, Event(PollDevice(provider, dc, token), now)).1 == Ruling(cfg, r, provider, token, now)
  {
  }

  /** The device's own rules keep the description. */
  lemma NoteKeeps(cfg: Config, r: Record, d: DeviceAuth, dc: string, e: Event, a: Answer)
    requires Describes(cfg, r, d)
    requires OwnPoll(e, d.provider, dc) ==> a == PollAnswer(d, e.op.token, e.now)
    requires e.op.ResolveDevice? && e.op.provider == d.provider && Normalize(e.op.userCode) == d.userCode ==>
               (a == Resolved <==> Resolves(d, e))
    ensures Describes(cfg, Note(r, dc, e, a), DeviceAfter(d, dc, e))
  {
    hide Normalize;
  }

  lemma ResolveAnswer(cfg: Config, s: State, e: Event, dc: string)
    requires Indexed(s) && dc in s.devices && e.op.ResolveDevice? && Normalize(e.op.userCode) == s.devices[dc].userCode
    ensures Step(cfg, s, e).1 ==
            if e.op.provider != s.devices[dc].provider then Failed(UnknownCode)
            else if Resolves(s.devices[dc], e) then Resolved
            else Failed(NotPending)
  {
    hide Normalize;
  }

  lemma StepRecorded(cfg: Config, s: State, r: Option<Record>, e: Event, dc: string)
    requires Indexed(s) && FreshDraws(s, e.op) && Recorded(cfg, s, r, dc)
    ensures var (t, a) := Step(cfg, s, e); Recorded(cfg, t, NextRecord(r, dc, e, a), dc)
  {
    hide Normalize, Describes, Indexed, IsUserCode;
    if e.op.StartDevice? && e.op.deviceCode == dc {
      StartDescribed(cfg, s, e);
    } else if dc in s.devices {
      StepProjects(cfg, s, e, dc);
      if e.op.ResolveDevice? && Normalize(e.op.userCode) == s.devices[dc].userCode {
        ResolveAnswer(cfg, s, e, dc);
      }
      SameProvider(cfg, r.value, s.devices[dc]);
      hide Step, Resolves, DeviceAfter, Note, OwnPoll;
      NoteKeeps(cfg, r.value, s.devices[dc], dc, e, Step(cfg, s, e).1);
    } else {
      UnstartedStep(cfg, s, e, "", dc);
    }
  }

  lemma SameProvider(cfg: Config, r: Record, d: DeviceAuth)
    requires Describes(cfg, r, d)
    ensures r.provider == d.provider && r.userCode == d.userCode
  {
  }

  lemma StartDescribed(cfg: Config, s: State, e: Event)
    requires e.op.StartDevice?
    ensures var t := Step(cfg, s, e).0;
            && e.op.deviceCode in t.devices
            && Describes(cfg, Record(e.op.provider, e.op.userCode, e.now, Undecided, false, None, 0), t.devices[e.op.deviceCode])
  {
  }

  lemma {:induction false} RunRecorded(cfg: Config, s: State, clock: int, events: seq<Event>, r: Option<Record>, dc: string)
    requires Indexed(s) && Legal(cfg, s, clock, events) && Recorded(cfg, s, r, dc)
    ensures Indexed(Run(cfg, s, events)) && Recorded(cfg, Run(cfg, s, events), RecordAfter(cfg, s, r, events, dc), dc)
    decreases |events|
  {
    hide Indexed, Step, FreshDraws, Recorded, NextRecord;
    if events != [] {
      var (t, a) := Step(cfg, s, events[0]);
      StepKeepsIndex(cfg, s, events[0]);
      StepRecorded(cfg, s, r, events[0], dc);
      RunRecorded(cfg, t, events[0].now, events[1..], NextRecord(r, dc, events[0], a), dc);
    }
  }

  /** Main result: after any run a poll is answered exactly as the record of what was done
      and answered before demands. */
  lemma PollExact(cfg: Config, clock: int, events: seq<Event>, provider: string, dc: string, token: string, now: int)
    requires Legal(cfg, EMPTY, clock, events)
    ensures Step(cfg, Run(cfg, EMPTY, events), Event(PollDevice(provider, dc, token), now)).1
            == Ruling(cfg, RecordOf(cfg, events, dc), provider, token, now)
  {
    hide Step, Legal, Run, RecordAfter, Ruling;
    RunRecorded(cfg, EMPTY, clock, events, None, dc);
    PollRuled(cfg, Run(cfg, EMPTY, events), RecordOf(cfg, events, dc), provider, dc, token, now);
  }

  /** Main result: after any run a text that spells a device's code, typed at its provider,
      decides it exactly when it is undecided and its time is not over. At another
      provider the code is unknown, as is a text that spells no device's code. */
  lemma ResolveExact(cfg: Config, clock: int, events: seq<Event>, provider: string, text: string, approve: bool,
                     id: Identity, dc: string, now: int)
    requires Legal(cfg, EMPTY, clock, events)
    ensures var s := Run(cfg, EMPTY, events);
            var r := RecordOf(cfg, events, dc);
            var a := Step(cfg, s, Event(ResolveDevice(provider, text, approve, id), now)).1;
            && (r.Some? && |r.value.userCode| == 9 && Spells(text, Plain(r.value.userCode)) ==>
                  a == if r.value.provider != provider then Failed(UnknownCode)
                       else if r.value.decision == Undecided && now <= r.value.at + cfg.codeTTL then Resolved
                       else Failed(NotPending))
            && ((forall d <- s.devices :: |s.devices[d].userCode| == 9 ==> !Spells(text, Plain(s.devices[d].userCode))) ==>
                  a == Failed(UnknownCode))
  {
    RunRecorded(cfg, EMPTY, clock, events, None, dc);
    var s := Run(cfg, EMPTY, events);
    var r := RecordOf(cfg, events, dc);
    var e := Event(ResolveDevice(provider, text, approve, id), now);
    if r.Some? && |r.value.userCode| == 9 && Spells(text, Plain(r.value.userCode)) {
      CodeFormed(s, dc);
      NormalizeExact(text, r.value.userCode);
      ResolveAnswer(cfg, s, e, dc);
    }
    if Normalize(text) in s.userCodes {
      var d := s.userCodes[Normalize(text)];
      CodeFormed(s, d);
      NormalizeExact(text, s.devices[d].userCode);
    }
    hide Legal, Run, RecordAfter, Indexed, Spells, Normalize, IsUserCode;
  }

  lemma CodeFormed(s: State, dc: string)
    requires Indexed(s) && dc in s.devices
    ensures IsUserCode(s.devices[dc].userCode)
  {
    hide IsUserCode;
  }
}
