/** Where access tokens come from. */
module Provenance {
  import opened UserCodes
  import opened OAuthStore

  datatype Source = FromCode(code: string) | FromDevice(deviceCode: string)

  /** The store with its history: every code ever issued, every approval, and what
      each token was issued for. */
  datatype World = World(
    store: State,
    issued: map<string, AuthCode>,
    approved: map<string, Identity>,
    sources: map<string, Source>)

  const NEW_WORLD := World(EMPTY, map[], map[], map[])

  function Advance(cfg: Config, w: World, e: Event): World {
    var (t, a) := Step(cfg, w.store, e);
    match e.op
    case IssueCode(provider, redirectURI, id, code) =>
      w.(store := t, issued := w.issued[code := AuthCode(provider, redirectURI, id, e.now + cfg.codeTTL)])
    case RedeemCode(_, code, _, token) =>
      if a.Token? then w.(store := t, sources := w.sources[token := FromCode(code)]) else w.(store := t)
    case PollDevice(_, deviceCode, token) =>
      if a.Token? then w.(store := t, sources := w.sources[token := FromDevice(deviceCode)]) else w.(store := t)
    case ResolveDevice(_, userCode, approve, id) =>
      var normal := Normalize(userCode);
      if a == Resolved && approve && normal in w.store.userCodes then
        w.(store := t, approved := w.approved[w.store.userCodes[normal] := id])
      else w.(store := t)
    case _ => w.(store := t)
  }

  /** Draws are new to the whole history, not only to the present maps. */
  predicate New(w: World, op: Op) {
    FreshDraws(w.store, op) && (op.IssueCode? ==> op.code !in w.issued)
  }

  predicate LegalRun(cfg: Config, w: World, events: seq<Event>)
    decreases |events|
  {
    events == [] || (New(w, events[0].op) && LegalRun(cfg, Advance(cfg, w, events[0]), events[1..]))
  }

  function RunWorld(cfg: Config, w: World, events: seq<Event>): World
    decreases |events|
  {
    if events == [] then w else RunWorld(cfg, Advance(cfg, w, events[0]), events[1..])
  }

  /** The token's source has been used up, and the token carries the source's provider
      and the identity fixed when it was issued or approved. */
  predicate Explains(w: World, source: Source, token: AccessToken) {
    match source
    case FromCode(c) =>
      && c in w.issued && c !in w.store.codes
      && token == AccessToken(w.issued[c].provider, w.issued[c].identity)
    case FromDevice(dc) =>
      && dc in w.store.devices && w.store.devices[dc].redeemed && dc in w.approved
      && token == AccessToken(w.store.devices[dc].provider, w.approved[dc])
  }

  ghost predicate CodesKnown(w: World) {
    forall c <- w.store.codes :: c in w.issued && w.issued[c] == w.store.codes[c]
  }

  ghost predicate ApprovalsKnown(w: World) {
    && w.approved.Keys <= w.store.devices.Keys
    && (forall dc <- w.store.devices ::
          && (w.store.devices[dc].status == Approved <==> dc in w.approved)
          && (dc in w.approved ==> w.approved[dc] == w.store.devices[dc].identity)
          && (w.store.devices[dc].redeemed ==> dc in w.approved))
  }

  ghost predicate TokensExplained(w: World) {
    && w.sources.Keys == w.store.tokens.Keys
    && (forall tk <- w.sources :: Explains(w, w.sources[tk], w.store.tokens[tk]))
  }

  ghost predicate SourcesDistinct(w: World) {
    forall a, b | a in w.sources && b in w.sources && w.sources[a] == w.sources[b] :: a == b
  }

  /** Every redeemed device has paid for a token. */
  ghost predicate DevicesSpent(w: World) {
    forall dc | dc in w.store.devices && w.store.devices[dc].redeemed ::
      exists tk :: tk in w.sources && w.sources[tk] == FromDevice(dc)
  }

  ghost predicate Accountable(w: World) {
    CodesKnown(w) && ApprovalsKnown(w) && TokensExplained(w) && SourcesDistinct(w) && DevicesSpent(w)
  }

  lemma IssueTouches(cfg: Config, s: State, e: Event)
    ensures var t := Step(cfg, s, e).0;
            match e.op
            case IssueCode(provider, redirectURI, id, code) =>
              t == s.(codes := s.codes[code := AuthCode(provider, redirectURI, id, e.now + cfg.codeTTL)])
            case StartDevice(_, dc, _) =>
              && dc in t.devices && t.devices[dc].status == Pending && !t.devices[dc].redeemed
              && t == s.(devices := s.devices[dc := t.devices[dc]], userCodes := t.userCodes)
            case LookupToken(_, _) => t == s
            case _ => true
  {
  }

  lemma NewCodeKeeps(w: World, code: string, c: AuthCode)
    requires Accountable(w) && code !in w.issued
    ensures Accountable(w.(store := w.store.(codes := w.store.codes[code := c]), issued := w.issued[code := c]))
  {
    var v := w.(store := w.store.(codes := w.store.codes[code := c]), issued := w.issued[code := c]);
    forall tk | tk in v.sources ensures Explains(v, v.sources[tk], v.store.tokens[tk]) {
      assert Explains(w, w.sources[tk], w.store.tokens[tk]);
    }
  }

  lemma NewDeviceKeeps(w: World, dc: string, d: DeviceAuth, userCodes: map<string, string>)
    requires Accountable(w) && dc !in w.store.devices && d.status == Pending && !d.redeemed
    ensures Accountable(w.(store := w.store.(devices := w.store.devices[dc := d], userCodes := userCodes)))
  {
    var v := w.(store := w.store.(devices := w.store.devices[dc := d], userCodes := userCodes));
    forall tk | tk in v.sources ensures Explains(v, v.sources[tk], v.store.tokens[tk]) {
      assert Explains(w, w.sources[tk], w.store.tokens[tk]);
    }
  }

  lemma IssueKeeps(cfg: Config, w: World, e: Event)
    requires Accountable(w) && New(w, e.op) && (e.op.IssueCode? || e.op.StartDevice? || e.op.LookupToken?)
    ensures Accountable(Advance(cfg, w, e))
  {
    hide Step, IsUserCode, Accountable;
    IssueTouches(cfg, w.store, e);
    var t := Step(cfg, w.store, e).0;
    match e.op
    case IssueCode(_, _, _, code) => NewCodeKeeps(w, code, t.codes[code]);
    case StartDevice(_, dc, _) => NewDeviceKeeps(w, dc, t.devices[dc], t.userCodes);
    case _ =>
  }

  /** Consuming a code that never gave a token. */
  lemma BurnKeeps(w: World, code: string)
    requires Accountable(w)
    ensures Accountable(w.(store := w.store.(codes := w.store.codes - {code})))
  {
    var v := w.(store := w.store.(codes := w.store.codes - {code}));
    forall tk | tk in v.sources ensures Explains(v, v.sources[tk], v.store.tokens[tk]) {
      assert Explains(w, w.sources[tk], w.store.tokens[tk]);
    }
  }

  lemma RedeemedCodeKeeps(w: World, code: string, token: string)
    requires Accountable(w) && token !in w.store.tokens
    requires code in w.issued && code !in w.store.codes && forall tk <- w.sources :: w.sources[tk] != FromCode(code)
    ensures Accountable(w.(store := w.store.(tokens := w.store.tokens[token := AccessToken(w.issued[code].provider, w.issued[code].identity)]),
                           sources := w.sources[token := FromCode(code)]))
  {
    var v := w.(store := w.store.(tokens := w.store.tokens[token := AccessToken(w.issued[code].provider, w.issued[code].identity)]),
                sources := w.sources[token := FromCode(code)]);
    forall tk | tk in v.sources ensures Explains(v, v.sources[tk], v.store.tokens[tk]) {
      if tk != token {
        assert Explains(w, w.sources[tk], w.store.tokens[tk]);
      }
    }
    forall dc | dc in v.store.devices && v.store.devices[dc].redeemed
      ensures exists tk :: tk in v.sources && v.sources[tk] == FromDevice(dc)
    {
      var tk :| tk in w.sources && w.sources[tk] == FromDevice(dc);
      assert v.sources[tk] == FromDevice(dc);
    }
  }

  /** A code still in the store has given no token. */
  lemma LiveCodeUnspent(w: World, code: string)
    requires Accountable(w) && code in w.store.codes
    ensures code in w.issued && w.issued[code] == w.store.codes[code]
    ensures forall tk <- w.sources :: w.sources[tk] != FromCode(code)
  {
    forall tk | tk in w.sources ensures w.sources[tk] != FromCode(code) {
      assert Explains(w, w.sources[tk], w.store.tokens[tk]);
    }
  }

  lemma RedeemKeeps(cfg: Config, w: World, e: Event)
    requires Accountable(w) && New(w, e.op) && e.op.RedeemCode?
    ensures Accountable(Advance(cfg, w, e))
  {
    hide Accountable;
    var code := e.op.code;
    if code in w.store.codes && w.store.codes[code].provider == e.op.provider {
      LiveCodeUnspent(w, code);
      BurnKeeps(w, code);
      var burned := w.(store := w.store.(codes := w.store.codes - {code}));
      if Step(cfg, w.store, e).1.Token? {
        RedeemedCodeKeeps(burned, code, e.op.token);
      }
    }
  }

  function WithDevice(w: World, dc: string, d: DeviceAuth): World {
    w.(store := w.store.(devices := w.store.devices[dc := d]))
  }

  /** An update that leaves a device's provider, decision, identity and redemption
      alone, or denies a pending one. */
  lemma DeviceUpdateKeeps(w: World, dc: string, d: DeviceAuth)
    requires Accountable(w) && dc in w.store.devices
    requires var was := w.store.devices[dc];
             && d.provider == was.provider && d.identity == was.identity && d.redeemed == was.redeemed
             && (d.status == Approved <==> was.status == Approved)
    ensures Accountable(WithDevice(w, dc, d))
  {
    var v := WithDevice(w, dc, d);
    forall tk | tk in v.sources ensures Explains(v, v.sources[tk], v.store.tokens[tk]) {
      assert Explains(w, w.sources[tk], w.store.tokens[tk]);
    }
  }

  lemma ApproveKeeps(w: World, dc: string, id: Identity)
    requires Accountable(w) && dc in w.store.devices && w.store.devices[dc].status == Pending
    ensures Accountable(WithDevice(w, dc, w.store.devices[dc].(status := Approved, identity := id))
                        .(approved := w.approved[dc := id]))
  {
    var v := WithDevice(w, dc, w.store.devices[dc].(status := Approved, identity := id)).(approved := w.approved[dc := id]);
    forall tk | tk in v.sources ensures Explains(v, v.sources[tk], v.store.tokens[tk]) {
      assert Explains(w, w.sources[tk], w.store.tokens[tk]);
    }
  }

  function Spent(w: World, dc: string, d: DeviceAuth, token: string): World {
    var v := WithDevice(w, dc, d);
    v.(store := v.store.(tokens := v.store.tokens[token := AccessToken(d.provider, d.identity)]),
       sources := v.sources[token := FromDevice(dc)])
  }

  lemma SpendKeeps(w: World, dc: string, d: DeviceAuth, token: string)
    requires Accountable(w) && dc in w.store.devices && token !in w.store.tokens
    requires var was := w.store.devices[dc];
             was.status == Approved && !was.redeemed
             && d == was.(redeemed := true, lastPoll := d.lastPoll)
    ensures Accountable(Spent(w, dc, d, token))
  {
    SpendKeepsTokens(w, dc, d, token);
    SpendKeepsSpent(w, Spent(w, dc, d, token), dc, token);
    hide Explains, TokensExplained, SourcesDistinct, DevicesSpent;
  }

  lemma SpendKeepsTokens(w: World, dc: string, d: DeviceAuth, token: string)
    requires TokensExplained(w) && SourcesDistinct(w)
    requires dc in w.store.devices && dc in w.approved && token !in w.store.tokens
    requires !w.store.devices[dc].redeemed && w.approved[dc] == d.identity
    requires d.redeemed && d.provider == w.store.devices[dc].provider
    ensures TokensExplained(Spent(w, dc, d, token)) && SourcesDistinct(Spent(w, dc, d, token))
  {
    var v := Spent(w, dc, d, token);
    forall tk | tk in v.sources ensures Explains(v, v.sources[tk], v.store.tokens[tk]) {
      if tk != token {
        assert Explains(w, w.sources[tk], w.store.tokens[tk]);
      }
    }
    forall tk | tk in w.sources ensures w.sources[tk] != FromDevice(dc) {
      assert Explains(w, w.sources[tk], w.store.tokens[tk]);
    }
  }

  lemma SpendKeepsSpent(w: World, v: World, dc: string, token: string)
    requires DevicesSpent(w) && token !in w.sources && v.sources == w.sources[token := FromDevice(dc)]
    requires v.store.devices.Keys == w.store.devices.Keys
    requires forall d <- w.store.devices :: d != dc ==> v.store.devices[d] == w.store.devices[d]
    ensures DevicesSpent(v)
  {
    forall d | d in v.store.devices && v.store.devices[d].redeemed
      ensures exists tk :: tk in v.sources && v.sources[tk] == FromDevice(d)
    {
      if d == dc {
        assert v.sources[token] == FromDevice(d);
      } else {
        var tk :| tk in w.sources && w.sources[tk] == FromDevice(d);
        assert v.sources[tk] == FromDevice(d);
      }
    }
  }

  lemma ResolveKeeps(cfg: Config, w: World, e: Event)
    requires Accountable(w) && e.op.ResolveDevice?
    ensures Accountable(Advance(cfg, w, e))
  {
    hide Normalize, Accountable;
    if Step(cfg, w.store, e).1 == Resolved {
      var dc := w.store.userCodes[Normalize(e.op.userCode)];
      if e.op.approve {
        ApproveKeeps(w, dc, e.op.id);
      } else {
        DeviceUpdateKeeps(w, dc, w.store.devices[dc].(status := Denied));
      }
    }
  }

  lemma PollKeeps(cfg: Config, w: World, e: Event)
    requires Accountable(w) && New(w, e.op) && e.op.PollDevice?
    ensures Accountable(Advance(cfg, w, e))
  {
    hide Accountable;
    var dc := e.op.deviceCode;
    var (t, a) := Step(cfg, w.store, e);
    if t != w.store {
      if a.Token? {
        SpendKeeps(w, dc, t.devices[dc], e.op.token);
      } else {
        DeviceUpdateKeeps(w, dc, t.devices[dc]);
      }
    }
  }

  lemma AdvanceKeeps(cfg: Config, w: World, e: Event)
    requires Accountable(w) && New(w, e.op)
    ensures Accountable(Advance(cfg, w, e))
  {
    hide Advance, Accountable;
    match e.op
    case RedeemCode(_, _, _, _) => RedeemKeeps(cfg, w, e);
    case ResolveDevice(_, _, _, _) => ResolveKeeps(cfg, w, e);
    case PollDevice(_, _, _) => PollKeeps(cfg, w, e);
    case _ => IssueKeeps(cfg, w, e);
  }

  /** History only grows: nothing that happened to a code, an approval or a token is
      ever rewritten. */
  ghost predicate Extends(v: World, w: World) {
    && (forall c <- w.issued :: c in v.issued && v.issued[c] == w.issued[c])
    && (forall dc <- w.approved :: dc in v.approved && v.approved[dc] == w.approved[dc])
    && (forall tk <- w.sources :: tk in v.sources && v.sources[tk] == w.sources[tk])
    && (forall tk <- w.store.tokens :: tk in v.store.tokens && v.store.tokens[tk] == w.store.tokens[tk])
    && (forall c <- w.issued :: c !in w.store.codes ==> c !in v.store.codes)
  }

  lemma AdvanceExtends(cfg: Config, w: World, e: Event)
    requires Accountable(w) && New(w, e.op)
    ensures Extends(Advance(cfg, w, e), w)
  {
    if e.op.ResolveDevice? {
      ApprovalsPermanent(cfg, w, e);
    } else if e.op.RedeemCode? || e.op.PollDevice? {
      TokensPermanent(cfg, w, e);
    }
  }

  lemma ApprovalsPermanent(cfg: Config, w: World, e: Event)
    requires ApprovalsKnown(w) && e.op.ResolveDevice?
    ensures Extends(Advance(cfg, w, e), w)
  {
    hide Normalize;
  }

  /** What redeeming and polling may change. */
  lemma TokenTouches(cfg: Config, s: State, e: Event)
    requires e.op.RedeemCode? || e.op.PollDevice?
    ensures var t := Step(cfg, s, e).0;
            && (forall tk <- s.tokens :: tk != e.op.token ==> tk in t.tokens && t.tokens[tk] == s.tokens[tk])
            && t.codes.Keys <= s.codes.Keys
  {
    hide IssueCodeStep, StartDeviceStep, ResolveDeviceStep, LookupTokenAnswer;
  }

  lemma TokenStep(cfg: Config, w: World, e: Event)
    requires e.op.RedeemCode? || e.op.PollDevice?
    ensures var v := Advance(cfg, w, e);
            && v.issued == w.issued && v.approved == w.approved
            && (forall tk <- w.sources :: tk != e.op.token ==> tk in v.sources && v.sources[tk] == w.sources[tk])
            && (forall tk <- w.store.tokens ::
                  tk != e.op.token ==> tk in v.store.tokens && v.store.tokens[tk] == w.store.tokens[tk])
            && v.store.codes.Keys <= w.store.codes.Keys
  {
    hide Step, Normalize;
    TokenTouches(cfg, w.store, e);
  }

  lemma TokensPermanent(cfg: Config, w: World, e: Event)
    requires w.sources.Keys == w.store.tokens.Keys && New(w, e.op) && (e.op.RedeemCode? || e.op.PollDevice?)
    ensures Extends(Advance(cfg, w, e), w)
  {
    hide Advance;
    TokenStep(cfg, w, e);
  }

  lemma {:induction false} RunKeeps(cfg: Config, w: World, events: seq<Event>)
    requires Accountable(w) && LegalRun(cfg, w, events)
    ensures Accountable(RunWorld(cfg, w, events))
    ensures Extends(RunWorld(cfg, w, events), w)
    decreases |events|
  {
    if events != [] {
      hide Advance, Accountable, New;
      var v := Advance(cfg, w, events[0]);
      AdvanceKeeps(cfg, w, events[0]);
      AdvanceExtends(cfg, w, events[0]);
      RunKeeps(cfg, v, events[1..]);
    }
  }

  /** Main result: in every reachable state each token stems from one used-up code or
      redeemed device, different tokens from different ones, and carries that
      source's provider and identity; conversely each redeemed device has exactly one
      token. */
  lemma TokensHaveProvenance(cfg: Config, events: seq<Event>)
    requires LegalRun(cfg, NEW_WORLD, events)
    ensures var w := RunWorld(cfg, NEW_WORLD, events);
            && w.sources.Keys == w.store.tokens.Keys
            && (forall tk <- w.store.tokens :: Explains(w, w.sources[tk], w.store.tokens[tk]))
            && (forall a, b | a in w.sources && b in w.sources && w.sources[a] == w.sources[b] :: a == b)
            && (forall dc <- w.store.devices ::
                  w.store.devices[dc].redeemed <==> FromDevice(dc) in w.sources.Values)
  {
    RunKeeps(cfg, NEW_WORLD, events);
    var w := RunWorld(cfg, NEW_WORLD, events);
    forall dc | dc in w.store.devices
      ensures w.store.devices[dc].redeemed <==> FromDevice(dc) in w.sources.Values
    {
      if FromDevice(dc) in w.sources.Values {
        var tk :| tk in w.sources && w.sources[tk] == FromDevice(dc);
        assert Explains(w, w.sources[tk], w.store.tokens[tk]);
      }
    }
  }

  /** A code is good for at most one token, ever: once it has been used or burnt, every
      later attempt to redeem it fails. */
  lemma UsedCodeIsDead(cfg: Config, before: seq<Event>, after: seq<Event>, code: string, provider: string,
                       redirectURI: string, token: string, now: int)
    requires LegalRun(cfg, NEW_WORLD, before)
    requires var w := RunWorld(cfg, NEW_WORLD, before);
             code in w.issued && code !in w.store.codes && LegalRun(cfg, w, after)
    ensures var v := RunWorld(cfg, RunWorld(cfg, NEW_WORLD, before), after);
            Step(cfg, v.store, Event(RedeemCode(provider, code, redirectURI, token), now))
            == (v.store, Failed(InvalidGrant))
  {
    RunKeeps(cfg, NEW_WORLD, before);
    RunKeeps(cfg, RunWorld(cfg, NEW_WORLD, before), after);
  }

  /** An approval is delivered: in any reachable state a poll of an approved, unspent
      device by its provider before it expires gives a token, and from then on, after
      any further operations, that token opens exactly the approved identity, for
      that provider only. */
  lemma ApprovalDelivers(cfg: Config, before: seq<Event>, dc: string, token: string, now: int, after: seq<Event>,
                         reader: string, later: int)
    requires LegalRun(cfg, NEW_WORLD, before)
    requires var w := RunWorld(cfg, NEW_WORLD, before);
             && dc in w.approved && dc in w.store.devices && !w.store.devices[dc].redeemed
             && now <= w.store.devices[dc].expiresAt && token !in w.store.tokens
             && var poll := Event(PollDevice(w.store.devices[dc].provider, dc, token), now);
                LegalRun(cfg, Advance(cfg, w, poll), after)
    ensures var w := RunWorld(cfg, NEW_WORLD, before);
            var d := w.store.devices[dc];
            var poll := Event(PollDevice(d.provider, dc, token), now);
            var v := RunWorld(cfg, Advance(cfg, w, poll), after);
            && Step(cfg, w.store, poll).1 == Token(token)
            && Step(cfg, v.store, Event(LookupToken(reader, token), later)).1
               == (if reader == d.provider then Identified(w.approved[dc]) else Failed(InvalidBearer))
  {
    hide RunWorld, LegalRun, Advance, Accountable, Step;
    NewWorldAccountable();
    RunKeeps(cfg, NEW_WORLD, before);
    var w := RunWorld(cfg, NEW_WORLD, before);
    var poll := Event(PollDevice(w.store.devices[dc].provider, dc, token), now);
    PollIssues(cfg, w, dc, poll);
    AdvanceKeeps(cfg, w, poll);
    RunKeeps(cfg, Advance(cfg, w, poll), after);
    LookupAnswers(cfg, RunWorld(cfg, Advance(cfg, w, poll), after).store, reader, token, later);
  }

  lemma NewWorldAccountable()
    ensures Accountable(NEW_WORLD)
  {
  }

  lemma LookupAnswers(cfg: Config, s: State, provider: string, token: string, now: int)
    requires token in s.tokens
    ensures Step(cfg, s, Event(LookupToken(provider, token), now)).1
            == if provider == s.tokens[token].provider then Identified(s.tokens[token].identity) else Failed(InvalidBearer)
  {
  }

  lemma PollIssues(cfg: Config, w: World, dc: string, poll: Event)
    requires Accountable(w) && dc in w.approved && dc in w.store.devices && !w.store.devices[dc].redeemed
    requires poll.op.PollDevice? && poll.op.deviceCode == dc && poll.op.provider == w.store.devices[dc].provider
    requires poll.now <= w.store.devices[dc].expiresAt
    ensures Step(cfg, w.store, poll).1 == Token(poll.op.token)
    ensures var v := Advance(cfg, w, poll);
            poll.op.token in v.store.tokens
            && v.store.tokens[poll.op.token] == AccessToken(w.store.devices[dc].provider, w.approved[dc])
  {
  }
}
