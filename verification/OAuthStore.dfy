/** The code, device and token store of the OAuth fake: one atomic transition per
    locked operation, and the object that performs them. */
module OAuthStore {
  import opened Wrappers
  import opened UserCodes

  const SECOND: int := 1_000_000_000
  const SLOW_DOWN_PENALTY: int := 5 * SECOND

  datatype Identity = Identity(login: string, email: string, name: string, emailVerified: bool)

  const NOBODY := Identity("", "", "", false)

  datatype AuthCode = AuthCode(provider: string, redirectURI: string, identity: Identity, expiresAt: int)

  datatype DeviceStatus = Pending | Approved | Denied

  /** lastPoll is None until the first poll (the zero time of the store). */
  datatype DeviceAuth = DeviceAuth(
    provider: string,
    userCode: string,
    status: DeviceStatus,
    identity: Identity,
    expiresAt: int,
    interval: int,
    lastPoll: Option<int>,
    redeemed: bool)

  datatype AccessToken = AccessToken(provider: string, identity: Identity)

  datatype Error =
    | InvalidGrant
    | AuthorizationPending
    | SlowDown
    | AccessDenied
    | ExpiredToken
    | UnknownCode
    | NotPending
    | InvalidBearer

  /** Times are nanoseconds. */
  datatype Config = Config(codeTTL: int, interval: nat)

  datatype State = State(
    codes: map<string, AuthCode>,
    devices: map<string, DeviceAuth>,
    userCodes: map<string, string>,
    tokens: map<string, AccessToken>)

  const EMPTY := State(map[], map[], map[], map[])

  /** One call. The random values it may draw are part of it: `code`, `deviceCode`,
      `userCode` and the `token` issued if the call succeeds. */
  datatype Op =
    | IssueCode(provider: string, redirectURI: string, id: Identity, code: string)
    | RedeemCode(provider: string, code: string, redirectURI: string, token: string)
    | StartDevice(provider: string, deviceCode: string, userCode: string)
    | ResolveDevice(provider: string, userCode: string, approve: bool, id: Identity)
    | PollDevice(provider: string, deviceCode: string, token: string)
    | LookupToken(provider: string, token: string)

  datatype Event = Event(op: Op, now: int)

  datatype Answer =
    | Code(code: string)
    | Token(token: string)
    | Started(deviceCode: string, userCode: string, expiresIn: int, interval: int)
    | Resolved
    | Identified(identity: Identity)
    | Failed(error: Error)
    | Panicked

  // ---- Transitions ----

  function IssueCodeStep(cfg: Config, s: State, provider: string, redirectURI: string, id: Identity, code: string, now: int)
    : (State, Answer)
  {
    (s.(codes := s.codes[code := AuthCode(provider, redirectURI, id, now + cfg.codeTTL)]), Code(code))
  }

  function WithToken(s: State, provider: string, id: Identity, token: string): (State, Answer) {
    (s.(tokens := s.tokens[token := AccessToken(provider, id)]), Token(token))
  }

  function RedeemCodeStep(s: State, provider: string, code: string, redirectURI: string, token: string, now: int)
    : (State, Answer)
  {
    if code !in s.codes || s.codes[code].provider != provider then (s, Failed(InvalidGrant))
    else
      var c := s.codes[code];
      var burned := s.(codes := s.codes - {code});
      if now > c.expiresAt || (redirectURI != "" && redirectURI != c.redirectURI) then (burned, Failed(InvalidGrant))
      else WithToken(burned, provider, c.identity, token)
  }

  function StartDeviceStep(cfg: Config, s: State, provider: string, deviceCode: string, userCode: string, now: int)
    : (State, Answer)
  {
    var d := DeviceAuth(provider, userCode, Pending, NOBODY, now + cfg.codeTTL, cfg.interval, None, false);
    (s.(devices := s.devices[deviceCode := d], userCodes := s.userCodes[userCode := deviceCode]),
     Started(deviceCode, userCode, cfg.codeTTL, cfg.interval))
  }

  /** Panicked is the lookup of a device the index names but the store lacks. */
  function ResolveDeviceStep(s: State, provider: string, userCode: string, approve: bool, id: Identity, now: int)
    : (State, Answer)
  {
    var normal := Normalize(userCode);
    if normal !in s.userCodes then (s, Failed(UnknownCode))
    else
      var deviceCode := s.userCodes[normal];
      if deviceCode !in s.devices then (s, Panicked)
      else
        var d := s.devices[deviceCode];
        if d.provider != provider then (s, Failed(UnknownCode))
        else if d.status != Pending || now > d.expiresAt then (s, Failed(NotPending))
        else
          var resolved := if approve then d.(status := Approved, identity := id) else d.(status := Denied);
          (s.(devices := s.devices[deviceCode := resolved]), Resolved)
  }

  function PollDeviceStep(s: State, provider: string, deviceCode: string, token: string, now: int): (State, Answer) {
    if deviceCode !in s.devices || s.devices[deviceCode].provider != provider || s.devices[deviceCode].redeemed then
      (s, Failed(InvalidGrant))
    else
      var d := s.devices[deviceCode];
      if now > d.expiresAt then (s, Failed(ExpiredToken))
      else
        var tooFast := d.lastPoll.Some? && now - d.lastPoll.value < d.interval;
        var polled := d.(lastPoll := Some(now));
        match d.status
        case Denied => (s.(devices := s.devices[deviceCode := polled]), Failed(AccessDenied))
        case Approved =>
          WithToken(s.(devices := s.devices[deviceCode := polled.(redeemed := true)]), provider, d.identity, token)
        case Pending =>
          if tooFast then
            (s.(devices := s.devices[deviceCode := polled.(interval := d.interval + SLOW_DOWN_PENALTY)]), Failed(SlowDown))
          else (s.(devices := s.devices[deviceCode := polled]), Failed(AuthorizationPending))
  }

  function LookupTokenAnswer(s: State, provider: string, token: string): Answer {
    if token !in s.tokens || s.tokens[token].provider != provider then Failed(InvalidBearer)
    else Identified(s.tokens[token].identity)
  }

  function Step(cfg: Config, s: State, e: Event): (State, Answer) {
    match e.op
    case IssueCode(provider, redirectURI, id, code) => IssueCodeStep(cfg, s, provider, redirectURI, id, code, e.now)
    case RedeemCode(provider, code, redirectURI, token) => RedeemCodeStep(s, provider, code, redirectURI, token, e.now)
    case StartDevice(provider, deviceCode, userCode) => StartDeviceStep(cfg, s, provider, deviceCode, userCode, e.now)
    case ResolveDevice(provider, userCode, approve, id) => ResolveDeviceStep(s, provider, userCode, approve, id, e.now)
    case PollDevice(provider, deviceCode, token) => PollDeviceStep(s, provider, deviceCode, token, e.now)
    case LookupToken(provider, token) => (s, LookupTokenAnswer(s, provider, token))
  }

  // ---- Runs ----

  /** The random values an event draws are new; a user code is one the generator can
      produce and has found free. */
  predicate FreshDraws(s: State, op: Op) {
    match op
    case IssueCode(_, _, _, code) => code !in s.codes
    case RedeemCode(_, _, _, token) => token !in s.tokens
    case StartDevice(_, deviceCode, userCode) =>
      deviceCode !in s.devices && userCode !in s.userCodes && IsUserCode(userCode)
    case ResolveDevice(_, _, _, _) => true
    case PollDevice(_, _, token) => token !in s.tokens
    case LookupToken(_, _) => true
  }

  /** The lock makes a concurrent run a sequence of events under a clock that never
      goes back. */
  predicate Legal(cfg: Config, s: State, clock: int, events: seq<Event>)
    decreases |events|
  {
    events == [] ||
    (&& clock <= events[0].now
     && FreshDraws(s, events[0].op)
     && Legal(cfg, Step(cfg, s, events[0]).0, events[0].now, events[1..]))
  }

  function Run(cfg: Config, s: State, events: seq<Event>): State
    decreases |events|
  {
    if events == [] then s else Run(cfg, Step(cfg, s, events[0]).0, events[1..])
  }

  // ---- The index invariant ----

  /** The user-code index and the device map are mutually inverse. */
  ghost predicate Indexed(s: State) {
    && (forall uc <- s.userCodes ::
          s.userCodes[uc] in s.devices && s.devices[s.userCodes[uc]].userCode == uc && IsUserCode(uc))
    && (forall dc <- s.devices ::
          s.devices[dc].userCode in s.userCodes && s.userCodes[s.devices[dc].userCode] == dc)
  }

  lemma StepKeepsIndex(cfg: Config, s: State, e: Event)
    requires Indexed(s) && (e.op.StartDevice? ==> FreshDraws(s, e.op))
    ensures Indexed(Step(cfg, s, e).0)
    ensures Step(cfg, s, e).1 != Panicked
  {
    hide Normalize, IsUserCode;
    match e.op
    case IssueCode(_, _, _, _) =>
    case RedeemCode(_, _, _, _) =>
    case StartDevice(provider, dc, uc) =>
      StartKeepsIndex(cfg, s, provider, dc, uc, e.now);
    case ResolveDevice(_, userCode, _, _) =>
      KeepsIndex(s, Step(cfg, s, e).0);
    case PollDevice(_, dc, _) =>
      KeepsIndex(s, Step(cfg, s, e).0);
    case LookupToken(_, _) =>
  }

  lemma StartKeepsIndex(cfg: Config, s: State, provider: string, dc: string, uc: string, now: int)
    requires Indexed(s) && dc !in s.devices && uc !in s.userCodes && IsUserCode(uc)
    ensures Indexed(StartDeviceStep(cfg, s, provider, dc, uc, now).0)
  {
    hide IsUserCode;
  }

  /** Changing devices but not their user codes keeps the index. */
  lemma KeepsIndex(s: State, t: State)
    requires Indexed(s) && t.userCodes == s.userCodes && t.devices.Keys == s.devices.Keys
    requires forall dc <- s.devices :: t.devices[dc].userCode == s.devices[dc].userCode
    ensures Indexed(t)
  {
  }

  lemma {:induction false} RunKeepsIndex(cfg: Config, s: State, clock: int, events: seq<Event>)
    requires Indexed(s) && Legal(cfg, s, clock, events)
    ensures Indexed(Run(cfg, s, events))
    decreases |events|
  {
    if events != [] {
      StepKeepsIndex(cfg, s, events[0]);
      RunKeepsIndex(cfg, Step(cfg, s, events[0]).0, events[0].now, events[1..]);
    }
  }

  /** At every point of every run the index is exact, so the next lookup through it
      does not miss. */
  lemma {:induction false} LookupNeverMisses(cfg: Config, s: State, clock: int, events: seq<Event>, i: nat)
    requires Indexed(s) && Legal(cfg, s, clock, events) && i < |events|
    ensures Indexed(Run(cfg, s, events[..i]))
    ensures Step(cfg, Run(cfg, s, events[..i]), events[i]).1 != Panicked
    decreases |events|
  {
    StepKeepsIndex(cfg, s, events[0]);
    if i > 0 {
      LookupNeverMisses(cfg, Step(cfg, s, events[0]).0, events[0].now, events[1..], i - 1);
      assert events[..i][1..] == events[1..][..i - 1];
    }
  }

  /** In every reachable state, any text that spells a live device's user code, with
      capital or small letters and anything between them, resolves that device and no
      other. */
  lemma SpelledCodeResolves(cfg: Config, clock: int, events: seq<Event>, dc: string, text: string,
                            approve: bool, id: Identity, now: int)
    requires Legal(cfg, EMPTY, clock, events)
    requires var s := Run(cfg, EMPTY, events);
             && dc in s.devices && |s.devices[dc].userCode| == 9
             && Spells(text, Plain(s.devices[dc].userCode))
             && s.devices[dc].status == Pending && now <= s.devices[dc].expiresAt
    ensures var s := Run(cfg, EMPTY, events);
            var d := s.devices[dc];
            var (t, a) := Step(cfg, s, Event(ResolveDevice(d.provider, text, approve, id), now));
            && a == Resolved
            && t.devices[dc].status == (if approve then Approved else Denied)
            && (approve ==> t.devices[dc].identity == id)
            && t == s.(devices := s.devices[dc := t.devices[dc]])
  {
    RunKeepsIndex(cfg, EMPTY, clock, events);
    NormalizeExact(text, Run(cfg, EMPTY, events).devices[dc].userCode);
  }

  // ---- The object ----

  class Store {
    const cfg: Config
    var codes: map<string, AuthCode>
    var devices: map<string, DeviceAuth>
    var userCodes: map<string, string>
    var tokens: map<string, AccessToken>

    ghost function View(): State
      reads this
    {
      State(codes, devices, userCodes, tokens)
    }

    ghost predicate Valid()
      reads this
    {
      Indexed(View())
    }

    constructor (codeTTL: int, interval: nat)
      ensures Valid() && View() == EMPTY && cfg == Config(codeTTL, interval)
    {
      cfg := Config(codeTTL, interval);
      codes, devices, userCodes, tokens := map[], map[], map[], map[];
    }

    method IssueCode(provider: string, redirectURI: string, id: Identity, now: int, random: string) returns (code: string)
      requires Valid()
      modifies this`codes
      ensures Valid()
      ensures (View(), Code(code)) == Step(cfg, old(View()), Event(Op.IssueCode(provider, redirectURI, id, random), now))
    {
      code := random;
      codes := codes[code := AuthCode(provider, redirectURI, id, now + cfg.codeTTL)];
    }

    method IssueToken(provider: string, id: Identity, random: string) returns (token: string)
      modifies this`tokens
      ensures token == random && tokens == old(tokens)[token := AccessToken(provider, id)]
    {
      token := random;
      tokens := tokens[token := AccessToken(provider, id)];
    }

    method RedeemCode(provider: string, code: string, redirectURI: string, now: int, random: string)
      returns (r: Result<string, Error>)
      requires Valid()
      modifies this`codes, this`tokens
      ensures Valid()
      ensures (View(), TokenAnswer(r))
              == Step(cfg, old(View()), Event(Op.RedeemCode(provider, code, redirectURI, random), now))
    {
      if code !in codes || codes[code].provider != provider {
        return Err(InvalidGrant);
      }
      var c := codes[code];
      codes := codes - {code};
      if now > c.expiresAt || (redirectURI != "" && redirectURI != c.redirectURI) {
        return Err(InvalidGrant);
      }
      var token := IssueToken(provider, c.identity, random);
      return Ok(token);
    }

    /** `draws` feeds the user-code generator, which retries until a code is free. */
    method StartDevice(provider: string, now: int, deviceCode: string, draws: seq<seq<nat>>) returns (userCode: string)
      requires Valid() && deviceCode !in devices
      requires forall b <- draws :: |b| == 8
      requires exists k | 0 <= k < |draws| :: CodeOf(draws[k]) !in userCodes.Keys
      modifies this`devices, this`userCodes
      ensures Valid()
      ensures userCode !in old(userCodes) && IsUserCode(userCode)
      ensures (View(), Started(deviceCode, userCode, cfg.codeTTL, cfg.interval))
              == Step(cfg, old(View()), Event(Op.StartDevice(provider, deviceCode, userCode), now))
    {
      userCode := NewUserCode(userCodes.Keys, draws);
      devices := devices[deviceCode :=
        DeviceAuth(provider, userCode, Pending, NOBODY, now + cfg.codeTTL, cfg.interval, None, false)];
      userCodes := userCodes[userCode := deviceCode];
      StepKeepsIndex(cfg, old(View()), Event(Op.StartDevice(provider, deviceCode, userCode), now));
    }

    method ResolveDevice(provider: string, userCode: string, approve: bool, id: Identity, now: int)
      returns (err: Option<Error>)
      requires Valid()
      modifies this`devices
      ensures Valid()
      ensures (View(), if err.Some? then Failed(err.value) else Resolved)
              == Step(cfg, old(View()), Event(Op.ResolveDevice(provider, userCode, approve, id), now))
    {
      StepKeepsIndex(cfg, View(), Event(Op.ResolveDevice(provider, userCode, approve, id), now));
      var normal := NormalizeUserCode(userCode);
      if normal !in userCodes {
        return Some(UnknownCode);
      }
      var deviceCode := userCodes[normal];
      var d := devices[deviceCode];
      if d.provider != provider {
        return Some(UnknownCode);
      }
      if d.status != Pending || now > d.expiresAt {
        return Some(NotPending);
      }
      if approve {
        d := d.(status := Approved);
        d := d.(identity := id);
      } else {
        d := d.(status := Denied);
      }
      devices := devices[deviceCode := d];
      return None;
    }

    method PollDevice(provider: string, deviceCode: string, now: int, random: string) returns (r: Result<string, Error>)
      requires Valid()
      modifies this`devices, this`tokens
      ensures Valid()
      ensures (View(), TokenAnswer(r)) == Step(cfg, old(View()), Event(Op.PollDevice(provider, deviceCode, random), now))
    {
      hide Indexed;
      StepKeepsIndex(cfg, View(), Event(Op.PollDevice(provider, deviceCode, random), now));
      if deviceCode !in devices || devices[deviceCode].provider != provider || devices[deviceCode].redeemed {
        return Err(InvalidGrant);
      }
      var d := devices[deviceCode];
      if now > d.expiresAt {
        return Err(ExpiredToken);
      }
      var tooFast := d.lastPoll.Some? && now - d.lastPoll.value < d.interval;
      d := d.(lastPoll := Some(now));
      devices := devices[deviceCode := d];
      match d.status {
        case Denied => return Err(AccessDenied);
        case Approved =>
          devices := devices[deviceCode := d.(redeemed := true)];
          assert devices == old(devices)[deviceCode := d.(redeemed := true)];
          var token := IssueToken(provider, d.identity, random);
          return Ok(token);
        case Pending =>
      }
      if tooFast {
        devices := devices[deviceCode := d.(interval := d.interval + SLOW_DOWN_PENALTY)];
        assert devices == old(devices)[deviceCode := d.(interval := d.interval + SLOW_DOWN_PENALTY)];
        return Err(SlowDown);
      }
      return Err(AuthorizationPending);
    }

    method LookupToken(provider: string, token: string, now: int) returns (r: Result<Identity, Error>)
      ensures (View(), if r.Ok? then Identified(r.value) else Failed(r.error))
              == Step(cfg, View(), Event(Op.LookupToken(provider, token), now))
    {
      if token !in tokens || tokens[token].provider != provider {
        return Err(InvalidBearer);
      }
      return Ok(tokens[token].identity);
    }
  }

  function TokenAnswer(r: Result<string, Error>): Answer {
    match r
    case Ok(token) => Token(token)
    case Err(e) => Failed(e)
  }
}
