/** One device request seen through any run of the store: the answers its client
    gets, how often, and how fast (sections 3.4 and 3.5 of RFC 8628). */
module DeviceFlow {
  import opened Wrappers
  import opened UserCodes
  import opened OAuthStore

  // ---- One device on its own ----

  function NewDevice(cfg: Config, provider: string, userCode: string, now: int): DeviceAuth {
    DeviceAuth(provider, userCode, Pending, NOBODY, now + cfg.codeTTL, cfg.interval, None, false)
  }

  /** What a poll by the device's own provider is answered. */
  function PollAnswer(d: DeviceAuth, token: string, now: int): Answer {
    if d.redeemed then Failed(InvalidGrant)
    else if now > d.expiresAt then Failed(ExpiredToken)
    else
      match d.status
      case Denied => Failed(AccessDenied)
      case Approved => Token(token)
      case Pending =>
        if d.lastPoll.Some? && now - d.lastPoll.value < d.interval then Failed(SlowDown) else Failed(AuthorizationPending)
  }

  /** What that poll does to the device. */
  function AfterPoll(d: DeviceAuth, now: int): DeviceAuth {
    match PollAnswer(d, "", now)
    case Token(_) => d.(lastPoll := Some(now), redeemed := true)
    case Failed(SlowDown) => d.(lastPoll := Some(now), interval := d.interval + SLOW_DOWN_PENALTY)
    case Failed(InvalidGrant) => d
    case Failed(ExpiredToken) => d
    case _ => d.(lastPoll := Some(now))
  }

  /** e is a poll of device code dc by the device's provider. */
  predicate OwnPoll(e: Event, provider: string, dc: string) {
    e.op.PollDevice? && e.op.provider == provider && e.op.deviceCode == dc
  }

  predicate Resolves(d: DeviceAuth, e: Event) {
    && e.op.ResolveDevice? && e.op.provider == d.provider && Normalize(e.op.userCode) == d.userCode
    && d.status == Pending && e.now <= d.expiresAt
  }

  function DeviceAfter(d: DeviceAuth, dc: string, e: Event): DeviceAuth {
    if OwnPoll(e, d.provider, dc) then AfterPoll(d, e.now)
    else if Resolves(d, e) then
      if e.op.approve then d.(status := Approved, identity := e.op.id) else d.(status := Denied)
    else d
  }

  function DeviceRun(d: DeviceAuth, dc: string, events: seq<Event>): DeviceAuth
    decreases |events|
  {
    if events == [] then d else DeviceRun(DeviceAfter(d, dc, events[0]), dc, events[1..])
  }

  /** The answers the device's own provider gets, in order. */
  function Answers(d: DeviceAuth, dc: string, events: seq<Event>): seq<Answer>
    decreases |events|
  {
    if events == [] then []
    else
      var rest := Answers(DeviceAfter(d, dc, events[0]), dc, events[1..]);
      if OwnPoll(events[0], d.provider, dc) then [PollAnswer(d, events[0].op.token, events[0].now)] + rest else rest
  }

  predicate Clocked(clock: int, events: seq<Event>)
    decreases |events|
  {
    events == [] || (clock <= events[0].now && Clocked(events[0].now, events[1..]))
  }

  // ---- The store, projected on a device ----

  /** The answers in a run of the whole store to polls of dc by provider. */
  function PollAnswers(cfg: Config, s: State, events: seq<Event>, provider: string, dc: string): seq<Answer>
    decreases |events|
  {
    if events == [] then []
    else
      var (t, a) := Step(cfg, s, events[0]);
      var rest := PollAnswers(cfg, t, events[1..], provider, dc);
      if OwnPoll(events[0], provider, dc) then [a] + rest else rest
  }

  lemma StepProjects(cfg: Config, s: State, e: Event, dc: string)
    requires Indexed(s) && FreshDraws(s, e.op) && dc in s.devices
    ensures var (t, a) := Step(cfg, s, e);
            && dc in t.devices && t.devices[dc] == DeviceAfter(s.devices[dc], dc, e)
            && (OwnPoll(e, s.devices[dc].provider, dc) ==> a == PollAnswer(s.devices[dc], e.op.token, e.now))
  {
    hide Normalize, IsUserCode;
  }

  lemma StepKeepsProvider(d: DeviceAuth, dc: string, e: Event)
    ensures DeviceAfter(d, dc, e).provider == d.provider
  {
    hide Normalize;
  }

  /** The rest of the store never matters to a device. */
  lemma {:induction false} RunProjects(cfg: Config, s: State, clock: int, events: seq<Event>, dc: string)
    requires Indexed(s) && Legal(cfg, s, clock, events) && dc in s.devices
    ensures var d := s.devices[dc];
            && dc in Run(cfg, s, events).devices
            && Run(cfg, s, events).devices[dc] == DeviceRun(d, dc, events)
            && PollAnswers(cfg, s, events, d.provider, dc) == Answers(d, dc, events)
            && Clocked(clock, events)
    decreases |events|
  {
    hide Indexed, Step, PollAnswer, AfterPoll, FreshDraws;
    if events != [] {
      StepKeepsIndex(cfg, s, events[0]);
      StepProjects(cfg, s, events[0], dc);
      StepKeepsProvider(s.devices[dc], dc, events[0]);
      hide DeviceAfter;
      RunProjects(cfg, Step(cfg, s, events[0]).0, events[0].now, events[1..], dc);
    }
  }

  lemma UnstartedStep(cfg: Config, s: State, e: Event, provider: string, dc: string)
    requires Indexed(s) && dc !in s.devices && !(e.op.StartDevice? && e.op.deviceCode == dc)
    ensures dc !in Step(cfg, s, e).0.devices
    ensures OwnPoll(e, provider, dc) ==> Step(cfg, s, e).1 == Failed(InvalidGrant)
  {
    hide Normalize, IsUserCode;
  }

  // ---- The shape of the answers ----

  predicate AllAre(w: seq<Answer>, a: Answer) {
    forall i | 0 <= i < |w| :: w[i] == a
  }

  predicate IsWaiting(a: Answer) {
    a == Failed(AuthorizationPending) || a == Failed(SlowDown)
  }

  /** From position k on: one token, then only invalid_grant. */
  predicate TokenFrom(w: seq<Answer>, k: nat) {
    k < |w| && w[k].Token? && forall i | k < i < |w| :: w[i] == Failed(InvalidGrant)
  }

  /** From position k on: access_denied up to m, then expired_token. */
  predicate DeniedFrom(w: seq<Answer>, k: nat, m: nat) {
    && k <= m <= |w|
    && (forall i | k <= i < m :: w[i] == Failed(AccessDenied))
    && (forall i | m <= i < |w| :: w[i] == Failed(ExpiredToken))
  }

  /** The answers form a word of (pending | slow_down)* followed by either one token
      and then only invalid_grant, or access_denied* and then expired_token*. */
  predicate DeviceWord(w: seq<Answer>, k: nat, m: nat) {
    k <= |w| && (forall i | 0 <= i < k :: IsWaiting(w[i])) && (TokenFrom(w, k) || DeniedFrom(w, k, m))
  }

  lemma {:induction false} RedeemedAnswers(d: DeviceAuth, dc: string, events: seq<Event>)
    requires d.redeemed
    ensures AllAre(Answers(d, dc, events), Failed(InvalidGrant))
    decreases |events|
  {
    if events != [] {
      RedeemedAnswers(DeviceAfter(d, dc, events[0]), dc, events[1..]);
    }
  }

  lemma {:induction false} ExpiredAnswers(d: DeviceAuth, dc: string, clock: int, events: seq<Event>)
    requires !d.redeemed && clock > d.expiresAt && Clocked(clock, events)
    ensures AllAre(Answers(d, dc, events), Failed(ExpiredToken))
    decreases |events|
  {
    if events != [] {
      ExpiredAnswers(DeviceAfter(d, dc, events[0]), dc, events[0].now, events[1..]);
    }
  }

  lemma {:induction false} DeniedAnswers(d: DeviceAuth, dc: string, clock: int, events: seq<Event>) returns (m: nat)
    requires !d.redeemed && d.status == Denied && Clocked(clock, events)
    ensures DeniedFrom(Answers(d, dc, events), 0, m)
    decreases |events|
  {
    m := 0;
    if events != [] {
      var e := events[0];
      if OwnPoll(e, d.provider, dc) && e.now > d.expiresAt {
        ExpiredAnswers(d, dc, e.now, events[1..]);
      } else {
        m := DeniedAnswers(DeviceAfter(d, dc, e), dc, e.now, events[1..]);
        m := if OwnPoll(e, d.provider, dc) then m + 1 else m;
      }
    }
  }

  lemma {:induction false} ApprovedAnswers(d: DeviceAuth, dc: string, clock: int, events: seq<Event>)
    requires !d.redeemed && d.status == Approved && Clocked(clock, events)
    ensures TokenFrom(Answers(d, dc, events), 0) || DeniedFrom(Answers(d, dc, events), 0, 0)
    decreases |events|
  {
    if events != [] {
      var e := events[0];
      if OwnPoll(e, d.provider, dc) {
        if e.now > d.expiresAt {
          ExpiredAnswers(d, dc, e.now, events[1..]);
        } else {
          RedeemedAnswers(DeviceAfter(d, dc, e), dc, events[1..]);
        }
      } else {
        ApprovedAnswers(DeviceAfter(d, dc, e), dc, e.now, events[1..]);
      }
    }
  }

  lemma {:induction false} PendingAnswers(d: DeviceAuth, dc: string, clock: int, events: seq<Event>) returns (k: nat, m: nat)
    requires !d.redeemed && d.status == Pending && Clocked(clock, events)
    ensures DeviceWord(Answers(d, dc, events), k, m)
    decreases |events|
  {
    k, m := 0, 0;
    if events != [] {
      var e := events[0];
      var next := DeviceAfter(d, dc, e);
      if OwnPoll(e, d.provider, dc) {
        if e.now > d.expiresAt {
          ExpiredAnswers(d, dc, e.now, events[1..]);
        } else {
          k, m := PendingAnswers(next, dc, e.now, events[1..]);
          var w := Answers(next, dc, events[1..]);
          PrependWaiting(PollAnswer(d, e.op.token, e.now), w, k, m);
          k, m := k + 1, m + 1;
        }
      } else if next.status == Pending {
        k, m := PendingAnswers(next, dc, e.now, events[1..]);
      } else if next.status == Approved {
        ApprovedAnswers(next, dc, e.now, events[1..]);
      } else {
        m := DeniedAnswers(next, dc, e.now, events[1..]);
      }
    }
  }

  lemma PrependWaiting(a: Answer, w: seq<Answer>, k: nat, m: nat)
    requires IsWaiting(a) && DeviceWord(w, k, m)
    ensures DeviceWord([a] + w, k + 1, m + 1)
  {
    var v := [a] + w;
    assert forall i | 1 <= i < |v| :: v[i] == w[i - 1];
  }

  lemma ForeignPoll(cfg: Config, s: State, e: Event, provider: string, dc: string)
    requires dc in s.devices && s.devices[dc].provider != provider
    ensures OwnPoll(e, provider, dc) ==> Step(cfg, s, e).1 == Failed(InvalidGrant)
  {
  }

  /** Another provider's device code is never more than an invalid grant. */
  lemma {:induction false} ForeignAnswers(cfg: Config, s: State, clock: int, events: seq<Event>, provider: string, dc: string)
    requires Indexed(s) && Legal(cfg, s, clock, events) && dc in s.devices && s.devices[dc].provider != provider
    ensures AllAre(PollAnswers(cfg, s, events, provider, dc), Failed(InvalidGrant))
    decreases |events|
  {
    if events != [] {
      hide Indexed, Step, FreshDraws, PollAnswer;
      StepKeepsIndex(cfg, s, events[0]);
      StepProjects(cfg, s, events[0], dc);
      StepKeepsProvider(s.devices[dc], dc, events[0]);
      ForeignPoll(cfg, s, events[0], provider, dc);
      hide DeviceAfter;
      ForeignAnswers(cfg, Step(cfg, s, events[0]).0, events[0].now, events[1..], provider, dc);
    }
  }

  /** The word of a run that begins with the creation of dc. */
  lemma StartedWord(cfg: Config, s: State, clock: int, events: seq<Event>, provider: string, dc: string)
    returns (j: nat, k: nat, m: nat)
    requires Indexed(s) && dc !in s.devices && Legal(cfg, s, clock, events)
    requires events != [] && events[0].op.StartDevice? && events[0].op.deviceCode == dc
    ensures WordAfter(PollAnswers(cfg, s, events, provider, dc), j, k, m)
  {
    var start := events[0];
    var t := Step(cfg, s, start).0;
    StepKeepsIndex(cfg, s, start);
    j, k, m := 0, 0, 0;
    var w := PollAnswers(cfg, s, events, provider, dc);
    if start.op.provider == provider {
      RunProjects(cfg, t, start.now, events[1..], dc);
      k, m := PendingAnswers(t.devices[dc], dc, start.now, events[1..]);
      assert w[0..] == w;
    } else {
      ForeignAnswers(cfg, t, start.now, events[1..], provider, dc);
      j := |w|;
    }
  }

  /** j times invalid_grant, then a device word. */
  predicate WordAfter(w: seq<Answer>, j: nat, k: nat, m: nat) {
    j <= |w| && (forall i | 0 <= i < j :: w[i] == Failed(InvalidGrant)) && DeviceWord(w[j..], k, m)
  }

  lemma {:induction false} WordFrom(cfg: Config, s: State, clock: int, events: seq<Event>, provider: string, dc: string)
    returns (j: nat, k: nat, m: nat)
    requires Indexed(s) && dc !in s.devices && Legal(cfg, s, clock, events)
    ensures WordAfter(PollAnswers(cfg, s, events, provider, dc), j, k, m)
    decreases |events|
  {
    hide Indexed, Step, FreshDraws;
    j, k, m := 0, 0, 0;
    if events != [] {
      var e := events[0];
      if e.op.StartDevice? && e.op.deviceCode == dc {
        j, k, m := StartedWord(cfg, s, clock, events, provider, dc);
      } else {
        var t := Step(cfg, s, e).0;
        StepKeepsIndex(cfg, s, e);
        UnstartedStep(cfg, s, e, provider, dc);
        j, k, m := WordFrom(cfg, t, e.now, events[1..], provider, dc);
        if OwnPoll(e, provider, dc) {
          var w := PollAnswers(cfg, t, events[1..], provider, dc);
          assert ([Failed(InvalidGrant)] + w)[j + 1..] == w[j..];
          j := j + 1;
        }
      }
    }
  }

  /** Main result: over any run of the store, with any other clients, the answers a
      provider gets for a device code are invalid_grant until it issued the code (for
      ever, if it did not), and from then on form a device word. */
  lemma AnswersFormDeviceWord(cfg: Config, clock: int, events: seq<Event>, provider: string, dc: string)
    requires Legal(cfg, EMPTY, clock, events)
    ensures exists j: nat, k: nat, m: nat :: WordAfter(PollAnswers(cfg, EMPTY, events, provider, dc), j, k, m)
  {
    var j, k, m := WordFrom(cfg, EMPTY, clock, events, provider, dc);
  }

  // ---- How often a client hears "pending" ----

  function Count(w: seq<Answer>, a: Answer): nat {
    if w == [] then 0 else (if w[0] == a then 1 else 0) + Count(w[1..], a)
  }

  lemma PollGrows(d: DeviceAuth, e: Event, dc: string)
    ensures DeviceAfter(d, dc, e).interval
            == if OwnPoll(e, d.provider, dc) && PollAnswer(d, e.op.token, e.now) == Failed(SlowDown)
               then d.interval + SLOW_DOWN_PENALTY else d.interval
  {
    hide Normalize;
  }

  /** The stored interval is the configured one plus five seconds per slow_down. */
  lemma {:induction false} IntervalGrows(d: DeviceAuth, dc: string, events: seq<Event>)
    ensures DeviceRun(d, dc, events).interval
            == d.interval + SLOW_DOWN_PENALTY * Count(Answers(d, dc, events), Failed(SlowDown))
    decreases |events|
  {
    if events != [] {
      var next := DeviceAfter(d, dc, events[0]);
      IntervalGrows(next, dc, events[1..]);
      PollGrows(d, events[0], dc);
      hide PollAnswer, AfterPoll, DeviceAfter;
      var w, w' := Answers(d, dc, events), Answers(next, dc, events[1..]);
      if OwnPoll(events[0], d.provider, dc) {
        assert w[1..] == w';
        if w[0] == Failed(SlowDown) {
          var n := Count(w', Failed(SlowDown));
          assert Count(w, Failed(SlowDown)) == n + 1;
          assert SLOW_DOWN_PENALTY * (n + 1) == SLOW_DOWN_PENALTY * n + SLOW_DOWN_PENALTY;
        }
      }
    }
  }

  /** A poll in time moves lastPoll forward, never shortens the interval, and says
      "pending" only when the interval has passed. */
  lemma PollInTime(d: DeviceAuth, dc: string, e: Event)
    requires OwnPoll(e, d.provider, dc) && !d.redeemed && e.now <= d.expiresAt
    ensures var next := DeviceAfter(d, dc, e);
            && next.lastPoll == Some(e.now) && next.expiresAt == d.expiresAt && next.interval >= d.interval
            && (PollAnswer(d, e.op.token, e.now) == Failed(AuthorizationPending) && d.lastPoll.Some? ==>
                  e.now - d.lastPoll.value >= d.interval)
  {
    hide Normalize;
  }

  lemma OtherEvent(d: DeviceAuth, dc: string, e: Event)
    requires !OwnPoll(e, d.provider, dc) || d.redeemed
    ensures var next := DeviceAfter(d, dc, e);
            && next.lastPoll == d.lastPoll && next.expiresAt == d.expiresAt && next.interval == d.interval
            && next.redeemed == d.redeemed && next.provider == d.provider
  {
    hide Normalize;
  }

  /** n later answers at the new interval, and one now if the old interval has passed. */
  lemma BudgetStep(n: nat, one: nat, interval: int, longer: int, last: int, now: int, end: int)
    requires n * longer <= end - now && 0 <= interval <= longer && last <= now
    requires one == 0 || (one == 1 && now - last >= interval)
    ensures (n + one) * interval <= end - last
  {
    assert n * interval <= n * longer;
    assert (n + one) * interval == n * interval + one * interval;
  }

  /** A pending answer after an earlier poll means at least the current interval has
      passed, so what is left of the lifetime bounds the pending answers to come. */
  lemma {:induction false} PendingBudget(d: DeviceAuth, dc: string, clock: int, events: seq<Event>)
    requires Clocked(clock, events) && d.interval >= 0
    requires d.lastPoll.Some? && d.lastPoll.value <= d.expiresAt && d.lastPoll.value <= clock
    ensures Count(Answers(d, dc, events), Failed(AuthorizationPending)) * d.interval <= d.expiresAt - d.lastPoll.value
    decreases |events|
  {
    hide DeviceAfter, PollAnswer, AfterPoll;
    if events != [] {
      var e := events[0];
      var next := DeviceAfter(d, dc, e);
      var w, w' := Answers(d, dc, events), Answers(next, dc, events[1..]);
      var n' := Count(w', Failed(AuthorizationPending));
      if !OwnPoll(e, d.provider, dc) {
        OtherEvent(d, dc, e);
        PendingBudget(next, dc, e.now, events[1..]);
      } else if d.redeemed || e.now > d.expiresAt {
        if d.redeemed { RedeemedAnswers(d, dc, events); } else { ExpiredAnswers(d, dc, e.now, events); }
        NoneCounted(w, Failed(AuthorizationPending));
      } else {
        PollInTime(d, dc, e);
        PendingBudget(next, dc, e.now, events[1..]);
        assert w[1..] == w';
        BudgetStep(n', if w[0] == Failed(AuthorizationPending) then 1 else 0, d.interval, next.interval,
                   d.lastPoll.value, e.now, d.expiresAt);
      }
    }
  }

  lemma {:induction false} NoneCounted(w: seq<Answer>, a: Answer)
    requires forall i | 0 <= i < |w| :: w[i] != a
    ensures Count(w, a) == 0
  {
    if w != [] {
      NoneCounted(w[1..], a);
    }
  }

  /** Before the first poll, the whole remaining lifetime is the budget. */
  lemma {:induction false} UnpolledBudget(d: DeviceAuth, dc: string, clock: int, events: seq<Event>)
    requires Clocked(clock, events) && d.interval >= 0 && d.lastPoll.None?
    ensures var n := Count(Answers(d, dc, events), Failed(AuthorizationPending));
            n == 0 || (n - 1) * d.interval <= d.expiresAt - clock
    decreases |events|
  {
    hide DeviceAfter, PollAnswer, AfterPoll;
    if events != [] {
      var e := events[0];
      var next := DeviceAfter(d, dc, e);
      var w, w' := Answers(d, dc, events), Answers(next, dc, events[1..]);
      if !OwnPoll(e, d.provider, dc) {
        OtherEvent(d, dc, e);
        UnpolledBudget(next, dc, e.now, events[1..]);
      } else if d.redeemed || e.now > d.expiresAt {
        if d.redeemed { RedeemedAnswers(d, dc, events); } else { ExpiredAnswers(d, dc, e.now, events); }
        NoneCounted(w, Failed(AuthorizationPending));
      } else {
        PollInTime(d, dc, e);
        PendingBudget(next, dc, e.now, events[1..]);
        assert w[1..] == w';
        BudgetStep(Count(w', Failed(AuthorizationPending)), 0, d.interval, next.interval, e.now, e.now, d.expiresAt);
        FirstIsFree(Count(w, Failed(AuthorizationPending)), Count(w', Failed(AuthorizationPending)), d.interval);
      }
    }
  }

  lemma FirstIsFree(n: nat, n': nat, interval: int)
    requires n' <= n <= n' + 1 && interval >= 0
    ensures n > 0 ==> (n - 1) * interval <= n' * interval
  {
  }

  /** The budget of a run that begins with the creation of dc. */
  lemma StartedBudget(cfg: Config, s: State, clock: int, events: seq<Event>, provider: string, dc: string)
    requires Indexed(s) && dc !in s.devices && Legal(cfg, s, clock, events)
    requires events != [] && events[0].op.StartDevice? && events[0].op.deviceCode == dc
    ensures var n := Count(PollAnswers(cfg, s, events, provider, dc), Failed(AuthorizationPending));
            n == 0 || (n - 1) * cfg.interval <= cfg.codeTTL
  {
    var start := events[0];
    var t := Step(cfg, s, start).0;
    StepKeepsIndex(cfg, s, start);
    if start.op.provider == provider {
      RunProjects(cfg, t, start.now, events[1..], dc);
      UnpolledBudget(t.devices[dc], dc, start.now, events[1..]);
    } else {
      ForeignAnswers(cfg, t, start.now, events[1..], provider, dc);
      NoneCounted(PollAnswers(cfg, t, events[1..], provider, dc), Failed(AuthorizationPending));
    }
  }

  lemma {:induction false} BudgetFrom(cfg: Config, s: State, clock: int, events: seq<Event>, provider: string, dc: string)
    requires Indexed(s) && dc !in s.devices && Legal(cfg, s, clock, events)
    ensures var n := Count(PollAnswers(cfg, s, events, provider, dc), Failed(AuthorizationPending));
            n == 0 || (n - 1) * cfg.interval <= cfg.codeTTL
    decreases |events|
  {
    hide Indexed, Step, FreshDraws;
    if events != [] {
      var e := events[0];
      if e.op.StartDevice? && e.op.deviceCode == dc {
        StartedBudget(cfg, s, clock, events, provider, dc);
      } else {
        var t := Step(cfg, s, e).0;
        StepKeepsIndex(cfg, s, e);
        UnstartedStep(cfg, s, e, provider, dc);
        BudgetFrom(cfg, t, e.now, events[1..], provider, dc);
        var w := PollAnswers(cfg, t, events[1..], provider, dc);
        assert ([Failed(InvalidGrant)] + w)[1..] == w;
      }
    }
  }

  /** Main result: in any run a device code gives at most 1 + codeTTL / interval
      authorization_pending answers to its provider. */
  lemma PendingAnswersBounded(cfg: Config, clock: int, events: seq<Event>, provider: string, dc: string)
    requires Legal(cfg, EMPTY, clock, events)
    ensures var n := Count(PollAnswers(cfg, EMPTY, events, provider, dc), Failed(AuthorizationPending));
            && (n == 0 || (n - 1) * cfg.interval <= cfg.codeTTL)
            && (cfg.interval > 0 && cfg.codeTTL >= 0 ==> n <= 1 + cfg.codeTTL / cfg.interval)
  {
    hide Step, Legal, PollAnswers;
    BudgetFrom(cfg, EMPTY, clock, events, provider, dc);
    var total := Count(PollAnswers(cfg, EMPTY, events, provider, dc), Failed(AuthorizationPending));
    if cfg.interval > 0 && cfg.codeTTL >= 0 && total > 0 {
      Quotient(total - 1, cfg.interval, cfg.codeTTL);
    }
  }

  lemma Quotient(n: nat, interval: nat, ttl: nat)
    requires interval > 0 && n * interval <= ttl
    ensures n <= ttl / interval
  {
    var q := ttl / interval;
    assert n >= q + 1 ==> n * interval >= (q + 1) * interval;
    assert ttl < (q + 1) * interval;
  }
}
