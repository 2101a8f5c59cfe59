/** How fast a device request may be polled: the growing interval, polite clients and
    the point past which polling is useless (section 3.5 of RFC 8628), over whole runs
    of the store. */
module DevicePace {
  import opened Wrappers
  import opened UserCodes
  import opened OAuthStore
  import opened DeviceFlow

  // ---- Runs seen from a device's creation ----

  /** The run creates dc at event k; polls answered before get `early`, and from then on
      the device lives on its own. */
  ghost predicate History(cfg: Config, s: State, events: seq<Event>, dc: string, k: nat, early: seq<Answer>)
    requires dc in Run(cfg, s, events).devices
  {
    && k < |events| && events[k].op.StartDevice? && events[k].op.deviceCode == dc
    && AllAre(early, Failed(InvalidGrant))
    && var start := events[k];
       var d0 := NewDevice(cfg, start.op.provider, start.op.userCode, start.now);
       && Clocked(start.now, events[k + 1..])
       && Run(cfg, s, events).devices[dc] == DeviceRun(d0, dc, events[k + 1..])
       && PollAnswers(cfg, s, events, start.op.provider, dc) == early + Answers(d0, dc, events[k + 1..])
  }

  lemma {:induction false} DeviceHistory(cfg: Config, s: State, clock: int, events: seq<Event>, dc: string)
    returns (k: nat, early: seq<Answer>)
    requires Indexed(s) && Legal(cfg, s, clock, events) && dc !in s.devices
    requires dc in Run(cfg, s, events).devices
    ensures History(cfg, s, events, dc, k, early)
    decreases |events|
  {
    hide Indexed, FreshDraws, Step, Clocked;
    var e := events[0];
    var t := Step(cfg, s, e).0;
    StepKeepsIndex(cfg, s, e);
    if e.op.StartDevice? && e.op.deviceCode == dc {
      StartedDevice(cfg, s, e);
      RunProjects(cfg, t, e.now, events[1..], dc);
      k, early := 0, [];
      assert early + PollAnswers(cfg, t, events[1..], e.op.provider, dc) == PollAnswers(cfg, t, events[1..], e.op.provider, dc);
    } else {
      UnstartedStep(cfg, s, e, "", dc);
      k, early := DeviceHistory(cfg, t, e.now, events[1..], dc);
      var provider := events[1..][k].op.provider;
      UnstartedStep(cfg, s, e, provider, dc);
      assert events[1..][k + 1..] == events[k + 2..];
      if OwnPoll(e, provider, dc) {
        var rest := PollAnswers(cfg, t, events[1..], provider, dc);
        assert [Failed(InvalidGrant)] + rest == [Failed(InvalidGrant)] + early + rest[|early|..];
        early := [Failed(InvalidGrant)] + early;
      }
      k := k + 1;
    }
  }

  lemma StartedDevice(cfg: Config, s: State, e: Event)
    requires e.op.StartDevice?
    ensures var t := Step(cfg, s, e).0;
            && e.op.deviceCode in t.devices
            && t.devices[e.op.deviceCode] == NewDevice(cfg, e.op.provider, e.op.userCode, e.now)
  {
  }

  lemma {:induction false} RunKeepsProvider(d: DeviceAuth, dc: string, events: seq<Event>)
    ensures DeviceRun(d, dc, events).provider == d.provider
    decreases |events|
  {
    if events != [] {
      StepKeepsProvider(d, dc, events[0]);
      RunKeepsProvider(DeviceAfter(d, dc, events[0]), dc, events[1..]);
    }
  }

  lemma {:induction false} EarlyUncounted(early: seq<Answer>, w: seq<Answer>, a: Answer)
    requires AllAre(early, Failed(InvalidGrant)) && a != Failed(InvalidGrant)
    ensures Count(early + w, a) == Count(w, a)
  {
    if early != [] {
      EarlyUncounted(early[1..], w, a);
      assert (early + w)[1..] == early[1..] + w;
    } else {
      assert early + w == w;
    }
  }

  lemma {:induction false} RunAppend(cfg: Config, s: State, clock: int, a: seq<Event>, b: seq<Event>) returns (later: int)
    requires Indexed(s) && Legal(cfg, s, clock, a + b)
    ensures Run(cfg, s, a + b) == Run(cfg, Run(cfg, s, a), b)
    ensures Indexed(Run(cfg, s, a))
    ensures Legal(cfg, s, clock, a) && Legal(cfg, Run(cfg, s, a), later, b) && later >= clock
    ensures later == if a == [] then clock else a[|a| - 1].now
    decreases |a|
  {
    hide Indexed, FreshDraws, Step;
    later := clock;
    if a != [] {
      assert (a + b)[1..] == a[1..] + b && (a + b)[0] == a[0];
      StepKeepsIndex(cfg, s, a[0]);
      later := RunAppend(cfg, Step(cfg, s, a[0]).0, a[0].now, a[1..], b);
      if |a| > 1 {
        assert a[1..][|a| - 2] == a[|a| - 1];
      }
    } else {
      assert a + b == b;
    }
  }

  // ---- The interval ----

  /** How many slow_down answers the provider of dc has had. */
  function SlowDowns(cfg: Config, events: seq<Event>, provider: string, dc: string): nat {
    Count(PollAnswers(cfg, EMPTY, events, provider, dc), Failed(SlowDown))
  }

  /** In every run the stored interval is the configured one plus five seconds, in
      nanoseconds, for each slow_down so far. */
  lemma IntervalInRuns(cfg: Config, clock: int, events: seq<Event>, dc: string)
    requires Legal(cfg, EMPTY, clock, events) && dc in Run(cfg, EMPTY, events).devices
    ensures var d := Run(cfg, EMPTY, events).devices[dc];
            d.interval == cfg.interval + 5_000_000_000 * SlowDowns(cfg, events, d.provider, dc)
  {
    hide Run, Legal, Answers, DeviceRun;
    var k, early := DeviceHistory(cfg, EMPTY, clock, events, dc);
    var start := events[k];
    var d0 := NewDevice(cfg, start.op.provider, start.op.userCode, start.now);
    IntervalGrows(d0, dc, events[k + 1..]);
    RunKeepsProvider(d0, dc, events[k + 1..]);
    EarlyUncounted(early, Answers(d0, dc, events[k + 1..]), Failed(SlowDown));
  }

  /** lastPoll never moves back. */
  lemma {:induction false} LastPollGrows(d: DeviceAuth, dc: string, clock: int, events: seq<Event>)
    requires Clocked(clock, events) && d.lastPoll.Some? && d.lastPoll.value <= clock
    ensures var t := DeviceRun(d, dc, events); t.lastPoll.Some? && t.lastPoll.value >= d.lastPoll.value
    decreases |events|
  {
    if events != [] {
      LastPollGrows(DeviceAfter(d, dc, events[0]), dc, events[0].now, events[1..]);
    }
  }

  /** A waiting answer comes from a device of that provider and sets its lastPoll. */
  lemma WaitingSetsLastPoll(cfg: Config, s: State, e: Event, provider: string, dc: string)
    requires OwnPoll(e, provider, dc) && IsWaiting(Step(cfg, s, e).1)
    ensures dc in s.devices && s.devices[dc].provider == provider
    ensures var t := Step(cfg, s, e).0; dc in t.devices && t.devices[dc].lastPoll == Some(e.now)
  {
  }

  /** A pending answer comes at least the stored interval after the last poll. */
  lemma PendingIsSlow(cfg: Config, s: State, e: Event, provider: string, dc: string)
    requires OwnPoll(e, provider, dc) && Step(cfg, s, e).1 == Failed(AuthorizationPending)
    ensures dc in s.devices && s.devices[dc].provider == provider
    ensures s.devices[dc].lastPoll.Some? ==> e.now - s.devices[dc].lastPoll.value >= s.devices[dc].interval
  {
  }

  /** Main result: over any run, a pending answer comes at least the configured interval
      plus five seconds per slow_down so far after any earlier poll of the device that
      was told to wait. */
  lemma PendingSpacing(cfg: Config, clock: int, before: seq<Event>, first: Event, between: seq<Event>, second: Event,
                       provider: string, dc: string)
    requires Legal(cfg, EMPTY, clock, before + [first] + between + [second])
    requires OwnPoll(first, provider, dc) && IsWaiting(Step(cfg, Run(cfg, EMPTY, before), first).1)
    requires OwnPoll(second, provider, dc)
    requires Step(cfg, Run(cfg, EMPTY, before + [first] + between), second).1 == Failed(AuthorizationPending)
    ensures second.now - first.now
            >= cfg.interval + 5_000_000_000 * SlowDowns(cfg, before + [first] + between, provider, dc)
  {
    hide Step, FreshDraws, IsWaiting, SlowDowns;
    var polled, all := before + [first], before + [first] + between;
    var _ := RunAppend(cfg, EMPTY, clock, all, [second]);
    var at := RunAppend(cfg, EMPTY, clock, polled, between);
    var start := RunAppend(cfg, EMPTY, clock, before, [first]);
    var s := Run(cfg, EMPTY, before);
    assert Run(cfg, s, [first]) == Step(cfg, s, first).0 by {
      assert [first][1..] == [];
    }
    var t := Run(cfg, EMPTY, polled);
    WaitingSetsLastPoll(cfg, s, first, provider, dc);
    assert at == first.now;
    RunProjects(cfg, t, at, between, dc);
    LastPollGrows(t.devices[dc], dc, at, between);
    PendingIsSlow(cfg, Run(cfg, EMPTY, all), second, provider, dc);
    IntervalInRuns(cfg, clock, all, dc);
  }

  // ---- Polite clients ----

  /** The interval told to the client, which is truncated to whole seconds. */
  function Announced(cfg: Config): int {
    cfg.interval / SECOND * SECOND
  }

  /** The client of dc spaces its polls by the announced interval plus five seconds per
      slow_down it has received; last and slowed are its own bookkeeping. */
  predicate Polite(cfg: Config, s: State, events: seq<Event>, provider: string, dc: string, last: Option<int>, slowed: nat)
    decreases |events|
  {
    events == [] ||
    var e := events[0];
    var (t, a) := Step(cfg, s, e);
    if OwnPoll(e, provider, dc) then
      && (last.Some? ==> e.now - last.value >= Announced(cfg) + SLOW_DOWN_PENALTY * slowed)
      && Polite(cfg, t, events[1..], provider, dc, Some(e.now), if a == Failed(SlowDown) then slowed + 1 else slowed)
    else Polite(cfg, t, events[1..], provider, dc, last, slowed)
  }

  /** In no run of a store under cfg is a polite client told to slow down. */
  ghost predicate NeverSlowsThePolite(cfg: Config) {
    forall clock, events: seq<Event>, provider, dc ::
      Legal(cfg, EMPTY, clock, events) && Polite(cfg, EMPTY, events, provider, dc, None, 0) ==>
        Failed(SlowDown) !in PollAnswers(cfg, EMPTY, events, provider, dc)
  }

  /** d keeps the client's own account of its last poll, or is out of its reach. */
  ghost predicate Accounted(cfg: Config, d: DeviceAuth, last: Option<int>, clock: int) {
    || d.redeemed
    || clock > d.expiresAt
    || d.status != Pending
    || (d.interval == cfg.interval &&
        (d.lastPoll.Some? ==> d.lastPoll == last && d.expiresAt - cfg.codeTTL <= last.value <= clock))
  }

  lemma DeviceAccount(cfg: Config, d: DeviceAuth, dc: string, e: Event, last: Option<int>, clock: int)
    requires cfg.interval % SECOND == 0 || cfg.codeTTL < Announced(cfg)
    requires Accounted(cfg, d, last, clock) && clock <= e.now && d.expiresAt - cfg.codeTTL <= clock
    requires OwnPoll(e, d.provider, dc) && last.Some? ==> e.now - last.value >= Announced(cfg)
    ensures var own := OwnPoll(e, d.provider, dc);
            && (own ==> PollAnswer(d, e.op.token, e.now) != Failed(SlowDown))
            && Accounted(cfg, DeviceAfter(d, dc, e), if own then Some(e.now) else last, e.now)
            && DeviceAfter(d, dc, e).expiresAt == d.expiresAt
  {
    hide Normalize;
    assert Announced(cfg) <= cfg.interval;
    assert cfg.interval % SECOND == 0 ==> Announced(cfg) == cfg.interval;
  }

  /** From an accounted device, politeness is enough. */
  lemma {:induction false} PoliteFrom(cfg: Config, s: State, clock: int, events: seq<Event>, dc: string, last: Option<int>)
    requires cfg.interval % SECOND == 0 || cfg.codeTTL < Announced(cfg)
    requires Indexed(s) && Legal(cfg, s, clock, events) && dc in s.devices
    requires Polite(cfg, s, events, s.devices[dc].provider, dc, last, 0)
    requires Accounted(cfg, s.devices[dc], last, clock) && s.devices[dc].expiresAt - cfg.codeTTL <= clock
    ensures Failed(SlowDown) !in PollAnswers(cfg, s, events, s.devices[dc].provider, dc)
    decreases |events|
  {
    hide Indexed, Step, FreshDraws, Accounted, DeviceAfter, PollAnswer, Announced;
    if events != [] {
      var e := events[0];
      var d := s.devices[dc];
      StepKeepsIndex(cfg, s, e);
      StepProjects(cfg, s, e, dc);
      StepKeepsProvider(d, dc, e);
      DeviceAccount(cfg, d, dc, e, last, clock);
      var own := OwnPoll(e, d.provider, dc);
      PoliteFrom(cfg, Step(cfg, s, e).0, e.now, events[1..], dc, if own then Some(e.now) else last);
    }
  }

  /** Before the device exists, too. */
  lemma {:induction false} PoliteUnstarted(cfg: Config, s: State, clock: int, events: seq<Event>, provider: string, dc: string,
                                           last: Option<int>)
    requires cfg.interval % SECOND == 0 || cfg.codeTTL < Announced(cfg)
    requires Indexed(s) && Legal(cfg, s, clock, events) && dc !in s.devices
    requires Polite(cfg, s, events, provider, dc, last, 0)
    ensures Failed(SlowDown) !in PollAnswers(cfg, s, events, provider, dc)
    decreases |events|
  {
    hide Indexed, Step, FreshDraws, Announced;
    if events != [] {
      var e := events[0];
      var t := Step(cfg, s, e).0;
      StepKeepsIndex(cfg, s, e);
      if e.op.StartDevice? && e.op.deviceCode == dc {
        StartedDevice(cfg, s, e);
        if e.op.provider == provider {
          PoliteFrom(cfg, t, e.now, events[1..], dc, last);
        } else {
          ForeignAnswers(cfg, t, e.now, events[1..], provider, dc);
        }
      } else {
        UnstartedStep(cfg, s, e, provider, dc);
        PoliteUnstarted(cfg, t, e.now, events[1..], provider, dc, if OwnPoll(e, provider, dc) then Some(e.now) else last);
      }
    }
  }

  /** Main result: politeness is enough exactly when the configured interval is a whole
      number of seconds, or the code expires before a second polite poll. */
  lemma PoliteExact(cfg: Config)
    ensures NeverSlowsThePolite(cfg) <==> cfg.interval % SECOND == 0 || cfg.codeTTL < Announced(cfg)
  {
    hide Legal, Polite, PollAnswers, Step;
    if cfg.interval % SECOND == 0 || cfg.codeTTL < Announced(cfg) {
      forall clock, events: seq<Event>, provider, dc |
        Legal(cfg, EMPTY, clock, events) && Polite(cfg, EMPTY, events, provider, dc, None, 0)
        ensures Failed(SlowDown) !in PollAnswers(cfg, EMPTY, events, provider, dc)
      {
        PoliteUnstarted(cfg, EMPTY, clock, events, provider, dc, None);
      }
    } else {
      SlowedThoughPolite(cfg);
    }
  }

  /** A device of Google's, polled at once and then exactly as late as announced. */
  function TruncatedRun(cfg: Config): seq<Event> {
    [Event(StartDevice("google", "device", "BCDF-GHJK"), 0),
     Event(PollDevice("google", "device", "token"), 0),
     Event(PollDevice("google", "device", "token"), Announced(cfg))]
  }

  /** The store after the start, and after the first poll. */
  function Begun(cfg: Config, lastPoll: Option<int>): State {
    State(map[], map["device" := NewDevice(cfg, "google", "BCDF-GHJK", 0).(lastPoll := lastPoll)],
          map["BCDF-GHJK" := "device"], map[])
  }

  lemma TruncatedSteps(cfg: Config)
    requires cfg.interval % SECOND != 0 && Announced(cfg) <= cfg.codeTTL
    ensures var events := TruncatedRun(cfg);
            && Step(cfg, EMPTY, events[0]) == (Begun(cfg, None), Started("device", "BCDF-GHJK", cfg.codeTTL, cfg.interval))
            && Step(cfg, Begun(cfg, None), events[1]) == (Begun(cfg, Some(0)), Failed(AuthorizationPending))
            && Step(cfg, Begun(cfg, Some(0)), events[2]).1 == Failed(SlowDown)
            && FreshDraws(EMPTY, events[0].op) && FreshDraws(Begun(cfg, None), events[1].op)
            && FreshDraws(Begun(cfg, Some(0)), events[2].op)
            && 0 <= Announced(cfg)
  {
    assert 0 <= Announced(cfg) < cfg.interval;
    assert IsUserCode("BCDF-GHJK");
    var d := NewDevice(cfg, "google", "BCDF-GHJK", 0);
    assert Begun(cfg, None).devices["device" := d.(lastPoll := Some(0))] == Begun(cfg, Some(0)).devices;
  }

  /** The truncated announcement in action. */
  lemma SlowedThoughPolite(cfg: Config)
    requires cfg.interval % SECOND != 0 && Announced(cfg) <= cfg.codeTTL
    ensures Legal(cfg, EMPTY, 0, TruncatedRun(cfg))
    ensures Polite(cfg, EMPTY, TruncatedRun(cfg), "google", "device", None, 0)
    ensures PollAnswers(cfg, EMPTY, TruncatedRun(cfg), "google", "device")
            == [Failed(AuthorizationPending), Failed(SlowDown)]
  {
    hide Step, Announced, FreshDraws, Begun;
    TruncatedSteps(cfg);
    var events := TruncatedRun(cfg);
    var s1, s2 := Begun(cfg, None), Begun(cfg, Some(0));
    assert events[1..] == [events[1], events[2]] && events[1..][1..] == [events[2]] && [events[2]][1..] == [];
    assert Legal(cfg, s2, 0, [events[2]]) && Legal(cfg, s1, 0, events[1..]);
    assert PollAnswers(cfg, s2, [events[2]], "google", "device") == [Failed(SlowDown)];
    assert PollAnswers(cfg, s1, events[1..], "google", "device") == [Failed(AuthorizationPending), Failed(SlowDown)];
    assert Polite(cfg, s2, [events[2]], "google", "device", Some(0), 0);
    assert Polite(cfg, s1, events[1..], "google", "device", None, 0);
  }

  // ---- Past the point of no return ----

  /** A polled device keeps its last poll within its lifetime. */
  lemma {:induction false} PolledWithinLifetime(cfg: Config, d: DeviceAuth, dc: string, clock: int, events: seq<Event>)
    requires Clocked(clock, events) && d.expiresAt - cfg.codeTTL <= clock
    requires d.lastPoll.Some? ==> d.expiresAt - cfg.codeTTL <= d.lastPoll.value
    ensures var t := DeviceRun(d, dc, events);
            t.expiresAt == d.expiresAt && (t.lastPoll.Some? ==> t.expiresAt - cfg.codeTTL <= t.lastPoll.value)
    decreases |events|
  {
    if events != [] {
      PolledWithinLifetime(cfg, DeviceAfter(d, dc, events[0]), dc, events[0].now, events[1..]);
    }
  }

  /** In any run, once the interval, grown by five seconds per slow_down, exceeds the
      lifetime of the code, a device that has been polled and is still pending only
      answers slow_down, and expired_token when its time is over. */
  lemma TooSlowToEverPend(cfg: Config, clock: int, events: seq<Event>, dc: string, e: Event)
    requires Legal(cfg, EMPTY, clock, events) && dc in Run(cfg, EMPTY, events).devices
    requires var d := Run(cfg, EMPTY, events).devices[dc];
             && d.status == Pending && d.lastPoll.Some?
             && cfg.interval + 5_000_000_000 * SlowDowns(cfg, events, d.provider, dc) > cfg.codeTTL
             && OwnPoll(e, d.provider, dc)
    ensures var s := Run(cfg, EMPTY, events);
            Step(cfg, s, e).1 == Failed(if e.now > s.devices[dc].expiresAt then ExpiredToken else SlowDown)
  {
    hide Run, Legal, DeviceRun, Answers, PollAnswers, Normalize;
    IntervalInRuns(cfg, clock, events, dc);
    var k, early := DeviceHistory(cfg, EMPTY, clock, events, dc);
    var start := events[k];
    var d0 := NewDevice(cfg, start.op.provider, start.op.userCode, start.now);
    PolledWithinLifetime(cfg, d0, dc, start.now, events[k + 1..]);
    PendingNotRedeemed(d0, dc, events[k + 1..]);
  }

  lemma {:induction false} PendingNotRedeemed(d: DeviceAuth, dc: string, events: seq<Event>)
    requires d.redeemed ==> d.status == Approved
    ensures var t := DeviceRun(d, dc, events); t.redeemed ==> t.status == Approved
    decreases |events|
  {
    if events != [] {
      PendingNotRedeemed(DeviceAfter(d, dc, events[0]), dc, events[1..]);
    }
  }
}
