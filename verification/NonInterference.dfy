/** Other clients never matter: a device request behaves in any run of the store as
    it does when every operation that does not name it is deleted. */
module NonInterference {
  import opened UserCodes
  import opened OAuthStore

  /** e names the request with device code dc and user code uc. */
  predicate Names(e: Event, dc: string, uc: string) {
    match e.op
    case StartDevice(_, deviceCode, _) => deviceCode == dc
    case ResolveDevice(_, userCode, _, _) => Normalize(userCode) == uc
    case PollDevice(_, deviceCode, _) => deviceCode == dc
    case _ => false
  }

  function Mine(events: seq<Event>, dc: string, uc: string): seq<Event> {
    if events == [] then []
    else if Names(events[0], dc, uc) then [events[0]] + Mine(events[1..], dc, uc)
    else Mine(events[1..], dc, uc)
  }

  /** The answers to the operations that name the request. */
  function MyAnswers(cfg: Config, s: State, events: seq<Event>, dc: string, uc: string): seq<Answer>
    decreases |events|
  {
    if events == [] then []
    else
      var (t, a) := Step(cfg, s, events[0]);
      var rest := MyAnswers(cfg, t, events[1..], dc, uc);
      if Names(events[0], dc, uc) then [a] + rest else rest
  }

  /** uc is the user code that goes with dc, if either is ever issued. */
  predicate Paired(events: seq<Event>, dc: string, uc: string) {
    forall i | 0 <= i < |events| ::
      events[i].op.StartDevice? ==> (events[i].op.deviceCode == dc <==> events[i].op.userCode == uc)
  }

  /** s and t agree on the request; t holds nothing s does not. */
  ghost predicate Alike(s: State, t: State, dc: string, uc: string) {
    && Indexed(s) && Indexed(t)
    && t.tokens.Keys <= s.tokens.Keys
    && (dc in s.devices <==> dc in t.devices)
    && (dc in s.devices <==> uc in s.userCodes)
    && (dc in t.devices <==> uc in t.userCodes)
    && (dc in s.devices ==> s.devices[dc] == t.devices[dc] && s.devices[dc].userCode == uc)
  }

  lemma StartAlike(cfg: Config, s: State, t: State, e: Event, dc: string, uc: string)
    requires Alike(s, t, dc, uc) && FreshDraws(s, e.op) && e.op.StartDevice? && e.op.deviceCode == dc && e.op.userCode == uc
    ensures FreshDraws(t, e.op)
    ensures Alike(Step(cfg, s, e).0, Step(cfg, t, e).0, dc, uc)
    ensures Step(cfg, s, e).1 == Step(cfg, t, e).1
  {
    hide IsUserCode, Indexed;
    StepKeepsIndex(cfg, s, e);
    StepKeepsIndex(cfg, t, e);
  }

  lemma ResolveAlike(cfg: Config, s: State, t: State, e: Event, dc: string, uc: string)
    requires Alike(s, t, dc, uc) && e.op.ResolveDevice? && Normalize(e.op.userCode) == uc
    ensures Alike(Step(cfg, s, e).0, Step(cfg, t, e).0, dc, uc)
    ensures Step(cfg, s, e).1 == Step(cfg, t, e).1
  {
    hide Normalize, Indexed;
    StepKeepsIndex(cfg, s, e);
    StepKeepsIndex(cfg, t, e);
    if dc in s.devices {
      SameDeviceIndex(s, dc, uc);
      SameDeviceIndex(t, dc, uc);
    }
  }

  lemma PollAlike(cfg: Config, s: State, t: State, e: Event, dc: string, uc: string)
    requires Alike(s, t, dc, uc) && FreshDraws(s, e.op) && e.op.PollDevice? && e.op.deviceCode == dc
    ensures FreshDraws(t, e.op)
    ensures Alike(Step(cfg, s, e).0, Step(cfg, t, e).0, dc, uc)
    ensures Step(cfg, s, e).1 == Step(cfg, t, e).1
  {
    hide Indexed;
    assert e.op.token !in t.tokens;
    StepKeepsIndex(cfg, s, e);
    StepKeepsIndex(cfg, t, e);
  }

  lemma NamedStep(cfg: Config, s: State, t: State, e: Event, dc: string, uc: string)
    requires Alike(s, t, dc, uc) && FreshDraws(s, e.op) && Names(e, dc, uc) && Paired([e], dc, uc)
    ensures FreshDraws(t, e.op)
    ensures Alike(Step(cfg, s, e).0, Step(cfg, t, e).0, dc, uc)
    ensures Step(cfg, s, e).1 == Step(cfg, t, e).1
  {
    hide Alike, Step, Normalize;
    assert [e][0] == e;
    match e.op
    case StartDevice(_, _, _) => StartAlike(cfg, s, t, e, dc, uc);
    case ResolveDevice(_, _, _, _) => ResolveAlike(cfg, s, t, e, dc, uc);
    case PollDevice(_, _, _) => PollAlike(cfg, s, t, e, dc, uc);
    case _ =>
  }

  lemma SameDeviceIndex(s: State, dc: string, uc: string)
    requires Indexed(s) && dc in s.devices && s.devices[dc].userCode == uc
    ensures uc in s.userCodes && s.userCodes[uc] == dc
  {
  }

  /** The index leads from another user code to another device. */
  lemma OtherDeviceIndex(s: State, dc: string, uc: string, other: string)
    requires Indexed(s) && dc in s.devices && s.devices[dc].userCode == uc && other != uc && other in s.userCodes
    ensures s.userCodes[other] != dc
  {
  }

  lemma ForeignStep(cfg: Config, s: State, t: State, e: Event, dc: string, uc: string)
    requires Alike(s, t, dc, uc) && FreshDraws(s, e.op) && !Names(e, dc, uc) && Paired([e], dc, uc)
    ensures Alike(Step(cfg, s, e).0, t, dc, uc)
  {
    hide Normalize, IsUserCode, Indexed;
    assert [e][0] == e;
    StepKeepsIndex(cfg, s, e);
    if e.op.ResolveDevice? && dc in s.devices && Normalize(e.op.userCode) in s.userCodes {
      OtherDeviceIndex(s, dc, uc, Normalize(e.op.userCode));
    }
  }

  lemma {:induction false} RunsStayAlike(cfg: Config, s: State, t: State, clock: int, events: seq<Event>, dc: string, uc: string)
    requires Alike(s, t, dc, uc) && Legal(cfg, s, clock, events) && Paired(events, dc, uc)
    ensures Legal(cfg, t, clock, Mine(events, dc, uc))
    ensures MyAnswers(cfg, t, Mine(events, dc, uc), dc, uc) == MyAnswers(cfg, s, events, dc, uc)
    ensures Alike(Run(cfg, s, events), Run(cfg, t, Mine(events, dc, uc)), dc, uc)
    decreases |events|
  {
    hide Alike, Step, FreshDraws, Names;
    if events != [] {
      var e := events[0];
      assert Paired([e], dc, uc) && Paired(events[1..], dc, uc);
      if Names(e, dc, uc) {
        NamedStep(cfg, s, t, e, dc, uc);
        RunsStayAlike(cfg, Step(cfg, s, e).0, Step(cfg, t, e).0, e.now, events[1..], dc, uc);
        assert Mine(events, dc, uc)[1..] == Mine(events[1..], dc, uc);
      } else {
        ForeignStep(cfg, s, t, e, dc, uc);
        RunsStayAlike(cfg, Step(cfg, s, e).0, t, e.now, events[1..], dc, uc);
        LaterClock(cfg, t, clock, e.now, Mine(events[1..], dc, uc));
      }
    }
  }

  lemma LaterClock(cfg: Config, s: State, early: int, late: int, events: seq<Event>)
    requires early <= late && Legal(cfg, s, late, events)
    ensures Legal(cfg, s, early, events)
  {
  }

  /** Main result: deleting every operation that does not name the request from any
      legal run leaves a legal run, in which the request gets the same answers and
      ends in the same state. */
  lemma OthersDoNotInterfere(cfg: Config, clock: int, events: seq<Event>, dc: string, uc: string)
    requires Legal(cfg, EMPTY, clock, events) && Paired(events, dc, uc)
    ensures var mine := Mine(events, dc, uc);
            var s, t := Run(cfg, EMPTY, events), Run(cfg, EMPTY, mine);
            && Legal(cfg, EMPTY, clock, mine)
            && MyAnswers(cfg, EMPTY, mine, dc, uc) == MyAnswers(cfg, EMPTY, events, dc, uc)
            && (dc in s.devices <==> dc in t.devices)
            && (dc in s.devices ==> s.devices[dc] == t.devices[dc])
  {
    RunsStayAlike(cfg, EMPTY, EMPTY, clock, events, dc, uc);
  }

  /** Two runs that agree on the operations naming the request agree on all of its
      answers and on its state, whatever else happens in them. */
  lemma OnlyOwnOperationsMatter(cfg: Config, clock: int, a: seq<Event>, b: seq<Event>, dc: string, uc: string)
    requires Legal(cfg, EMPTY, clock, a) && Paired(a, dc, uc)
    requires Legal(cfg, EMPTY, clock, b) && Paired(b, dc, uc)
    requires Mine(a, dc, uc) == Mine(b, dc, uc)
    ensures MyAnswers(cfg, EMPTY, a, dc, uc) == MyAnswers(cfg, EMPTY, b, dc, uc)
    ensures var s, t := Run(cfg, EMPTY, a), Run(cfg, EMPTY, b);
            (dc in s.devices <==> dc in t.devices) && (dc in s.devices ==> s.devices[dc] == t.devices[dc])
  {
    OthersDoNotInterfere(cfg, clock, a, dc, uc);
    OthersDoNotInterfere(cfg, clock, b, dc, uc);
  }
}
