/** Which relay the engine uses: what a connect, a poll and a reload decide, in figures. */
module EngineChoices {
  import opened Wrappers
  import opened Sorting
  import Text
  import opened Routes
  import opened RouteSafety
  import opened Pick
  import opened Gamewatch
  import opened Engine
  import opened EngineRuns

  const SECONDS := 1_000_000_000

  /** From now on no call on the routing table fails. */
  ghost predicate NoCallFails(w: World, at: nat) {
    forall n: nat :: at <= n ==> w.oracle(n).ok
  }

  /** Nothing went wrong with the table: no call failed, or none is known to have. */
  ghost predicate Smooth(w: World, s: State, t: State) {
    NoCallFails(w, s.calls) || !t.faulted
  }

  /** The relay can be switched to: it is offered, and adapter and tunnel take it. */
  predicate Takes(relays: seq<Relay>, id: string, round: Round) {
    (exists k :: 0 <= k < |relays| && relays[k].id == id) && round.configured && round.selected
  }

  /** `f` is the answer to go by: nobody answered faster, and of equally fast relays none
      has a smaller id. */
  predicate Leads(ms: seq<Measurement>, f: Measurement) {
    && f in ms && !f.failed && f.rtt > 0
    && forall m :: m in ms && !m.failed && m.rtt > 0 ==> f.rtt <= m.rtt && (f.rtt == m.rtt ==> Text.Leq(f.relayID, m.relayID))
  }

  lemma LeaderIsFastest(ms: seq<Measurement>, f: Measurement)
    ensures Leads(ms, f) <==> Fastest(ms) == Some(f)
  {
    FastestInFigures(ms);
    if Leads(ms, f) {
      FasterTies(f, Fastest(ms).value);
    }
  }

  predicate Unanswered(ms: seq<Measurement>) {
    forall m :: m in ms ==> m.failed || m.rtt <= 0
  }

  lemma AppliedWhenSmooth(w: World, s: State)
    requires NoCallFails(w, s.calls) || !Applied(w, s).0.faulted
    ensures Applied(w, s).1
  {
    var want := Goal(s);
    hide Goal, PlanOf;
    if NoCallFails(w, s.calls) {
      SucceedsWhenAllOk(s.net, Commands(PlanOf(s.installed, want)), w.oracle, s.calls);
    }
  }

  // ----- a round of measurements

  lemma ForcedRound(w: World, s: State, round: Round, f: Measurement)
    requires Leads(round.ms, f) && (f.relayID == s.active || Takes(s.relays, f.relayID, round))
    ensures var t := Remeasured(w, s, true, round);
      t.lastMeasure == round.now && (Smooth(w, s, t) ==> t.active == f.relayID && t.activeRTT == f.rtt)
  {
    LeaderIsFastest(round.ms, f);
    hide Applied, Fastest;
    var s2 := s.(lastMeasure := round.now, active := f.relayID, activeRTT := f.rtt);
    AppliedFrame(w, s2);
    var u := Applied(w, s2).0;
    AppliedFrame(w, u.(active := "", activeRTT := 0));
    FaultStays(w, u.(active := "", activeRTT := 0));
    if Smooth(w, s, Remeasured(w, s, true, round)) && f.relayID != s.active { AppliedWhenSmooth(w, s2); }
  }

  lemma FaultStays(w: World, s: State)
    ensures s.faulted ==> Applied(w, s).0.faulted
  {
    hide Moved;
    MovedFrame(w, s, Goal(s));
  }

  lemma UnforcedRound(w: World, s: State, round: Round, f: Measurement)
    requires Leads(round.ms, f) && (f.relayID == s.active || Takes(s.relays, f.relayID, round))
    ensures var t := Remeasured(w, s, false, round);
      Smooth(w, s, t) ==>
        if f.relayID == s.active then t == s.(lastMeasure := round.now, activeRTT := f.rtt)
        else if s.activeRTT <= 0 || s.activeRTT - f.rtt >= 10_000_000 then t.active == f.relayID && t.activeRTT == f.rtt
        else t == s.(lastMeasure := round.now)
  {
    LeaderIsFastest(round.ms, f);
    hide Applied, Fastest;
    var s2 := s.(lastMeasure := round.now, active := f.relayID, activeRTT := f.rtt);
    AppliedFrame(w, s2);
    var u := Applied(w, s2).0;
    AppliedFrame(w, u.(active := "", activeRTT := 0));
    FaultStays(w, u.(active := "", activeRTT := 0));
    if Smooth(w, s, Remeasured(w, s, false, round)) && f.relayID != s.active && WorthSwitching(s.activeRTT, f.rtt, DEFAULT_SWITCH_MARGIN) {
      AppliedWhenSmooth(w, s2);
    }
  }

  // ----- a poll

  /** The poll finds the same game, or none, as the one before. */
  ghost predicate SameGame(w: World, s: State, p: PollIn) {
    p.listed.Some? && Seen(w, p.listed.value) == s.cur
  }

  /** The relay in use has not shaken hands for two and a half minutes, or ever. */
  predicate Silent(p: PollIn) {
    p.handshake.None? || p.round.now - p.handshake.value > 150 * SECONDS
  }

  /** A relay in use is on offer. */
  lemma InUseIsOffered(s: State)
    requires Inv(s) && s.active != ""
    ensures OnOffer(s.relays, s.active)
  {
  }

  predicate RoundForced(s: State, p: PollIn) {
    if s.active == "" then p.round.now - s.lastMeasure > 30 * SECONDS else Silent(p)
  }

  predicate RoundDue(s: State, p: PollIn) {
    s.active != "" && !Silent(p) && s.cur.gameID == "" && p.round.now - s.lastMeasure > 300 * SECONDS
  }

  /** When a poll that finds the same game measures the fleet, and how. */
  lemma PollIsRound(w: World, s: State, p: PollIn)
    requires Inv(s) && s.up && SameGame(w, s, p)
    ensures Step(w, s, Poll(p)) ==
      if RoundForced(s, p) then Remeasured(w, s, true, p.round)
      else if RoundDue(s, p) then Remeasured(w, s, false, p.round)
      else s
  {
    if s.active != "" { InUseIsOffered(s); }
    assert s.(cur := s.cur) == s;
    hide Inv, Remeasured, Seen, OnOffer;
  }

  /** A relay in use that fell silent is left for the fastest that answers, however little
      is gained: no answer was faster than the relay the engine ends on. */
  lemma SilentRelayIsReplaced(w: World, s: State, p: PollIn, f: Measurement)
    requires Inv(s) && s.up && s.active != "" && SameGame(w, s, p) && Silent(p)
    requires Leads(p.round.ms, f) && (f.relayID == s.active || Takes(s.relays, f.relayID, p.round))
    ensures var t := Step(w, s, Poll(p));
      t.up && t.lastMeasure == p.round.now && (Smooth(w, s, t) ==> t.active == f.relayID && t.activeRTT == f.rtt)
  {
    hide Inv, Remeasured, Leads, Takes, SameGame, Step;
    PollIsRound(w, s, p);
    RemeasuredInv(w, s, true, p.round);
    ForcedRound(w, s, p.round, f);
  }

  /** With no relay in use the engine tries again once half a minute has passed. */
  lemma RetryFindsFastest(w: World, s: State, p: PollIn, f: Measurement)
    requires Inv(s) && s.up && s.active == "" && SameGame(w, s, p) && p.round.now - s.lastMeasure > 30 * SECONDS
    requires Leads(p.round.ms, f) && Takes(s.relays, f.relayID, p.round)
    ensures var t := Step(w, s, Poll(p));
      t.up && t.lastMeasure == p.round.now && (Smooth(w, s, t) ==> t.active == f.relayID && t.activeRTT == f.rtt)
  {
    hide Inv, Remeasured, Leads, Takes, SameGame, Step;
    PollIsRound(w, s, p);
    RemeasuredInv(w, s, true, p.round);
    ForcedRound(w, s, p.round, f);
  }

  /** A switch that fails halfway, at the adapter, at the tunnel or in the table, ends on no
      relay: the one given up is not taken for good again before the next retry. */
  lemma FailedSwitchStandsDown(w: World, s: State, p: PollIn, f: Measurement)
    requires Inv(s) && s.up && SameGame(w, s, p) && RoundForced(s, p) && Leads(p.round.ms, f) && f.relayID != s.active
    requires !Takes(s.relays, f.relayID, p.round)
      || !Applied(w, s.(lastMeasure := p.round.now, active := f.relayID, activeRTT := f.rtt)).1
    ensures var t := Step(w, s, Poll(p));
      && t.up && t.active == "" && t.activeRTT == 0 && t.lastMeasure == p.round.now && t.relays == s.relays
      && (!t.faulted ==> t.net.tunnel == {} && t.net.pins == {})
  {
    LeaderIsFastest(p.round.ms, f);
    hide Inv, Applied, SameGame, Step, Fastest, Leads;
    PollIsRound(w, s, p);
    var s1 := s.(lastMeasure := p.round.now);
    var s2 := s1.(active := f.relayID, activeRTT := f.rtt);
    AppliedFrame(w, s2);
    AppliedFrame(w, s1.(active := "", activeRTT := 0));
    AppliedFrame(w, Applied(w, s2).0.(active := "", activeRTT := 0));
    RemeasuredInv(w, s, true, p.round);
    StandsEmpty(Remeasured(w, s, true, p.round));
  }

  /** Between games, five minutes after the last round, a healthy engine moves if and only
      if another relay answered fastest and gains at least ten milliseconds (or the relay in
      use has no figure); otherwise it stays, with a new figure if its own relay led. */
  lemma HealthyRelayMovesIff(w: World, s: State, p: PollIn, f: Measurement)
    requires Inv(s) && s.up && s.active != "" && SameGame(w, s, p) && !Silent(p)
    requires s.cur.gameID == "" && p.round.now - s.lastMeasure > 300 * SECONDS
    requires Leads(p.round.ms, f) && (f.relayID == s.active || Takes(s.relays, f.relayID, p.round))
    ensures var t := Step(w, s, Poll(p));
      Smooth(w, s, t) ==>
        if f.relayID == s.active then t == s.(lastMeasure := p.round.now, activeRTT := f.rtt)
        else if s.activeRTT <= 0 || s.activeRTT - f.rtt >= 10_000_000 then t.active == f.relayID && t.activeRTT == f.rtt
        else t == s.(lastMeasure := p.round.now)
  {
    hide Inv, Remeasured, Leads, Takes, SameGame, Step;
    PollIsRound(w, s, p);
    UnforcedRound(w, s, p.round, f);
  }

  /** When a round is due and nobody answers, the engine ends on no relay. */
  lemma NobodyAnswers(w: World, s: State, p: PollIn)
    requires Inv(s) && s.up && SameGame(w, s, p) && Unanswered(p.round.ms)
    requires if s.active == "" then p.round.now - s.lastMeasure > 30 * SECONDS
             else Silent(p) || (s.cur.gameID == "" && p.round.now - s.lastMeasure > 300 * SECONDS)
    ensures var t := Step(w, s, Poll(p));
      && t.up && t.active == "" && (s.active != "" ==> t.activeRTT == 0) && t.lastMeasure == p.round.now
      && (!t.faulted ==> t.net.tunnel == {} && t.net.pins == {})
  {
    hide Inv, Applied, SameGame, Step, Fastest;
    PollIsRound(w, s, p);
    FastestInFigures(p.round.ms);
    AppliedFrame(w, s.(lastMeasure := p.round.now, active := "", activeRTT := 0));
    RemeasuredInv(w, s, RoundForced(s, p), p.round);
    StandsEmpty(Step(w, s, Poll(p)));
  }

  /** Otherwise a poll that finds the same game does nothing at all: with a relay that shakes
      hands, during a game or within five minutes of the last round; with none, within half
      a minute; and a poll that cannot read the process list never does. */
  lemma PollDoesNothing(w: World, s: State, p: PollIn)
    requires Inv(s) && s.up
    requires p.listed.None? ||
      (SameGame(w, s, p) &&
       if s.active == "" then p.round.now - s.lastMeasure <= 30 * SECONDS
       else !Silent(p) && (s.cur.gameID != "" || p.round.now - s.lastMeasure <= 300 * SECONDS))
    ensures Step(w, s, Poll(p)) == s
  {
    if p.listed.Some? { PollIsRound(w, s, p); }
    hide Inv, Checked, Applied, Seen;
  }

  /** A poll that finds another game, or the game gone, moves the routes and not the relay. */
  lemma GameChangeMovesRoutesOnly(w: World, s: State, p: PollIn)
    requires Inv(s) && s.up && p.listed.Some? && Seen(w, p.listed.value) != s.cur
    ensures var t := Step(w, s, Poll(p));
      && t.up && t.cur == Seen(w, p.listed.value) && t.active == s.active && t.activeRTT == s.activeRTT
      && (!t.faulted ==> TableIs(t))
  {
    hide Applied, Seen;
    AppliedFrame(w, s.(cur := Seen(w, p.listed.value)));
    PolledInv(w, s, p);
    if !Polled(w, s, p).faulted { InvMeansTable(Polled(w, s, p)); }
    hide Inv;
  }

  // ----- the table, spelt out

  /** Routes through the tunnel are the ranges while a relay is in use and a game runs, and
      none otherwise; the one pin is that of the relay in use. */
  ghost predicate TableIs(s: State) {
    && s.net.tunnel == (if s.up && s.active != "" && s.cur.gameID != "" then Elements(s.cidrs) else {})
    && s.net.pins == (if s.up && s.active != "" && s.active in s.pins && s.pins[s.active] != "" then {s.pins[s.active]} else {})
  }

  lemma InvMeansTable(s: State)
    requires Inv(s) && !s.faulted
    ensures TableIs(s)
  {
    var cidrs := Text.SortStrings(s.cidrs);
    SameMembers(cidrs, s.cidrs);
    assert Text.SortStrings([]) == [];
    assert Elements(cidrs) == Elements(s.cidrs);
    assert RoutesOf(Goal(s)) == Elements(Goal(s).game);
  }

  /** While no call of a session fails, the table is that after every step of every run. */
  lemma TableInEveryRun(w: World, s: State, inputs: seq<Input>)
    requires Initial(s) && ValidInputs(inputs) && !Run(w, s, inputs).faulted
    ensures TableIs(Run(w, s, inputs))
  {
    RunInv(w, s, inputs);
    InvMeansTable(Run(w, s, inputs));
  }

  // ----- runs in which no call fails

  /** Nothing was ever lost or left off its goal, and no call will fail. */
  ghost predicate Sound(w: World, s: State) {
    !s.faulted && !s.pinLost && !s.routesLost && NoCallFails(w, s.calls)
  }

  lemma {:induction false} CallsGoUp(net: Net, cmds: seq<Cmd>, o: Oracle, at: nat)
    ensures RunCmds(net, cmds, o, at).calls >= at
    decreases |cmds|
  {
    if cmds != [] { CallsGoUp(Effect(net, cmds[0], o(at)).0, cmds[1..], o, at + 1); }
  }

  lemma PlanSound(w: World, s: State, want: Table)
    requires NoCallFails(w, s.calls)
    ensures var r := ApplyPlan(s.net, s.installed, want, w.oracle, s.calls); r.ok && NoCallFails(w, r.calls)
  {
    hide PlanOf, Commands;
    SucceedsWhenAllOk(s.net, Commands(PlanOf(s.installed, want)), w.oracle, s.calls);
    CallsGoUp(s.net, Commands(PlanOf(s.installed, want)), w.oracle, s.calls);
  }

  lemma AppliedSound(w: World, s: State)
    requires Sound(w, s)
    ensures Sound(w, Applied(w, s).0)
  {
    PlanSound(w, s, Goal(s));
    hide Goal, ApplyPlan, PlanOf;
  }

  lemma ActivatedSound(w: World, s: State, relayID: string, rtt: int, round: Round)
    requires Sound(w, s)
    ensures Sound(w, Activated(w, s, relayID, rtt, round).0)
  {
    hide Applied;
    AppliedSound(w, s.(active := relayID, activeRTT := rtt));
  }

  lemma RemeasuredSound(w: World, s: State, force: bool, round: Round)
    requires Sound(w, s)
    ensures Sound(w, Remeasured(w, s, force, round))
  {
    hide Activated, Applied, Fastest;
    var s1 := s.(lastMeasure := round.now);
    AppliedSound(w, s1.(active := "", activeRTT := 0));
    if Fastest(round.ms).Some? {
      var m := Fastest(round.ms).value;
      ActivatedSound(w, s1, m.relayID, m.rtt, round);
      AppliedSound(w, Activated(w, s1, m.relayID, m.rtt, round).0.(active := "", activeRTT := 0));
    }
  }

  lemma TornDownSound(w: World, s: State)
    requires Sound(w, s)
    ensures Sound(w, TornDown(w, s))
  {
    PlanSound(w, s, Goal(s.(up := false)));
    hide ApplyPlan, Goal;
  }

  lemma ConnectedSound(w: World, s: State, c: ConnectIn)
    requires Sound(w, s)
    ensures Sound(w, Connected(w, s, c).0)
  {
    hide Activated, Fastest;
    var s3 := Refreshed(s, c.fetch).0.(up := true, relays := c.relays, pins := c.pins, lastMeasure := c.round.now);
    if Fastest(c.round.ms).Some? {
      ActivatedSound(w, s3, Fastest(c.round.ms).value.relayID, Fastest(c.round.ms).value.rtt, c.round);
    }
  }

  lemma StepSound(w: World, s: State, i: Input)
    requires Sound(w, s) && (i.Reload? ==> i.selected)
    ensures Sound(w, Step(w, s, i))
  {
    hide Connected, TornDown, Remeasured, Applied;
    match i
    case Connect(c) =>
      ConnectedSound(w, s, c);
      TornDownSound(w, Connected(w, s, c).0);
    case Disconnect => TornDownSound(w, s);
    case Reload(fetch, selected) => AppliedSound(w, Refreshed(s, fetch).0);
    case Poll(p) =>
      if p.listed.Some? {
        var s1 := s.(cur := Seen(w, p.listed.value));
        AppliedSound(w, s1);
        RemeasuredSound(w, s1, true, p.round);
        RemeasuredSound(w, s1, false, p.round);
      }
  }

  /** Where no call on the table fails, and no tunnel refuses new ranges, the table is right
      after every step of every run, disconnects and failed connects among them. */
  lemma {:induction false} TableInEverySoundRun(w: World, s: State, inputs: seq<Input>)
    requires Initial(s) && NoCallFails(w, s.calls) && ValidInputs(inputs)
    requires forall k :: 0 <= k < |inputs| && inputs[k].Reload? ==> inputs[k].selected
    ensures Sound(w, Run(w, s, inputs)) && TableIs(Run(w, s, inputs))
    decreases |inputs|
  {
    hide Step, TableIs;
    if inputs != [] {
      var front := inputs[..|inputs| - 1];
      TableInEverySoundRun(w, s, front);
      StepSound(w, Run(w, s, front), inputs[|inputs| - 1]);
    }
    TableInEveryRun(w, s, inputs);
  }

  // ----- connect and reload

  /** Everything a connect needs answers. */
  predicate Ready(cidrs: seq<string>, c: ConnectIn) {
    && (if c.fetch.Fetched? then |c.fetch.kept| > 0 else |cidrs| > 0)
    && c.session && c.defaultRoute && c.relays != [] && c.tunnel && c.peersSet
  }

  /** A connect ends on the fastest of all relays that answered, holding what it was told;
      the ranges are the new ones, or those held when none could be had. */
  lemma ConnectUsesFastest(w: World, s: State, c: ConnectIn, f: Measurement)
    requires Inv(s) && ValidInput(Connect(c)) && !s.up && Ready(s.cidrs, c)
    requires Leads(c.round.ms, f) && Takes(c.relays, f.relayID, c.round) && NoCallFails(w, s.calls)
    ensures var t := Step(w, s, Connect(c));
      && t.up && t.active == f.relayID && t.activeRTT == f.rtt && t.lastMeasure == c.round.now
      && t.relays == c.relays && t.pins == c.pins && t.cur == s.cur
      && t.cidrs == (if c.fetch.Fetched? then c.fetch.kept else s.cidrs)
      && (!t.faulted ==> TableIs(t))
  {
    LeaderIsFastest(c.round.ms, f);
    hide Applied, TornDown, Fastest;
    var s3 := Refreshed(s, c.fetch).0.(up := true, relays := c.relays, pins := c.pins, lastMeasure := c.round.now,
                                       active := f.relayID, activeRTT := f.rtt);
    AppliedFrame(w, s3);
    AppliedWhenSmooth(w, s3);
    ConnectedInv(w, s, c);
    var t := Step(w, s, Connect(c));
    if !t.faulted { InvMeansTable(t); }
  }

  /** Whenever anything it needs is missing, a connect leaves no tunnel. */
  lemma ConnectRefused(w: World, s: State, c: ConnectIn, f: Measurement)
    requires !s.up
    requires !Ready(s.cidrs, c) || Unanswered(c.round.ms) || (Leads(c.round.ms, f) && !Takes(c.relays, f.relayID, c.round))
    ensures var t := Step(w, s, Connect(c)); !t.up && t.active == "" && t.installed == DISCONNECTED && t.relays == []
  {
    LeaderIsFastest(c.round.ms, f);
    FastestInFigures(c.round.ms);
    hide Applied, Emptied, Fastest;
  }

  /** Connecting again changes nothing. */
  lemma ConnectAgain(w: World, s: State, c: ConnectIn)
    requires s.up
    ensures Step(w, s, Connect(c)) == s
  {
    hide Activated, Refreshed;
  }

  /** A reload keeps the relay and takes over the new ranges, in the table too when a game
      runs; one that brings none, with none to fall back on, changes nothing. */
  lemma ReloadTakesEffect(w: World, s: State, fetch: Fetch)
    requires Inv(s)
    ensures var t := Step(w, s, Reload(fetch, true));
      && t.up == s.up && t.active == s.active && t.cur == s.cur
      && t.cidrs == (if fetch.Fetched? && fetch.kept != [] then fetch.kept else s.cidrs)
      && ((if fetch.Fetched? then fetch.kept == [] else s.cidrs == []) ==> t == s)
      && (!t.faulted ==> TableIs(t))
  {
    hide Applied;
    AppliedFrame(w, Refreshed(s, fetch).0);
    ReloadedInv(w, s, fetch, true);
    var t := Step(w, s, Reload(fetch, true));
    if !t.faulted { InvMeansTable(t); }
  }

  /** When the tunnel refuses new ranges they are kept for later and nothing else moves. */
  lemma ReloadRefused(w: World, s: State, kept: seq<string>)
    requires s.up && s.active != "" && kept != []
    ensures Step(w, s, Reload(Fetched(kept), false)) == s.(cidrs := kept, faulted := true)
  {
    hide Applied;
  }

  /** A disconnect forgets the session but not the ranges, nor what is running. */
  lemma DisconnectForgetsSession(w: World, s: State)
    ensures var t := Step(w, s, Disconnect);
      && !t.up && t.installed == DISCONNECTED && t.relays == [] && t.pins == map[] && t.active == "" && t.activeRTT == 0
      && t.cidrs == s.cidrs && t.cur == s.cur && t.lastMeasure == s.lastMeasure
  {
    hide ApplyPlan, Goal;
  }

  /** Without a tunnel a poll only takes note of what runs. */
  lemma PollWhenDown(w: World, s: State, p: PollIn)
    requires !s.up
    ensures Step(w, s, Poll(p)) == if p.listed.Some? then s.(cur := Seen(w, p.listed.value)) else s
  {
    hide Checked, Applied, Seen;
  }
}
