/** What every run of the engine keeps, with operating-system calls failing anywhere. */
module EngineRuns {
  import opened Wrappers
  import opened Sorting
  import opened Text
  import opened Routes
  import opened RouteSafety
  import opened Pick
  import opened Gamewatch
  import opened Engine

  /** What the control plane and `offers` guarantee: named relays, each with its pin. */
  predicate ValidInput(i: Input) {
    i.Connect? ==> forall k :: 0 <= k < |i.c.relays| ==>
      var id := i.c.relays[k].id; id != "" && id in i.c.pins && i.c.pins[id] != ""
  }

  predicate ValidInputs(inputs: seq<Input>) {
    forall k :: 0 <= k < |inputs| ==> ValidInput(inputs[k])
  }

  /** No tunnel, and none of this service's routes or pins in the table: a service that has
      just started, and one whose last session left nothing behind. */
  ghost predicate Initial(s: State) {
    && !s.up && s.installed == DISCONNECTED && s.relays == [] && s.active == ""
    && s.net.tunnel == {} && s.net.pins == {} && !s.faulted && !s.pinLost && !s.routesLost
  }

  // ----- the invariant

  /** The routes really installed are among those recorded, and so is the pin, unless calls
      failed in a way that can lose one. */
  ghost predicate Recorded(s: State) {
    && (!s.routesLost ==> s.net.tunnel <= RoutesOf(s.installed))
    && (!s.pinLost ==> s.net.pins <= PinSet(s.installed.relayPin))
    && s.installed.lobby == []
    && PinnedIfRouted(s.installed)
  }

  /** The table is exactly what is recorded. */
  ghost predicate TableIsRecord(s: State) {
    s.net.tunnel == RoutesOf(s.installed) && s.net.pins == PinSet(s.installed.relayPin)
  }

  ghost predicate Records(s: State, want: Table) {
    RoutesOf(s.installed) == RoutesOf(want) && s.installed.relayPin == want.relayPin
  }

  ghost predicate Offers(s: State) {
    && (forall k :: 0 <= k < |s.relays| ==>
          var id := s.relays[k].id; id != "" && id in s.pins && s.pins[id] != "")
    && (s.active != "" ==> s.up && OnOffer(s.relays, s.active))
    && (!s.up ==> s.installed == DISCONNECTED)
  }

  ghost predicate LossIsFault(s: State) {
    s.pinLost || s.routesLost ==> s.faulted
  }

  ghost predicate Inv(s: State) {
    && Recorded(s) && Offers(s) && LossIsFault(s)
    && (!s.faulted ==> TableIsRecord(s) && Records(s, Goal(s)))
    && (!s.up && s.faulted ==> s.pinLost || s.routesLost)
  }

  lemma GoalIsPinned(s: State)
    requires Offers(s)
    ensures Goal(s).lobby == [] && PinnedIfRouted(Goal(s))
  {
    assert SortStrings([]) == [];
    if s.up && s.active != "" {
      var k :| 0 <= k < |s.relays| && s.relays[k].id == s.active;
    }
  }

  /** Moving the table anywhere keeps it recorded; without a fault it arrives. */
  lemma MovedKeepsRecord(w: World, s: State, want: Table)
    requires Recorded(s) && want.lobby == [] && PinnedIfRouted(want)
    requires LossIsFault(s) && (!s.faulted ==> TableIsRecord(s))
    ensures var t := Moved(w, s, want).0;
      Recorded(t) && LossIsFault(t) && (!t.faulted ==> TableIsRecord(t) && Records(t, want))
  {
    var c := PlanOf(s.installed, want);
    var r := ApplyPlan(s.net, s.installed, want, w.oracle, s.calls);
    if c.Empty() {
      EmptyPlanMeansSame(s.installed, want);
    } else {
      ApplyEffect(s.net, s.installed, want, w.oracle, s.calls);
      if !s.routesLost { RecordCoversTunnel(s.net, s.installed, want, w.oracle, s.calls); }
      hide ApplyPlan;
      MovedPins(w, s, want);
      if r.ok {
        ArrivesWhenExact(s.installed, want);
      } else {
        UnionIsPinned(s.installed, want);
      }
    }
  }

  lemma UnionIsPinned(a: Table, b: Table)
    requires a.lobby == b.lobby == [] && PinnedIfRouted(a) && PinnedIfRouted(b)
    ensures Union(a, b).lobby == [] && PinnedIfRouted(Union(a, b))
  {
    UnionCoversBoth(a, b);
    assert a.lobby + b.lobby == [];
  }

  lemma EmptyPlanMeansSame(cur: Table, want: Table)
    requires PlanOf(cur, want).Empty()
    ensures RoutesOf(cur) == RoutesOf(want) && cur.relayPin == want.relayPin
  {
    SortedSetElements(Elements(want.lobby) - Elements(cur.lobby));
    SortedSetElements(Elements(want.game) - Elements(cur.game));
    SortedSetElements(Elements(cur.lobby) - Elements(want.lobby));
    SortedSetElements(Elements(cur.game) - Elements(want.game));
    assert Elements<string>([]) == {};
  }

  lemma ArrivesWhenExact(cur: Table, want: Table)
    requires cur.lobby == [] && want.lobby == []
    ensures RoutesOf(cur) + Added(cur, want) - Deleted(cur, want) == RoutesOf(want)
  {
  }

  lemma MovedPins(w: World, s: State, want: Table)
    requires !s.pinLost ==> s.net.pins <= PinSet(s.installed.relayPin)
    requires !PlanOf(s.installed, want).Empty()
    ensures var t := Moved(w, s, want).0; !t.pinLost ==> t.net.pins <= PinSet(t.installed.relayPin)
  {
    ApplyEffect(s.net, s.installed, want, w.oracle, s.calls);
    hide ApplyPlan;
  }

  /** The part of the invariant that does not speak of the goal. */
  ghost predicate Tracked(s: State) {
    Recorded(s) && LossIsFault(s) && (!s.faulted ==> TableIsRecord(s))
  }

  /** What the plan to nothing leaves, before the adapter closes. */
  lemma UnroutedLeaves(w: World, s: State)
    requires Recorded(s)
    ensures var (t, ok) := Unrouted(w, s);
      && t == s.(net := t.net, calls := t.calls, pinLost := t.pinLost)
      && (!s.routesLost ==> t.net.tunnel <= RoutesOf(s.installed) && (ok ==> t.net.tunnel == {}))
      && (!t.pinLost ==> t.net.pins == {})
      && (ok ==> t.pinLost == s.pinLost)
  {
    GoalOff(s.(up := false));
    ApplyEffect(s.net, s.installed, Goal(s.(up := false)), w.oracle, s.calls);
    hide ApplyPlan, Goal;
    assert RoutesOf(DISCONNECTED) == {};
  }

  lemma EmptiedLeaves(w: World, s: State)
    requires Recorded(s)
    ensures var t := Emptied(w, s);
      && (!t.routesLost ==> t.net.tunnel == {}) && (!t.pinLost ==> t.net.pins == {})
      && t.faulted == (t.pinLost || t.routesLost)
  {
    UnroutedLeaves(w, s);
    hide Unrouted;
  }

  /** Nothing up, nothing recorded, nothing in the table that was not lost. */
  ghost predicate Down(s: State) {
    && !s.up && s.installed == DISCONNECTED && s.relays == [] && s.active == ""
    && (!s.routesLost ==> s.net.tunnel == {}) && (!s.pinLost ==> s.net.pins == {})
    && s.faulted == (s.pinLost || s.routesLost)
  }

  lemma DownInv(s: State)
    requires Down(s)
    ensures Inv(s)
  {
    GoalOff(s);
    hide Goal;
    assert RoutesOf(DISCONNECTED) == {};
  }

  lemma TornDownInv(w: World, s: State)
    requires Tracked(s) && (!s.up ==> s.installed == DISCONNECTED && (s.faulted ==> s.pinLost || s.routesLost))
    ensures Down(TornDown(w, s)) && Inv(TornDown(w, s))
  {
    if s.up {
      EmptiedLeaves(w, s);
    } else {
      assert RoutesOf(DISCONNECTED) == {};
    }
    hide Emptied;
    DownInv(TornDown(w, s));
  }

  /** Moving the table changes nothing but the table and its record. */
  lemma MovedFrame(w: World, s: State, want: Table)
    ensures var t := Moved(w, s, want).0;
      t == s.(net := t.net, calls := t.calls, installed := t.installed, faulted := t.faulted, pinLost := t.pinLost)
    ensures var t := Moved(w, s, want).0; s.faulted ==> t.faulted
  {
    hide PlanOf;
    hide ApplyPlan;
    hide LosesPin;
  }

  lemma GoalSame(s: State, t: State)
    requires s.up == t.up && s.active == t.active && s.pins == t.pins && s.cur == t.cur && s.cidrs == t.cidrs
    ensures Goal(s) == Goal(t)
  {
  }

  lemma AppliedInv(w: World, s: State)
    requires Tracked(s) && Offers(s) && s.up
    ensures Inv(Applied(w, s).0)
    ensures var t := Applied(w, s).0;
      t == s.(net := t.net, calls := t.calls, installed := t.installed, faulted := t.faulted, pinLost := t.pinLost)
  {
    hide Moved;
    GoalIsPinned(s);
    MovedKeepsRecord(w, s, Goal(s));
    MovedFrame(w, s, Goal(s));
    GoalSame(Applied(w, s).0, s);
    hide Goal;
  }

  lemma StoodDownInv(w: World, s: State)
    requires Tracked(s) && Offers(s) && s.up
    ensures Inv(StoodDown(w, s)) && StoodDown(w, s).up && StoodDown(w, s).active == ""
  {
    hide Applied;
    AppliedInv(w, s.(active := "", activeRTT := 0));
  }

  lemma ActivatedInv(w: World, s: State, relayID: string, rtt: int, round: Round)
    requires Tracked(s) && Offers(s) && s.up
    ensures var (t, ok) := Activated(w, s, relayID, rtt, round);
      Tracked(t) && Offers(t) && t.up && (ok ==> Inv(t) && t.active == relayID && t.activeRTT == rtt && t.relays == s.relays)
  {
    hide Applied;
    if OnOffer(s.relays, relayID) && round.configured && round.selected {
      AppliedInv(w, s.(active := relayID, activeRTT := rtt));
    }
  }

  lemma RemeasuredInv(w: World, s: State, force: bool, round: Round)
    requires Inv(s) && s.up
    ensures Inv(Remeasured(w, s, force, round)) && Remeasured(w, s, force, round).up
  {
    hide Activated;
    hide StoodDown;
    var s1 := s.(lastMeasure := round.now);
    GoalSame(s1, s);
    match Fastest(round.ms) {
      case None =>
        hide Goal;
        StoodDownInv(w, s1);
      case Some(m) =>
        GoalSame(s1.(activeRTT := m.rtt), s);
        hide Goal;
        ActivatedInv(w, s1, m.relayID, m.rtt, round);
        StoodDownInv(w, Activated(w, s1, m.relayID, m.rtt, round).0);
    }
  }

  lemma ConnectedInv(w: World, s: State, c: ConnectIn)
    requires Inv(s) && ValidInput(Connect(c))
    ensures var (t, ok) := Connected(w, s, c);
      if ok then Inv(t)
      else Tracked(t) && (!t.up ==> t.installed == DISCONNECTED && (t.faulted ==> t.pinLost || t.routesLost))
  {
    hide Activated;
    hide Goal;
    if !s.up {
      var s1 := Refreshed(s, c.fetch).0;
      var s3 := s1.(up := true, relays := c.relays, pins := c.pins, lastMeasure := c.round.now);
      assert s1.active == "";
      if Fastest(c.round.ms).Some? {
        ActivatedInv(w, s3, Fastest(c.round.ms).value.relayID, Fastest(c.round.ms).value.rtt, c.round);
      }
    }
  }

  lemma PolledInv(w: World, s: State, p: PollIn)
    requires Inv(s)
    ensures Inv(Polled(w, s, p))
  {
    hide Applied;
    hide Remeasured;
    if p.listed.Some? {
      var s1 := s.(cur := Seen(w, p.listed.value));
      if s.up {
        AppliedInv(w, s1);
        if s1.cur == s.cur {
          assert s1 == s;
          RemeasuredInv(w, s1, true, p.round);
          RemeasuredInv(w, s1, false, p.round);
        }
      }
    }
  }

  lemma GoalOff(s: State)
    requires !s.up || s.active == ""
    ensures Goal(s) == DISCONNECTED
  {
  }

  lemma ReloadedInv(w: World, s: State, fetch: Fetch, selected: bool)
    requires Inv(s)
    ensures Inv(Reloaded(w, s, fetch, selected))
  {
    hide Applied;
    hide Goal;
    var s1 := Refreshed(s, fetch).0;
    if !s.up || s.active == "" {
      GoalOff(s);
      GoalOff(s1);
    } else {
      AppliedInv(w, s1);
    }
  }

  lemma StepInv(w: World, s: State, i: Input)
    requires Inv(s) && ValidInput(i)
    ensures Inv(Step(w, s, i))
  {
    hide Connected;
    hide TornDown;
    hide Polled;
    hide Reloaded;
    match i
    case Connect(c) =>
      ConnectedInv(w, s, c);
      if !Connected(w, s, c).1 { TornDownInv(w, Connected(w, s, c).0); }
    case Disconnect => TornDownInv(w, s);
    case Reload(fetch, selected) => ReloadedInv(w, s, fetch, selected);
    case Poll(p) => PolledInv(w, s, p);
  }

  lemma {:induction false} RunInv(w: World, s: State, inputs: seq<Input>)
    requires Initial(s) && ValidInputs(inputs)
    ensures Inv(Run(w, s, inputs))
  {
    hide Step;
    if inputs == [] {
      assert RoutesOf(DISCONNECTED) == {};
    } else {
      RunInv(w, s, inputs[..|inputs| - 1]);
      StepInv(w, Run(w, s, inputs[..|inputs| - 1]), inputs[|inputs| - 1]);
    }
  }

  // ----- the theorems

  /** Whatever failed where: no route is in the table that the engine does not know of. */
  lemma RecordCoversTableInEveryRun(w: World, s: State, inputs: seq<Input>)
    requires Initial(s) && ValidInputs(inputs)
    ensures var t := Run(w, s, inputs);
      && (!t.routesLost ==> t.net.tunnel <= RoutesOf(t.installed))
      && (!t.pinLost ==> t.net.pins <= PinSet(t.installed.relayPin))
      && (!t.up ==> t.installed == DISCONNECTED)
  {
    RunInv(w, s, inputs);
  }

  /** In every state of every run, the commands of a teardown, taken by themselves and
      stopped anywhere, leave only recorded routes, and none once they all succeeded; the
      pin is there until the last of them, and then it is gone. */
  lemma TeardownPlanLeavesNothing(w: World, s: State, inputs: seq<Input>)
    requires Initial(s) && ValidInputs(inputs) && !Run(w, s, inputs).routesLost
    ensures var t := Run(w, s, inputs);
      var r := ApplyPlan(t.net, t.installed, DISCONNECTED, w.oracle, t.calls);
      && Unrouted(w, t).0.net == r.net && Unrouted(w, t).1 == r.ok
      && r.net.tunnel <= RoutesOf(t.installed)
      && (r.ok ==> r.net.tunnel == {} && (!t.pinLost ==> r.net.pins == {}))
      && (!r.ok ==> r.net.pins == t.net.pins)
  {
    RunInv(w, s, inputs);
    var t := Run(w, s, inputs);
    ApplyEffect(t.net, t.installed, DISCONNECTED, w.oracle, t.calls);
    GoalOff(t.(up := false));
    hide ApplyPlan, Goal;
    assert RoutesOf(DISCONNECTED) == {};
  }

  /** Disconnecting, closing included, leaves no route unless some teardown both failed and
      found its adapter keeping the routes, and no pin unless one was lost. */
  lemma DisconnectLeavesNothing(w: World, s: State, inputs: seq<Input>)
    requires Initial(s) && ValidInputs(inputs)
    ensures var (t, u) := (Run(w, s, inputs), Run(w, s, inputs + [Disconnect]));
      var r := ApplyPlan(t.net, t.installed, DISCONNECTED, w.oracle, t.calls);
      && !u.up && u.installed == DISCONNECTED
      && (u.routesLost <==> t.routesLost || (t.up && !r.ok && !w.closing(r.calls)))
      && (!u.routesLost ==> u.net.tunnel == {})
      && (!u.pinLost ==> u.net.pins == {})
  {
    RunInv(w, s, inputs);
    var t, all := Run(w, s, inputs), inputs + [Disconnect];
    assert all[..|all| - 1] == inputs;
    TornDownInv(w, t);
    GoalOff(t.(up := false));
    hide Goal, ApplyPlan;
  }

  lemma {:induction false} RunOnward(w: World, s: State, before: seq<Input>, after: seq<Input>)
    ensures Run(w, s, before + after) == Run(w, Run(w, s, before), after)
    decreases |after|
  {
    hide Step;
    var all := before + after;
    if after == [] {
      assert all == before;
    } else {
      RunOnward(w, s, before, after[..|after| - 1]);
      assert all[..|all| - 1] == before + after[..|after| - 1];
    }
  }

  /** A disconnect is a fresh start exactly when nothing was lost: then, whatever failed
      before it, every theorem about a service that has just started holds of what follows. */
  lemma DisconnectIsFreshStartIff(w: World, s: State, before: seq<Input>, session: seq<Input>)
    requires Initial(s) && ValidInputs(before)
    ensures var t := Run(w, s, before + [Disconnect]);
      && (Initial(t) <==> !t.pinLost && !t.routesLost)
      && Run(w, s, before + [Disconnect] + session) == Run(w, t, session)
  {
    RunInv(w, s, before);
    var all := before + [Disconnect];
    assert all[..|all| - 1] == before;
    TornDownInv(w, Run(w, s, before));
    RunOnward(w, s, all, session);
    hide TornDown;
  }

  /** While no call fails, table, record and goal are one after every step. */
  lemma TableIsGoalWhileNothingFails(w: World, s: State, inputs: seq<Input>)
    requires Initial(s) && ValidInputs(inputs)
    requires !Run(w, s, inputs).faulted
    ensures var t := Run(w, s, inputs);
      && t.net.tunnel == RoutesOf(t.installed) == RoutesOf(Goal(t))
      && t.net.pins == PinSet(t.installed.relayPin) == PinSet(Goal(t).relayPin)
  {
    RunInv(w, s, inputs);
  }

  /** From any state of any run, whatever failed on the way, a plan towards a pinned goal
      holds the pin at every moment and under every further failure if and only if the
      recorded pin is really there, or no route is and the plan brings its own pin or adds
      no route. */
  lemma PinHeldInEveryRunIff(w: World, s: State, inputs: seq<Input>, want: Table)
    requires Initial(s) && ValidInputs(inputs) && !Run(w, s, inputs).routesLost
    requires PinnedIfRouted(want)
    ensures var t := Run(w, s, inputs);
      PinAlwaysHeld(t.net, t.installed, want) <==>
        t.installed.relayPin in t.net.pins
        || (t.net.tunnel == {} && (t.installed.relayPin != want.relayPin || Added(t.installed, want) == {}))
  {
    RunInv(w, s, inputs);
    var t := Run(w, s, inputs);
    PinHeldIff(t.net, t.installed, want);
  }

  /** While no call has failed, that is always so. */
  lemma PinHeldInEveryCleanRun(w: World, s: State, inputs: seq<Input>, want: Table)
    requires Initial(s) && ValidInputs(inputs) && !Run(w, s, inputs).faulted
    requires PinnedIfRouted(want)
    ensures PinAlwaysHeld(Run(w, s, inputs).net, Run(w, s, inputs).installed, want)
  {
    RunInv(w, s, inputs);
    var t := Run(w, s, inputs);
    PinHeldIff(t.net, t.installed, want);
    hide PinAlwaysHeld;
  }

  // ----- nothing moves during a game

  /** A game is seen by every poll that reads the process list, the active relay keeps
      shaking hands, and nobody asks to disconnect. */
  ghost predicate Undisturbed(w: World, i: Input) {
    match i
    case Disconnect => false
    case Poll(p) => Fresh(p) && (p.listed.Some? ==> Seen(w, p.listed.value).Running())
    case _ => true
  }

  lemma AppliedFrame(w: World, s: State)
    ensures var t := Applied(w, s).0;
      t == s.(net := t.net, calls := t.calls, installed := t.installed, faulted := t.faulted, pinLost := t.pinLost)
  {
    hide Moved;
    MovedFrame(w, s, Goal(s));
  }

  lemma UndisturbedStep(w: World, s: State, i: Input)
    requires s.up && s.active != "" && Undisturbed(w, i)
    ensures var t := Step(w, s, i); t.up && t.active == s.active && t.activeRTT == s.activeRTT && t.relays == s.relays
  {
    hide Applied;
    hide Remeasured;
    hide Activated;
    match i
    case Connect(c) =>
    case Reload(fetch, selected) => AppliedFrame(w, Refreshed(s, fetch).0);
    case Poll(p) => if p.listed.Some? { AppliedFrame(w, s.(cur := Seen(w, p.listed.value))); }
  }

  /** While a game keeps being seen and the relay answers, the relay in use never changes,
      whatever polls, connects, reloads and game swaps happen. */
  lemma {:induction false} RelayStaysDuringGame(w: World, s: State, inputs: seq<Input>, more: seq<Input>)
    requires Run(w, s, inputs).up && Run(w, s, inputs).active != ""
    requires forall k :: 0 <= k < |more| ==> Undisturbed(w, more[k])
    ensures var (a, b) := (Run(w, s, inputs), Run(w, s, inputs + more));
      b.up && b.active == a.active && b.activeRTT == a.activeRTT && b.relays == a.relays
    decreases |more|
  {
    hide Step;
    hide Undisturbed;
    if more == [] {
      assert inputs + more == inputs;
    } else {
      var all, front := inputs + more, more[..|more| - 1];
      assert all[..|all| - 1] == inputs + front;
      RelayStaysDuringGame(w, s, inputs, front);
      UndisturbedStep(w, Run(w, s, inputs + front), more[|more| - 1]);
    }
  }

  // ----- a relay that died is left

  /** A forced re-measurement ends on the fastest relay that answered or on none at all;
      on none, with no call failing, nothing is left in the table. */
  lemma ForcedRoundMovesOrStandsDown(w: World, s: State, round: Round)
    requires Inv(s) && s.up
    ensures var (t, f) := (Remeasured(w, s, true, round), Fastest(round.ms));
      && (t.active == "" || (f.Some? && t.active == f.value.relayID && t.activeRTT == f.value.rtt))
      && (t.active == "" && !t.faulted ==> t.net.tunnel == {} && t.net.pins == {})
  {
    hide Applied, Inv;
    var s1 := s.(lastMeasure := round.now);
    RemeasuredInv(w, s, true, round);
    StandsEmpty(Remeasured(w, s, true, round));
    AppliedFrame(w, s1.(active := "", activeRTT := 0));
    if Fastest(round.ms).Some? {
      FastestIsLeast(round.ms);
      var m := Fastest(round.ms).value;
      var s2 := s1.(active := m.relayID, activeRTT := m.rtt);
      AppliedFrame(w, s2);
      AppliedFrame(w, Applied(w, s2).0.(active := "", activeRTT := 0));
    }
  }

  lemma StandsEmpty(s: State)
    requires Inv(s)
    ensures s.active == "" && !s.faulted ==> s.net.tunnel == {} && s.net.pins == {}
  {
    if s.active == "" {
      GoalOff(s);
      hide Goal;
      assert RoutesOf(DISCONNECTED) == {};
    }
  }

  /** A poll that finds the active relay silent too long, and nobody else answering, takes
      every route out: the game goes back to the ordinary path. */
  lemma SilentRelayIsLeft(w: World, s: State, p: PollIn)
    requires Inv(s) && s.up && s.active != ""
    requires p.listed.Some? && Seen(w, p.listed.value) == s.cur && !Fresh(p) && Fastest(p.round.ms).None?
    ensures var t := Polled(w, s, p);
      && t.active == "" && (!t.faulted ==> t.net.tunnel == {} && t.net.pins == {})
  {
    hide Remeasured, Inv, Seen;
    ForcedRoundMovesOrStandsDown(w, s, p.round);
    ActiveIsOffered(s);
    assert s.(cur := s.cur) == s;
  }

  // ----- re-ranking settles

  /** Nothing forces a move: no disconnect is asked and the relay in use answers; what is
      measured is within `d` of the truth. */
  ghost predicate Steady(i: Input, truth: string -> int, d: int) {
    match i
    case Disconnect => false
    case Poll(p) => Fresh(p) && forall m :: m in p.round.ms && m.Answered() ==> Honest(m, truth, d)
    case _ => true
  }

  ghost function InUse(s: State): Use {
    Use(s.active, s.activeRTT)
  }

  /** An unforced re-ranking of the engine is `Rerank`, unless it ends standing down. */
  lemma RemeasuredIsRerank(w: World, s: State, round: Round)
    requires s.active != ""
    ensures var t := Remeasured(w, s, false, round);
      t.active == "" || (Fastest(round.ms).Some? && InUse(t) == Rerank(InUse(s), Fastest(round.ms).value))
    ensures Remeasured(w, s, false, round).up == s.up && Remeasured(w, s, false, round).relays == s.relays
  {
    hide Applied;
    var s1 := s.(lastMeasure := round.now);
    AppliedFrame(w, s1.(active := "", activeRTT := 0));
    if Fastest(round.ms).Some? {
      var m := Fastest(round.ms).value;
      var s2 := s1.(active := m.relayID, activeRTT := m.rtt);
      AppliedFrame(w, s2);
      AppliedFrame(w, Applied(w, s2).0.(active := "", activeRTT := 0));
    }
  }

  lemma SteadyPoll(w: World, s: State, p: PollIn, truth: string -> int, d: int)
    requires s.up && s.active != "" && Steady(Poll(p), truth, d) && HonestUse(InUse(s), truth, d)
    requires Polled(w, s, p).active != ""
    ensures var t := Polled(w, s, p);
      && t.up && t.relays == s.relays && HonestUse(InUse(t), truth, d)
      && (t.active != s.active ==> truth(t.active) <= truth(s.active) - (DEFAULT_SWITCH_MARGIN - 2 * d))
  {
    hide Applied, Remeasured, Rerank, Seen;
    if p.listed.Some? {
      var s1 := s.(cur := Seen(w, p.listed.value));
      AppliedFrame(w, s1);
      RemeasuredIsRerank(w, s1, p.round);
      FastestIsLeast(p.round.ms);
      if Fastest(p.round.ms).Some? { RerankImproves(InUse(s1), Fastest(p.round.ms).value, truth, d); }
    }
  }

  lemma SteadyStep(w: World, s: State, i: Input, truth: string -> int, d: int)
    requires s.up && s.active != "" && Steady(i, truth, d) && HonestUse(InUse(s), truth, d)
    requires Step(w, s, i).active != ""
    ensures var t := Step(w, s, i);
      && t.up && t.relays == s.relays && HonestUse(InUse(t), truth, d)
      && (t.active != s.active ==> truth(t.active) <= truth(s.active) - (DEFAULT_SWITCH_MARGIN - 2 * d))
  {
    hide Applied, Polled, Activated;
    match i
    case Connect(c) =>
    case Reload(fetch, selected) => AppliedFrame(w, Refreshed(s, fetch).0);
    case Poll(p) => SteadyPoll(w, s, p, truth, d);
  }

  /** A run of steady inputs in which some relay stays in use throughout. */
  ghost predicate SteadyRun(w: World, s: State, inputs: seq<Input>, truth: string -> int, d: int) {
    && s.up && s.active != "" && HonestUse(InUse(s), truth, d)
    && (forall k :: 0 <= k < |inputs| ==> Steady(inputs[k], truth, d))
    && (forall k :: 0 <= k <= |inputs| ==> Run(w, s, inputs[..k]).active != "")
  }

  lemma SteadyFront(w: World, s: State, inputs: seq<Input>, truth: string -> int, d: int)
    requires SteadyRun(w, s, inputs, truth, d) && inputs != []
    ensures SteadyRun(w, s, inputs[..|inputs| - 1], truth, d)
    ensures Run(w, s, inputs).active != ""
  {
    hide Step;
    var front := inputs[..|inputs| - 1];
    forall k | 0 <= k <= |front| ensures Run(w, s, front[..k]).active != "" { assert front[..k] == inputs[..k]; }
    assert inputs[..|inputs|] == inputs;
  }

  ghost function Switches(w: World, s: State, inputs: seq<Input>): nat {
    if inputs == [] then 0
    else
      var front := inputs[..|inputs| - 1];
      Switches(w, s, front) + if Run(w, s, inputs).active != Run(w, s, front).active then 1 else 0
  }

  ghost function Visited(w: World, s: State, inputs: seq<Input>): set<string> {
    if inputs == [] then {s.active}
    else Visited(w, s, inputs[..|inputs| - 1]) + {Run(w, s, inputs).active}
  }

  /** The relay in use is strictly the nearest of all visited, and each switch visits a new one. */
  lemma {:induction false} SwitchesVisitNewRelays(w: World, s: State, inputs: seq<Input>, truth: string -> int, d: int)
    requires SteadyRun(w, s, inputs, truth, d) && 2 * d < DEFAULT_SWITCH_MARGIN
    ensures var t := Run(w, s, inputs);
      && t.up && t.relays == s.relays && HonestUse(InUse(t), truth, d)
      && t.active in Visited(w, s, inputs)
      && (forall id :: id in Visited(w, s, inputs) && id != t.active ==> truth(t.active) < truth(id))
      && |Visited(w, s, inputs)| == Switches(w, s, inputs) + 1
    decreases |inputs|
  {
    hide Step;
    if inputs != [] {
      var front := inputs[..|inputs| - 1];
      SteadyFront(w, s, inputs, truth, d);
      SwitchesVisitNewRelays(w, s, front, truth, d);
      SteadyStep(w, Run(w, s, front), inputs[|inputs| - 1], truth, d);
    }
  }

  /** A relay left in a steady run is never returned to. */
  lemma NeverReturnsToARelay(w: World, s: State, inputs: seq<Input>, truth: string -> int, d: int, k: nat)
    requires SteadyRun(w, s, inputs, truth, d) && 2 * d < DEFAULT_SWITCH_MARGIN && k < |inputs|
    requires Run(w, s, inputs[..k]).active != Run(w, s, inputs[..k + 1]).active
    ensures Run(w, s, inputs).active != Run(w, s, inputs[..k]).active
    decreases |inputs|
  {
    hide Step;
    var front := inputs[..|inputs| - 1];
    SteadyFront(w, s, inputs, truth, d);
    SwitchesVisitNewRelays(w, s, front, truth, d);
    SteadyStep(w, Run(w, s, front), inputs[|inputs| - 1], truth, d);
    VisitedAlong(w, s, front, k);
    assert front[..k] == inputs[..k];
    if k + 1 == |inputs| {
      assert inputs[..k + 1] == inputs && front == inputs[..k];
    } else {
      assert front[..k + 1] == inputs[..k + 1];
      NeverReturnsToARelay(w, s, front, truth, d, k);
    }
  }

  lemma {:induction false} VisitedAlong(w: World, s: State, inputs: seq<Input>, k: nat)
    requires k <= |inputs|
    ensures Run(w, s, inputs[..k]).active in Visited(w, s, inputs)
    decreases |inputs|
  {
    hide Step;
    if k < |inputs| {
      VisitedAlong(w, s, inputs[..|inputs| - 1], k);
      assert inputs[..|inputs| - 1][..k] == inputs[..k];
    } else {
      assert inputs[..k] == inputs;
    }
  }

  ghost function Ids(relays: seq<Relay>): set<string> {
    set k | 0 <= k < |relays| :: relays[k].id
  }

  /** In a steady run a fleet of n relays sees at most n - 1 switches. */
  lemma AtMostOneSwitchPerOtherRelay(w: World, s: State, inputs: seq<Input>, truth: string -> int, d: int)
    requires SteadyRun(w, s, inputs, truth, d) && 2 * d < DEFAULT_SWITCH_MARGIN
    requires Inv(s) && ValidInputs(inputs)
    ensures Switches(w, s, inputs) <= |Ids(s.relays)| - 1
  {
    SwitchesVisitNewRelays(w, s, inputs, truth, d);
    VisitedOnOffer(w, s, inputs, truth, d);
    SubsetSize(Visited(w, s, inputs), Ids(s.relays));
  }

  lemma ActiveIsOffered(s: State)
    requires Inv(s) && s.active != ""
    ensures s.active in Ids(s.relays)
  {
    var k :| 0 <= k < |s.relays| && s.relays[k].id == s.active;
    assert s.relays[k].id in Ids(s.relays);
  }

  lemma {:induction false} VisitedOnOffer(w: World, s: State, inputs: seq<Input>, truth: string -> int, d: int)
    requires SteadyRun(w, s, inputs, truth, d) && 2 * d < DEFAULT_SWITCH_MARGIN
    requires Inv(s) && ValidInputs(inputs)
    ensures Visited(w, s, inputs) <= Ids(s.relays) && Inv(Run(w, s, inputs))
    decreases |inputs|
  {
    hide Step;
    hide Inv;
    if inputs != [] {
      var front := inputs[..|inputs| - 1];
      SteadyFront(w, s, inputs, truth, d);
      VisitedOnOffer(w, s, front, truth, d);
      StepInv(w, Run(w, s, front), inputs[|inputs| - 1]);
    } else {
      assert inputs[..0] == [];
    }
    SwitchesVisitNewRelays(w, s, inputs, truth, d);
    ActiveIsOffered(Run(w, s, inputs));
  }
}
