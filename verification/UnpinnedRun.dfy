/** A run of the engine that ends with a game's route in the table and no pin for the relay
    that carries it: what `PinHeldInEveryRunIff` excludes really happens. */
module UnpinnedRun {
  import opened Wrappers
  import opened Sorting
  import opened Text
  import opened Routes
  import opened RouteSafety
  import opened Pick
  import opened Gamewatch
  import opened Engine
  import opened EngineRuns

  /** One relay with its pin and a measurement of it, one range, the processes seen without
      and with a game, and a clock reading. */
  datatype Scene = Scene(relay: Relay, pin: string, range: string, m: Measurement,
                         quiet: seq<string>, busy: seq<string>, start: int)
  {
    predicate Valid() {
      relay.id != "" && pin != "" && m.relayID == relay.id && m.Answered()
    }

    /** The service connects; the relay falls silent; a retry; a game starts; a retry. */
    function Inputs(): seq<Input> {
      [Connect(ConnectIn(Fetched([range]), true, true, [relay], map[relay.id := pin], true, true, Round(start, [m], true, true))),
       Poll(PollIn(Some(quiet), None, Round(start, [], true, true))),
       Poll(PollIn(Some(quiet), None, Round(start + 2 * RETRY_EVERY, [m], true, true))),
       Poll(PollIn(Some(busy), None, Round(start, [], true, true))),
       Poll(PollIn(Some(busy), None, Round(start + 4 * RETRY_EVERY, [m], true, true)))]
    }
  }

  /** Connected on the scene's terms, with that relay in use or with none. */
  ghost predicate Serves(c: Scene, s: State, active: bool) {
    && s.up && s.relays == [c.relay] && s.pins == map[c.relay.id := c.pin] && s.cidrs == [c.range]
    && s.active == (if active then c.relay.id else "") && !s.pinLost
  }

  function PinOnly(pin: string): Table {
    Table(pin, [], [])
  }

  /** Installing a pin on its own, or removing it again, whether or not the call succeeds. */
  lemma PinMovedAlone(w: World, s: State, a: string, b: string)
    requires s.installed == PinOnly(a) && a != b && (a == "" || b == "")
    ensures var o := w.oracle(s.calls);
      var pins := if b != "" then PinTried(s.net, b, o) else if o.ok then s.net.pins - {a} else s.net.pins;
      Moved(w, s, PinOnly(b)) ==
        (s.(net := s.net.(pins := pins), calls := s.calls + 1, faulted := s.faulted || !o.ok,
            installed := PinOnly(if o.ok || a == "" then b else a)), o.ok)
  {
    PinOnlyCommands(a, b);
    UnionOfPins(a, b);
    var cmd := if b != "" then AddPin(b) else DelPin(a);
    OneCmd(s.net, cmd, w.oracle, s.calls);
    assert Commands(PlanOf(PinOnly(a), PinOnly(b))) == [cmd];
    assert s.net.pins - {b} + {b} == s.net.pins + {b};
    hide PlanOf, Commands, RunCmds, Union;
  }

  lemma PinOnlyCommands(a: string, b: string)
    requires a != b
    ensures Commands(PlanOf(PinOnly(a), PinOnly(b))) ==
      (if b != "" then [AddPin(b)] else []) + if a != "" then [DelPin(a)] else []
    ensures !PlanOf(PinOnly(a), PinOnly(b)).Empty()
  {
    assert Elements<string>([]) - Elements([]) == {};
  }

  lemma UnionOfPins(a: string, b: string)
    ensures Union(PinOnly(a), PinOnly(b)) == PinOnly(if a == "" then b else a)
  {
    assert PinOnly(a).lobby + PinOnly(b).lobby == [];
  }

  lemma GoalOfScene(c: Scene, s: State, active: bool)
    requires c.Valid() && Serves(c, s, active)
    ensures Goal(s) == if !active then PinOnly("") else if s.cur.Running() then Table(c.pin, [], [c.range]) else PinOnly(c.pin)
  {
    assert SortStrings([]) == [];
    assert SortStrings([c.range]) == [c.range] by {
      var r := SortStrings([c.range]);
      SameMembers(r, [c.range]);
      assert r[0] in r;
    }
  }

  /** With the scene's measurement the engine tries its relay; with none, it stands down. */
  lemma OneAnswers(c: Scene)
    requires c.Valid()
    ensures Fastest([c.m]) == Some(c.m) && Fastest([]) == None
    ensures OnOffer([c.relay], c.relay.id)
  {
    assert [c.m][..0] == [];
    assert [c.relay][0].id == c.relay.id;
  }

  lemma Connects(w: World, s: State, c: Scene)
    requires Initial(s) && c.Valid() && !s.cur.Running() && w.oracle(s.calls).ok
    ensures var t := Step(w, s, c.Inputs()[0]);
      && Serves(c, t, true) && t.cur == s.cur && t.calls == s.calls + 1 && t.lastMeasure == c.start
      && t.installed == PinOnly(c.pin) && t.net == Net({}, {c.pin})
  {
    OneAnswers(c);
    var i := c.Inputs()[0].c;
    var t := s.(cidrs := [c.range], up := true, relays := i.relays, pins := i.pins, lastMeasure := c.start,
                active := c.relay.id, activeRTT := c.m.rtt);
    GoalOfScene(c, t, true);
    PinMovedAlone(w, t, "", c.pin);
    hide Moved, Goal, Fastest, TornDown;
  }

  lemma FallsSilent(w: World, s: State, c: Scene)
    requires c.Valid() && Serves(c, s, true) && s.installed == PinOnly(c.pin) && s.net == Net({}, {c.pin})
    requires Seen(w, c.quiet) == s.cur && !s.cur.Running() && w.oracle(s.calls).ok
    ensures var t := Step(w, s, c.Inputs()[1]);
      && Serves(c, t, false) && t.cur == s.cur && t.calls == s.calls + 1 && t.lastMeasure == c.start
      && t.installed == PinOnly("") && t.net == Net({}, {})
  {
    OneAnswers(c);
    var t := s.(lastMeasure := c.start, active := "", activeRTT := 0);
    GoalOfScene(c, t, false);
    PinMovedAlone(w, t, c.pin, "");
    assert s.(cur := s.cur) == s;
    hide Moved, Goal, Fastest, Seen;
  }

  lemma RetryFails(w: World, s: State, c: Scene)
    requires c.Valid() && Serves(c, s, false) && s.installed == PinOnly("") && s.net == Net({}, {})
    requires Seen(w, c.quiet) == s.cur && !s.cur.Running() && s.lastMeasure == c.start
    requires !w.oracle(s.calls).ok && !w.oracle(s.calls + 1).ok
    ensures var t := Step(w, s, c.Inputs()[2]);
      && Serves(c, t, false) && t.cur == s.cur && t.calls == s.calls + 2 && t.lastMeasure == c.start + 2 * RETRY_EVERY
      && t.installed == PinOnly(c.pin) && t.net == Net({}, {})
  {
    OneAnswers(c);
    var t := s.(lastMeasure := c.start + 2 * RETRY_EVERY, active := c.relay.id, activeRTT := c.m.rtt);
    GoalOfScene(c, t, true);
    PinMovedAlone(w, t, "", c.pin);
    var u := Moved(w, t, PinOnly(c.pin)).0.(active := "", activeRTT := 0);
    GoalOfScene(c, u, false);
    PinMovedAlone(w, u, c.pin, "");
    assert s.(cur := s.cur) == s;
    hide Moved, Goal, Fastest, Seen;
  }

  lemma GameStarts(w: World, s: State, c: Scene)
    requires c.Valid() && Serves(c, s, false) && s.installed == PinOnly(c.pin) && s.net == Net({}, {})
    requires Seen(w, c.busy).Running() && !s.cur.Running() && !w.oracle(s.calls).ok
    ensures var t := Step(w, s, c.Inputs()[3]);
      && Serves(c, t, false) && t.cur == Seen(w, c.busy) && t.calls == s.calls + 1 && t.lastMeasure == s.lastMeasure
      && t.installed == PinOnly(c.pin) && t.net == Net({}, {})
  {
    var t := s.(cur := Seen(w, c.busy));
    GoalOfScene(c, t, false);
    PinMovedAlone(w, t, c.pin, "");
    hide Moved, Goal, Seen;
  }

  /** The record says the pin is in, so all that is left to add is the route. */
  lemma RouteGoesIn(w: World, s: State, c: Scene)
    requires c.Valid() && s.installed == PinOnly(c.pin) && s.net == Net({}, {}) && w.oracle(s.calls).ok
    ensures var want := Table(c.pin, [], [c.range]);
      Moved(w, s, want) == (s.(net := Net({c.range}, {}), calls := s.calls + 1, installed := want), true)
  {
    OneRoutePlan(c.pin, c.range);
    OneCmd(s.net, AddTunnel(c.range), w.oracle, s.calls);
    assert {} - {c.range} + {c.range} == {c.range} == {} + {c.range};
    hide PlanOf, Commands, RunCmds, Union;
  }

  lemma OneRoutePlan(pin: string, range: string)
    ensures var c := PlanOf(PinOnly(pin), Table(pin, [], [range]));
      !c.Empty() && Commands(c) == [AddTunnel(range)]
  {
    var c := PlanOf(PinOnly(pin), Table(pin, [], [range]));
    assert Elements([range]) - Elements([]) == {range} && Elements<string>([]) - Elements([range]) == {};
    SortedSetUnique([range], {range});
    assert c == Change("", "", [], [], [range], []);
    hide SortedSet;
    assert c.addLobby + c.addGame == [range] && c.delGame + c.delLobby == [];
    assert Each([range], false) == [AddTunnel(range)];
  }

  lemma RetrySucceeds(w: World, s: State, c: Scene)
    requires c.Valid() && Serves(c, s, false) && s.installed == PinOnly(c.pin) && s.net == Net({}, {})
    requires Seen(w, c.busy) == s.cur && s.cur.Running() && s.lastMeasure == c.start + 2 * RETRY_EVERY
    requires w.oracle(s.calls).ok
    ensures var t := Step(w, s, c.Inputs()[4]);
      && Serves(c, t, true) && t.cur == s.cur
      && t.installed == Table(c.pin, [], [c.range]) && t.net == Net({c.range}, {})
  {
    hide Moved, Goal, Fastest, Seen;
    OneAnswers(c);
    var t := s.(lastMeasure := c.start + 4 * RETRY_EVERY, active := c.relay.id, activeRTT := c.m.rtt);
    GoalOfScene(c, t, true);
    RouteGoesIn(w, t, c);
    assert s.(cur := s.cur) == s;
  }

  /** The retry's pin fails, and so do two attempts to remove it; then the game's route goes
      in beside no pin at all, and the engine takes table and record for its goal. */
  lemma FailuresLeaveRouteUnpinned(w: World, s: State, c: Scene)
    requires Initial(s) && c.Valid()
    requires Seen(w, c.quiet) == s.cur && !s.cur.Running() && Seen(w, c.busy).Running()
    requires forall at: nat :: s.calls <= at < s.calls + 6 ==> (w.oracle(at).ok <==> at - s.calls !in {2, 3, 4})
    ensures ValidInputs(c.Inputs())
    ensures var t := Run(w, s, c.Inputs());
      && t.active == c.relay.id && Goal(t) == t.installed == Table(c.pin, [], [c.range])
      && t.net == Net({c.range}, {})
  {
    var i := c.Inputs();
    hide Step, Goal;
    RunStep(w, s, i, 0);
    Connects(w, s, c);
    RunStep(w, s, i, 1);
    FallsSilent(w, Run(w, s, i[..1]), c);
    RunStep(w, s, i, 2);
    RetryFails(w, Run(w, s, i[..2]), c);
    RunStep(w, s, i, 3);
    GameStarts(w, Run(w, s, i[..3]), c);
    RunStep(w, s, i, 4);
    RetrySucceeds(w, Run(w, s, i[..4]), c);
    assert i[..5] == i;
    GoalOfScene(c, Run(w, s, i), true);
  }

  lemma RunStep(w: World, s: State, inputs: seq<Input>, n: nat)
    requires n < |inputs|
    ensures Run(w, s, inputs[..n + 1]) == Step(w, if n == 0 then s else Run(w, s, inputs[..n]), inputs[n])
  {
    hide Step;
    assert inputs[..n + 1][..n] == inputs[..n];
  }
}
