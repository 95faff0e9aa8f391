/** The client engine: every verb from the pipe and every turn of the poll loop, acting on
    a routing table whose calls may fail anywhere. */
module Engine {
  import opened Wrappers
  import opened Text
  import opened Routes
  import opened RouteSafety
  import opened Pick
  import opened Gamewatch

  const SECOND := 1_000_000_000
  const STALE_AFTER := 150 * SECOND
  const REMEASURE_EVERY := 300 * SECOND
  const RETRY_EVERY := 30 * SECOND

  datatype Relay = Relay(id: string, publicKey: string)

  // ----- what the outside world answers

  /** A profile fetch: failed, or its usable IPv4 ranges. */
  datatype Fetch = FetchFailed | Fetched(kept: seq<string>)

  /** A measurement round at clock reading `now`, and whether the adapter and the tunnel
      accept the switch it may lead to. */
  datatype Round = Round(now: int, ms: seq<Measurement>, configured: bool, selected: bool)

  datatype ConnectIn = ConnectIn(fetch: Fetch, session: bool, defaultRoute: bool, relays: seq<Relay>,
                                 pins: map<string, string>, tunnel: bool, peersSet: bool, round: Round)

  /** A poll: the process list if it could be read, the active relay's last handshake. */
  datatype PollIn = PollIn(listed: Option<seq<string>>, handshake: Option<int>, round: Round)

  datatype Input =
    | Connect(c: ConnectIn)
    | Disconnect
    | Reload(fetch: Fetch, selected: bool)
    | Poll(p: PollIn)

  /** What answers the engine: the games watched for, the calls on the routing table, and,
      each time the adapter is closed, whether its routes went with it. */
  datatype World = World(games: seq<Game>, oracle: Oracle, closing: nat -> bool)

  /** The engine's fields, the table it acts on, and three history bits: a call has failed
      that can leave the table off its goal (`faulted`), that can leave a pin in the table
      which the record does not name (`pinLost`), or that can leave such a route, because a
      teardown failed and the adapter kept its routes (`routesLost`).  A teardown that loses
      nothing leaves an empty table and an empty record, so it clears `faulted`. */
  datatype State = State(up: bool, installed: Table, relays: seq<Relay>, pins: map<string, string>,
                         active: string, activeRTT: int, cidrs: seq<string>, lastMeasure: int, cur: GameState,
                         net: Net, calls: nat, faulted: bool, pinLost: bool, routesLost: bool)

  // ----- the engine as it is written

  class Engine {
    const os: Applier
    const watch: Watcher
    const closing: nat -> bool
    var tun: bool
    var installed: Table
    var relays: seq<Relay>
    var pins: map<string, string>
    var active: string
    var activeRTT: int
    var cidrs: seq<string>
    var lastMeasure: int
    ghost var faulted: bool
    ghost var pinLost: bool
    ghost var routesLost: bool

    constructor (os: Applier, watch: Watcher, closing: nat -> bool)
      ensures this.os == os && this.watch == watch && this.closing == closing
      ensures St() == State(false, DISCONNECTED, [], map[], "", 0, [], 0, watch.cur, os.net, os.calls, false, false, false)
    {
      this.os, this.watch, this.closing := os, watch, closing;
      tun, installed, relays, pins := false, DISCONNECTED, [], map[];
      active, activeRTT, cidrs, lastMeasure := "", 0, [], 0;
      faulted, pinLost, routesLost := false, false, false;
    }

    ghost function St(): State
      reads this, os, watch
    {
      State(tun, installed, relays, pins, active, activeRTT, cidrs, lastMeasure, watch.cur,
            os.net, os.calls, faulted, pinLost, routesLost)
    }

    ghost function W(): World {
      World(watch.games, os.oracle, closing)
    }

    /** One verb, or one poll. */
    method Handle(i: Input)
      modifies this, os, watch
      ensures St() == Step(W(), old(St()), i)
    {
      match i {
        case Connect(c) =>
          var ok := DoConnect(c);
          if !ok {
            Teardown();
          }
        case Disconnect =>
          Teardown();
        case Reload(fetch, selected) =>
          ReloadProfile(fetch, selected);
        case Poll(p) =>
          DoPoll(p);
      }
    }

    method DoConnect(c: ConnectIn) returns (ok: bool)
      modifies this, os
      ensures (St(), ok) == Connected(W(), old(St()), c)
    {
      if tun {
        return true;
      }
      ok := FetchProfile(c.fetch);
      if !ok { return; }
      if !c.session || !c.defaultRoute || c.relays == [] || !c.tunnel {
        return false;
      }
      tun, relays, pins := true, c.relays, c.pins;
      if !c.peersSet {
        return false;
      }
      lastMeasure := c.round.now;
      var chosen := Best(c.round.ms);
      BestMeans(c.round.ms, chosen);
      if chosen.Err? {
        return false;
      }
      var rtt := RttOf(chosen.value, chosen.value.primary);
      ok := Activate(chosen.value.primary, rtt, c.round);
    }

    method Activate(relayID: string, rtt: int, round: Round) returns (ok: bool)
      modifies this, os
      ensures (St(), ok) == Activated(W(), old(St()), relayID, rtt, round)
    {
      var found := HasRelay(relayID);
      if !found { return false; }
      if !round.configured { return false; }
      if !round.selected { return false; }
      active, activeRTT := relayID, rtt;
      ok := ApplyRoutes();
    }

    method HasRelay(id: string) returns (found: bool)
      ensures found <==> OnOffer(relays, id)
    {
      for i := 0 to |relays|
        invariant forall k :: 0 <= k < i ==> relays[k].id != id
      {
        if relays[i].id == id { return true; }
      }
      return false;
    }

    method ApplyRoutes() returns (ok: bool)
      modifies this, os
      ensures (St(), ok) == Applied(W(), old(St()))
    {
      var want := DISCONNECTED;
      if tun && active != "" {
        var gameCIDRs := [];
        if watch.cur.Running() {
          gameCIDRs := cidrs;
        }
        want := Want(if active in pins then pins[active] else "", [], gameCIDRs);
      }
      ok := MoveTo(want);
    }

    method MoveTo(want: Table) returns (ok: bool)
      modifies this`installed, this`faulted, this`pinLost, os
      ensures (St(), ok) == Moved(W(), old(St()), want)
    {
      hide PlanOf, ApplyPlan, LosesPin;
      var change := Plan(installed, want);
      if change.Empty() {
        return true;
      }
      pinLost := pinLost || LosesPin(W(), St(), want);
      ok := CarryOut(change, want);
      if !ok {
        // Unknown state: record the superset.
        faulted := true;
        var lobby := MergeUnique(installed.lobby, want.lobby);
        var game := MergeUnique(installed.game, want.game);
        installed := Table(if installed.relayPin == "" then want.relayPin else installed.relayPin, lobby, game);
        return;
      }
      installed := want;
    }

    method DoPoll(p: PollIn)
      modifies this, os, watch
      ensures St() == Polled(W(), old(St()), p)
    {
      if p.listed.None? {
        return;
      }
      var state, changed := watch.Poll(p.listed.value);
      if !tun {
        return;
      }
      if !changed {
        CheckRelay(p);
        return;
      }
      var ok := ApplyRoutes();
    }

    method CheckRelay(p: PollIn)
      modifies this, os
      ensures St() == Checked(W(), old(St()), p)
    {
      var now := p.round.now;
      if active == "" {
        if now - lastMeasure > RETRY_EVERY {
          Remeasure(true, p.round);
        }
        return;
      }
      var found := HasRelay(active);
      if !found { return; }
      if p.handshake.None? || now - p.handshake.value > STALE_AFTER {
        Remeasure(true, p.round);
        return;
      }
      if !watch.cur.Running() && now - lastMeasure > REMEASURE_EVERY {
        Remeasure(false, p.round);
      }
    }

    method Remeasure(force: bool, round: Round)
      modifies this, os
      ensures St() == Remeasured(W(), old(St()), force, round)
    {
      hide Activated;
      hide StoodDown;
      lastMeasure := round.now;
      var chosen := Best(round.ms);
      BestMeans(round.ms, chosen);
      if chosen.Err? {
        if active == "" {
          return;
        }
        StandDown();
        return;
      }
      var primary := chosen.value.primary;
      var rtt := RttOf(chosen.value, primary);
      if primary == active {
        activeRTT := rtt;
        return;
      }
      var current := activeRTT;
      if force {
        current := 0;
      }
      if !WorthSwitching(current, rtt, DEFAULT_SWITCH_MARGIN) {
        return;
      }
      var ok := Activate(primary, rtt, round);
      if !ok {
        // Half-switched: back to the ordinary path.
        StandDown();
      }
    }

    method StandDown()
      modifies this, os
      ensures St() == StoodDown(W(), old(St()))
    {
      active, activeRTT := "", 0;
      var ok := ApplyRoutes();
    }

    method Teardown()
      modifies this, os
      ensures St() == TornDown(W(), old(St()))
    {
      hide Emptied;
      if tun {
        Empty();
      }
      tun, installed := false, DISCONNECTED;
      relays, pins := [], map[];
      active, activeRTT := "", 0;
    }

    method Empty()
      modifies this`faulted, this`pinLost, this`routesLost, os
      ensures St() == Emptied(W(), old(St()))
    {
      hide Unrouted;
      var ok := RemoveRoutes();
      CloseAdapter(ok);
      faulted := pinLost || routesLost;
    }

    method RemoveRoutes() returns (ok: bool)
      modifies this`pinLost, os
      ensures (St(), ok) == Unrouted(W(), old(St()))
    {
      hide PlanOf, ApplyPlan;
      var change := Plan(installed, DISCONNECTED);
      ok := CarryOut(change, DISCONNECTED);
      pinLost := pinLost || (!ok && installed.relayPin != "");
    }

    /** Closing the tunnel: the adapter goes, with or without the routes through it. */
    method CloseAdapter(removed: bool)
      modifies this`routesLost, os
      ensures St() == Closed(W(), old(St()), removed)
    {
      var taken := closing(os.calls);
      os.calls := os.calls + 1;
      if taken { os.net := os.net.(tunnel := {}); }
      routesLost := routesLost || !(removed || taken);
    }

    method CarryOut(change: Change, ghost want: Table) returns (ok: bool)
      requires change == PlanOf(installed, want)
      modifies os
      ensures Ran(os.net, ok, os.calls) == ApplyPlan(old(os.net), installed, want, os.oracle, old(os.calls))
    {
      hide PlanOf, Commands;
      ok := os.Apply(change);
    }

    method FetchProfile(fetch: Fetch) returns (ok: bool)
      modifies this
      ensures (St(), ok) == Refreshed(old(St()), fetch)
    {
      match fetch {
        case FetchFailed => return |cidrs| > 0;
        case Fetched(kept) =>
          if |kept| == 0 {
            return false;
          }
          cidrs := kept;
          return true;
      }
    }

    method ReloadProfile(fetch: Fetch, selected: bool)
      modifies this, os
      ensures St() == Reloaded(W(), old(St()), fetch, selected)
    {
      var ok := FetchProfile(fetch);
      if !ok { return; }
      if !tun || active == "" { return; }
      if !selected {
        faulted := true;
        return;
      }
      ok := ApplyRoutes();
    }

    /** Any run of verbs and polls. */
    method RunAll(inputs: seq<Input>)
      modifies this, os, watch
      ensures St() == Run(W(), old(St()), inputs)
    {
      for n := 0 to |inputs|
        invariant St() == Run(W(), old(St()), inputs[..n])
      {
        assert inputs[..n + 1][..n] == inputs[..n];
        Handle(inputs[n]);
      }
      assert inputs[..|inputs|] == inputs;
    }
  }

  lemma BestMeans(ms: seq<Measurement>, r: Result<Choice, Pick.Error>)
    requires r.Err? <==> Answered(ms) == []
    requires r.Ok? ==> IsBest(ms, r.value)
    ensures r.Err? <==> Fastest(ms).None?
    ensures r.Ok? ==>
      Fastest(ms).value.relayID == r.value.primary &&
      Fastest(ms).value.rtt == RankedRtt(r.value.ranked, r.value.primary)
  {
    FastestIsLeast(ms);
    if r.Ok? { PrimaryIsFastest(ms, r.value); }
  }

  // ----- the engine as a transition function

  predicate OnOffer(relays: seq<Relay>, id: string) {
    exists k :: 0 <= k < |relays| && relays[k].id == id
  }

  /** The table the situation calls for: the active relay's pin, and the game ranges
      exactly while a game runs; nothing when there is no tunnel or no relay. */
  ghost function Goal(s: State): Table {
    if s.up && s.active != "" then
      Want(if s.active in s.pins then s.pins[s.active] else "", [], if s.cur.Running() then s.cidrs else [])
    else DISCONNECTED
  }

  ghost predicate LosesPin(w: World, s: State, want: Table) {
    && !ApplyPlan(s.net, s.installed, want, w.oracle, s.calls).ok
    && s.installed.relayPin != "" && want.relayPin != "" && s.installed.relayPin != want.relayPin
    && w.oracle(s.calls).ok
  }

  ghost function Applied(w: World, s: State): (State, bool) {
    Moved(w, s, Goal(s))
  }

  ghost function Moved(w: World, s: State, want: Table): (State, bool) {
    if PlanOf(s.installed, want).Empty() then (s, true)
    else
      var r := ApplyPlan(s.net, s.installed, want, w.oracle, s.calls);
      (s.(net := r.net, calls := r.calls,
          installed := if r.ok then want else Union(s.installed, want),
          faulted := s.faulted || !r.ok,
          pinLost := s.pinLost || LosesPin(w, s, want)),
       r.ok)
  }

  ghost function Activated(w: World, s: State, relayID: string, rtt: int, round: Round): (State, bool) {
    if !OnOffer(s.relays, relayID) || !round.configured || !round.selected then (s, false)
    else Applied(w, s.(active := relayID, activeRTT := rtt))
  }

  ghost function Refreshed(s: State, fetch: Fetch): (State, bool) {
    match fetch
    case FetchFailed => (s, |s.cidrs| > 0)
    case Fetched(kept) => if |kept| == 0 then (s, false) else (s.(cidrs := kept), true)
  }

  ghost function Connected(w: World, s: State, c: ConnectIn): (State, bool) {
    if s.up then (s, true)
    else
      var (s1, ok) := Refreshed(s, c.fetch);
      if !ok || !c.session || !c.defaultRoute || c.relays == [] || !c.tunnel then (s1, false)
      else
        var s2 := s1.(up := true, relays := c.relays, pins := c.pins);
        if !c.peersSet then (s2, false)
        else
          var s3 := s2.(lastMeasure := c.round.now);
          match Fastest(c.round.ms)
          case None => (s3, false)
          case Some(m) => Activated(w, s3, m.relayID, m.rtt, c.round)
  }

  ghost function StoodDown(w: World, s: State): State {
    Applied(w, s.(active := "", activeRTT := 0)).0
  }

  ghost function Remeasured(w: World, s: State, force: bool, round: Round): State {
    var s1 := s.(lastMeasure := round.now);
    match Fastest(round.ms)
    case None => if s.active == "" then s1 else StoodDown(w, s1)
    case Some(m) =>
      if m.relayID == s.active then s1.(activeRTT := m.rtt)
      else if !WorthSwitching(if force then 0 else s.activeRTT, m.rtt, DEFAULT_SWITCH_MARGIN) then s1
      else
        var (s2, ok) := Activated(w, s1, m.relayID, m.rtt, round);
        if ok then s2 else StoodDown(w, s2)
  }

  predicate Fresh(p: PollIn) {
    p.handshake.Some? && p.round.now - p.handshake.value <= STALE_AFTER
  }

  ghost function Checked(w: World, s: State, p: PollIn): State {
    if s.active == "" then
      if p.round.now - s.lastMeasure > RETRY_EVERY then Remeasured(w, s, true, p.round) else s
    else if !OnOffer(s.relays, s.active) then s
    else if !Fresh(p) then Remeasured(w, s, true, p.round)
    else if !s.cur.Running() && p.round.now - s.lastMeasure > REMEASURE_EVERY then Remeasured(w, s, false, p.round)
    else s
  }

  ghost function Seen(w: World, names: seq<string>): GameState {
    MatchOf(w.games, Names(names))
  }

  ghost function Polled(w: World, s: State, p: PollIn): State {
    if p.listed.None? then s
    else
      var s1 := s.(cur := Seen(w, p.listed.value));
      if !s.up then s1
      else if s1.cur == s.cur then Checked(w, s1, p)
      else Applied(w, s1).0
  }

  ghost function Reloaded(w: World, s: State, fetch: Fetch, selected: bool): State {
    var (s1, ok) := Refreshed(s, fetch);
    if !ok || !s.up || s.active == "" then s1
    else if !selected then s1.(faulted := true)
    else Applied(w, s1).0
  }

  /** The plan to nothing applied, however far it gets. */
  ghost function Unrouted(w: World, s: State): (State, bool) {
    var r := ApplyPlan(s.net, s.installed, Goal(s.(up := false)), w.oracle, s.calls);
    (s.(net := r.net, calls := r.calls, pinLost := s.pinLost || (!r.ok && s.installed.relayPin != "")), r.ok)
  }

  /** The adapter closed, after a plan that `removed` every recorded route or did not. */
  ghost function Closed(w: World, s: State, removed: bool): State {
    var taken := w.closing(s.calls);
    s.(net := if taken then s.net.(tunnel := {}) else s.net, calls := s.calls + 1,
       routesLost := s.routesLost || !(removed || taken))
  }

  ghost function Emptied(w: World, s: State): State {
    var (t, ok) := Unrouted(w, s);
    var u := Closed(w, t, ok);
    u.(faulted := u.pinLost || u.routesLost)
  }

  ghost function TornDown(w: World, s: State): State {
    (if s.up then Emptied(w, s) else s)
    .(up := false, installed := DISCONNECTED, relays := [], pins := map[], active := "", activeRTT := 0)
  }

  ghost function Step(w: World, s: State, i: Input): State {
    match i
    case Connect(c) => var (s1, ok) := Connected(w, s, c); if ok then s1 else TornDown(w, s1)
    case Disconnect => TornDown(w, s)
    case Reload(fetch, selected) => Reloaded(w, s, fetch, selected)
    case Poll(p) => Polled(w, s, p)
  }

  ghost function Run(w: World, s: State, inputs: seq<Input>): State {
    if inputs == [] then s else Step(w, Run(w, s, inputs[..|inputs| - 1]), inputs[|inputs| - 1])
  }
}
