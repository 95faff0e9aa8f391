/** What the order of commands buys: the pin is never missing under a route, whichever
    call fails, and what is recorded afterwards covers what is really installed. */
module RouteSafety {
  import opened Sorting
  import opened Text
  import opened Routes

  function RoutesOf(t: Table): set<string> {
    (set x | x in t.lobby) + (set x | x in t.game)
  }

  function PinSet(pin: string): set<string> {
    if pin == "" then {} else {pin}
  }

  predicate PinnedIfRouted(t: Table) {
    RoutesOf(t) != {} ==> t.relayPin != ""
  }

  /** What must be assumed installed after a partial failure: one pin, all routes. */
  function Union(a: Table, b: Table): Table {
    Table(if a.relayPin == "" then b.relayPin else a.relayPin,
          Distinct(a.lobby + b.lobby), Distinct(a.game + b.game))
  }

  function Distinct(s: seq<string>): seq<string> {
    if s == [] then []
    else
      var front, x := Distinct(s[..|s| - 1]), s[|s| - 1];
      if x in front then front else front + [x]
  }

  method MergeUnique(a: seq<string>, b: seq<string>) returns (list: seq<string>)
    ensures list == Distinct(a + b)
  {
    var seen: set<string> := {};
    list := [];
    var all := a + b;
    for i := 0 to |all|
      invariant list == Distinct(all[..i]) && seen == Elements(list)
    {
      assert all[..i + 1][..i] == all[..i];
      if all[i] !in seen {
        seen := seen + {all[i]};
        list := list + [all[i]];
      }
    }
    assert all[..|all|] == all;
  }

  lemma {:induction false} DistinctMembers(s: seq<string>)
    ensures NoDuplicates(Distinct(s)) && forall x :: x in Distinct(s) <==> x in s
  {
    if s != [] {
      DistinctMembers(s[..|s| - 1]);
      assert s == s[..|s| - 1] + [s[|s| - 1]];
    }
  }

  lemma {:induction false} DistinctAppends(a: seq<string>, b: seq<string>)
    ensures Distinct(a) <= Distinct(a + b)
    decreases |b|
  {
    if b == [] {
      assert a + b == a;
    } else {
      assert (a + b)[..|a + b| - 1] == a + b[..|b| - 1];
      DistinctAppends(a, b[..|b| - 1]);
    }
  }

  lemma {:induction false} DistinctOfDistinct(s: seq<string>)
    requires NoDuplicates(s)
    ensures Distinct(s) == s
  {
    if s != [] {
      DistinctOfDistinct(s[..|s| - 1]);
      assert s == s[..|s| - 1] + [s[|s| - 1]];
    }
  }

  /** The first list comes first, as it was; the second adds nothing that it names. */
  lemma FirstListComesFirst(a: seq<string>, b: seq<string>)
    requires NoDuplicates(a)
    ensures a <= Distinct(a + b) && ((forall x :: x in b ==> x in a) ==> Distinct(a + b) == a)
  {
    DistinctAppends(a, b);
    DistinctOfDistinct(a);
    DistinctMembers(a + b);
    var d := Distinct(a + b);
    if |d| > |a| { assert d[|a|] in d && d[|a|] !in a; }
  }

  lemma UnionCoversBoth(a: Table, b: Table)
    ensures RoutesOf(Union(a, b)) == RoutesOf(a) + RoutesOf(b)
  {
    DistinctMembers(a.lobby + b.lobby);
    DistinctMembers(a.game + b.game);
  }

  // ----- effect of a run

  ghost function Added(cur: Table, want: Table): set<string> {
    (Elements(want.lobby) - Elements(cur.lobby)) + (Elements(want.game) - Elements(cur.game))
  }

  ghost function Deleted(cur: Table, want: Table): set<string> {
    (Elements(cur.lobby) - Elements(want.lobby)) + (Elements(cur.game) - Elements(want.game))
  }

  lemma {:induction false} AddsEffect(net: Net, ps: seq<string>, o: Oracle, at: nat)
    ensures var r := RunCmds(net, Each(ps, false), o, at);
      && r.net.pins == net.pins
      && r.net.tunnel <= net.tunnel + Elements(ps)
      && (r.ok ==> r.net.tunnel == net.tunnel + Elements(ps))
    decreases |ps|
  {
    if ps != [] {
      EachStep(ps, false);
      AddsEffect(Effect(net, AddTunnel(ps[0]), o(at)).0, ps[1..], o, at + 1);
      assert Elements(ps) == {ps[0]} + Elements(ps[1..]);
    }
  }

  lemma {:induction false} DelsEffect(net: Net, ps: seq<string>, o: Oracle, at: nat)
    ensures var r := RunCmds(net, Each(ps, true), o, at);
      && r.net.pins == net.pins
      && r.net.tunnel <= net.tunnel
      && (r.ok ==> r.net.tunnel == net.tunnel - Elements(ps))
    decreases |ps|
  {
    if ps != [] {
      EachStep(ps, true);
      DelsEffect(Effect(net, DelTunnel(ps[0]), o(at)).0, ps[1..], o, at + 1);
      assert Elements(ps) == {ps[0]} + Elements(ps[1..]);
    }
  }

  ghost function PinIn(cur: Table, want: Table): seq<Cmd> {
    if cur.relayPin != want.relayPin && want.relayPin != "" then [AddPin(want.relayPin)] else []
  }

  ghost function PinOut(cur: Table, want: Table): seq<Cmd> {
    if cur.relayPin != want.relayPin && cur.relayPin != "" then [DelPin(cur.relayPin)] else []
  }

  ghost function RouteCmds(adds: seq<string>, dels: seq<string>): seq<Cmd> {
    Each(adds, false) + Each(dels, true)
  }

  lemma ElementsConcat(a: seq<string>, b: seq<string>)
    ensures Elements(a + b) == Elements(a) + Elements(b)
  {
  }

  lemma SortedSetElements(s: set<string>)
    ensures Elements(SortedSet(s)) == s
  {
  }

  lemma CommandsAre(c: Change, cur: Table, want: Table)
    requires c.addPin == (if cur.relayPin != want.relayPin then want.relayPin else "")
    requires c.removePin == (if cur.relayPin != want.relayPin then cur.relayPin else "")
    ensures Commands(c) ==
      PinIn(cur, want) + (RouteCmds(c.addLobby + c.addGame, c.delGame + c.delLobby) + PinOut(cur, want))
  {
    SeqAssociative(Each(c.addLobby + c.addGame, false), Each(c.delGame + c.delLobby, true), PinOut(cur, want));
  }

  lemma SeqAssociative(a: seq<Cmd>, b: seq<Cmd>, c: seq<Cmd>)
    ensures (a + b) + c == a + (b + c)
  {
  }

  /** The commands of a plan, and the prefixes its two lists of route commands name. */
  lemma PlanCommands(cur: Table, want: Table) returns (adds: seq<string>, dels: seq<string>)
    ensures Commands(PlanOf(cur, want)) == PinIn(cur, want) + (RouteCmds(adds, dels) + PinOut(cur, want))
    ensures Elements(adds) == Added(cur, want) && Elements(dels) == Deleted(cur, want)
  {
    var c := PlanOf(cur, want);
    CommandsAre(c, cur, want);
    adds, dels := c.addLobby + c.addGame, c.delGame + c.delLobby;
    ElementsConcat(c.addLobby, c.addGame);
    ElementsConcat(c.delGame, c.delLobby);
    SortedSetElements(Elements(want.lobby) - Elements(cur.lobby));
    SortedSetElements(Elements(want.game) - Elements(cur.game));
    SortedSetElements(Elements(cur.lobby) - Elements(want.lobby));
    SortedSetElements(Elements(cur.game) - Elements(want.game));
  }

  ghost function ApplyPlan(net: Net, cur: Table, want: Table, o: Oracle, at: nat): Ran {
    RunCmds(net, Commands(PlanOf(cur, want)), o, at)
  }

  lemma RoutesEffect(net: Net, adds: seq<string>, dels: seq<string>, o: Oracle, at: nat)
    ensures var r := RunCmds(net, RouteCmds(adds, dels), o, at);
      && r.net.pins == net.pins
      && r.net.tunnel <= net.tunnel + Elements(adds)
      && (r.ok ==> r.net.tunnel == net.tunnel + Elements(adds) - Elements(dels))
  {
    RunConcat(net, Each(adds, false), Each(dels, true), o, at);
    AddsEffect(net, adds, o, at);
    var r := RunCmds(net, Each(adds, false), o, at);
    DelsEffect(r.net, dels, o, r.calls);
  }

  lemma PinInEffect(net: Net, cur: Table, want: Table, o: Oracle, at: nat)
    ensures var r := RunCmds(net, PinIn(cur, want), o, at);
      && r.net.tunnel == net.tunnel
      && if PinIn(cur, want) == [] then r.ok && r.net.pins == net.pins
         else r.ok == o(at).ok && r.net.pins == PinTried(net, want.relayPin, o(at))
  {
    if PinIn(cur, want) != [] { OneCmd(net, AddPin(want.relayPin), o, at); }
  }

  function PinTried(net: Net, pin: string, o: Outcome): set<string> {
    if o.ok then net.pins + {pin} else if o.cleared then net.pins - {pin} else net.pins
  }

  lemma PinOutEffect(net: Net, cur: Table, want: Table, o: Oracle, at: nat)
    ensures var r := RunCmds(net, PinOut(cur, want), o, at);
      && r.net.tunnel == net.tunnel
      && r.net.pins == if PinOut(cur, want) == [] || !r.ok then net.pins else net.pins - {cur.relayPin}
  {
    if PinOut(cur, want) != [] { OneCmd(net, DelPin(cur.relayPin), o, at); }
  }

  lemma OneCmd(net: Net, cmd: Cmd, o: Oracle, at: nat)
    ensures var (n, ok) := Effect(net, cmd, o(at)); RunCmds(net, [cmd], o, at) == Ran(n, ok, at + 1)
  {
    assert [cmd][1..] == [];
  }

  /** The pins after a plan was applied, however far it got. */
  ghost predicate PinsAfter(net: Net, cur: Table, want: Table, o: Oracle, at: nat, r: Ran) {
    var moved := cur.relayPin != want.relayPin;
    if r.ok then
      r.net.pins == if moved then net.pins + PinSet(want.relayPin) - PinSet(cur.relayPin) else net.pins
    else
      r.net.pins == if moved && want.relayPin != "" then PinTried(net, want.relayPin, o(at)) else net.pins
  }

  /** The state after a plan was applied, however far it got. */
  lemma ApplyEffect(net: Net, cur: Table, want: Table, o: Oracle, at: nat)
    ensures var r := ApplyPlan(net, cur, want, o, at);
      && r.net.tunnel <= net.tunnel + Added(cur, want)
      && (r.ok ==> r.net.tunnel == net.tunnel + Added(cur, want) - Deleted(cur, want))
      && PinsAfter(net, cur, want, o, at, r)
  {
    var adds, dels := PlanCommands(cur, want);
    PhasesEffect(net, cur, want, adds, dels, o, at);
  }

  lemma PhasesEffect(net: Net, cur: Table, want: Table, adds: seq<string>, dels: seq<string>, o: Oracle, at: nat)
    ensures var r := RunCmds(net, PinIn(cur, want) + (RouteCmds(adds, dels) + PinOut(cur, want)), o, at);
      && r.net.tunnel <= net.tunnel + Elements(adds)
      && (r.ok ==> r.net.tunnel == net.tunnel + Elements(adds) - Elements(dels))
      && PinsAfter(net, cur, want, o, at, r)
  {
    RunConcat(net, PinIn(cur, want), RouteCmds(adds, dels) + PinOut(cur, want), o, at);
    PinInEffect(net, cur, want, o, at);
    var r0 := RunCmds(net, PinIn(cur, want), o, at);
    if r0.ok {
      RunConcat(r0.net, RouteCmds(adds, dels), PinOut(cur, want), o, r0.calls);
      RoutesEffect(r0.net, adds, dels, o, r0.calls);
      var r1 := RunCmds(r0.net, RouteCmds(adds, dels), o, r0.calls);
      PinOutEffect(r1.net, cur, want, o, r1.calls);
    }
  }

  // ----- recorded covers actual

  /** Whatever fails, the routes really there are among those recorded afterwards. */
  lemma RecordCoversTunnel(net: Net, cur: Table, want: Table, o: Oracle, at: nat)
    requires net.tunnel <= RoutesOf(cur)
    ensures var r := ApplyPlan(net, cur, want, o, at);
      r.net.tunnel <= RoutesOf(if r.ok then want else Union(cur, want))
  {
    ApplyEffect(net, cur, want, o, at);
    UnionCoversBoth(cur, want);
  }

  /** For the pin the record is right after a failure exactly unless the tunnel was being
      moved between two pins and the new one had gone in: `union` has room for one. */
  lemma RecordCoversPinsIff(net: Net, cur: Table, want: Table, o: Oracle, at: nat)
    requires net.pins == PinSet(cur.relayPin)
    requires !ApplyPlan(net, cur, want, o, at).ok
    ensures ApplyPlan(net, cur, want, o, at).net.pins <= PinSet(Union(cur, want).relayPin) <==>
      !(cur.relayPin != "" && want.relayPin != "" && cur.relayPin != want.relayPin && o(at).ok)
  {
    ApplyEffect(net, cur, want, o, at);
    assert want.relayPin != "" ==> want.relayPin in net.pins + {want.relayPin};
  }

  // ----- success

  /** A prefix the plan deletes from one list although it is wanted on the other. */
  ghost predicate Crosses(cur: Table, want: Table) {
    exists x :: x in Deleted(cur, want) && x in RoutesOf(want)
  }

  ghost predicate HeldOrAdded(net: Net, cur: Table, want: Table) {
    RoutesOf(want) <= net.tunnel + Added(cur, want)
  }

  /** An application in which no command failed leaves exactly the wanted routes if and
      only if no prefix changes list and each wanted one is really there or added. */
  lemma SuccessReachesWantIff(net: Net, cur: Table, want: Table, o: Oracle, at: nat)
    requires net.tunnel <= RoutesOf(cur) && ApplyPlan(net, cur, want, o, at).ok
    ensures ApplyPlan(net, cur, want, o, at).net.tunnel == RoutesOf(want) <==>
      !Crosses(cur, want) && HeldOrAdded(net, cur, want)
  {
    ApplyEffect(net, cur, want, o, at);
    var t := ApplyPlan(net, cur, want, o, at).net.tunnel;
    if t == RoutesOf(want) {
      assert !Crosses(cur, want);
    }
    if !Crosses(cur, want) && HeldOrAdded(net, cur, want) {
      forall x ensures x in t <==> x in RoutesOf(want) {}
    }
  }

  /** From the very table recorded, success leaves the very table wanted. */
  lemma SuccessFromExactTable(net: Net, cur: Table, want: Table, o: Oracle, at: nat)
    requires net == Net(RoutesOf(cur), PinSet(cur.relayPin)) && !Crosses(cur, want)
    requires ApplyPlan(net, cur, want, o, at).ok
    ensures ApplyPlan(net, cur, want, o, at).net == Net(RoutesOf(want), PinSet(want.relayPin))
  {
    SuccessReachesWantIff(net, cur, want, o, at);
    ApplyEffect(net, cur, want, o, at);
    hide ApplyPlan;
  }

  /** The same prefix moved from the lobby list to the game list is lost. */
  lemma MovingBetweenListsLosesRoute(pin: string, p: string, o: Oracle, at: nat)
    requires ApplyPlan(Net({p}, PinSet(pin)), Table(pin, [p], []), Table(pin, [], [p]), o, at).ok
    ensures ApplyPlan(Net({p}, PinSet(pin)), Table(pin, [p], []), Table(pin, [], [p]), o, at).net.tunnel == {}
  {
    ApplyEffect(Net({p}, PinSet(pin)), Table(pin, [p], []), Table(pin, [], [p]), o, at);
  }

  /** After any failed move the record already names every route that was wanted, so the
      next plan towards the same goal adds none: whatever failed to go in stays out.  The
      pin is tried again exactly when the move was between two pins. */
  lemma FailedAddIsNotRetried(cur: Table, want: Table, net: Net, o: Oracle, at: nat)
    ensures var c := PlanOf(Union(cur, want), want);
      && c.addLobby == [] && c.addGame == []
      && (c.addPin != "" <==> cur.relayPin != "" && want.relayPin != "" && cur.relayPin != want.relayPin)
    ensures ApplyPlan(net, Union(cur, want), want, o, at).net.tunnel <= net.tunnel
  {
    DistinctMembers(cur.lobby + want.lobby);
    DistinctMembers(cur.game + want.game);
    assert Elements(want.lobby) - Elements(Union(cur, want).lobby) == {};
    assert Elements(want.game) - Elements(Union(cur, want).game) == {};
    ApplyEffect(net, Union(cur, want), want, o, at);
  }

  // ----- at every moment

  /** `inv` holds of every state the table passes through, mid-command ones included. */
  ghost predicate Throughout(net: Net, cmds: seq<Cmd>, o: Oracle, at: nat, inv: Net -> bool)
    decreases |cmds|
  {
    && inv(net)
    && (cmds != [] ==>
          && inv(Cleared(net, cmds[0], o(at)))
          && var (n, ok) := Effect(net, cmds[0], o(at));
             if ok then Throughout(n, cmds[1..], o, at + 1, inv) else inv(n))
  }

  lemma {:induction false} ThroughoutConcat(net: Net, a: seq<Cmd>, b: seq<Cmd>, o: Oracle, at: nat, inv: Net -> bool)
    requires Throughout(net, a, o, at, inv)
    requires var r := RunCmds(net, a, o, at); r.ok ==> Throughout(r.net, b, o, r.calls, inv)
    ensures Throughout(net, a + b, o, at, inv)
    decreases |a|
  {
    if a == [] {
      assert a + b == b;
    } else {
      assert (a + b)[1..] == a[1..] + b;
      var (n, ok) := Effect(net, a[0], o(at));
      if ok { ThroughoutConcat(n, a[1..], b, o, at + 1, inv); }
    }
  }

  /** Route commands leave the pins alone. */
  lemma {:induction false} ThroughoutRoutes(net: Net, ps: seq<string>, del: bool, bound: set<string>,
                                            o: Oracle, at: nat, inv: Net -> bool)
    requires net.tunnel <= bound && (del || Elements(ps) <= bound)
    requires forall t: set<string> :: t <= bound ==> inv(Net(t, net.pins))
    ensures Throughout(net, Each(ps, del), o, at, inv)
    decreases |ps|
  {
    assert inv(Net(net.tunnel, net.pins));
    if ps != [] {
      EachStep(ps, del);
      assert ps[0] in Elements(ps);
      var cmd := Each(ps, del)[0];
      var n := Effect(net, cmd, o(at)).0;
      var mid := Cleared(net, cmd, o(at));
      assert inv(Net(mid.tunnel, net.pins)) && inv(Net(n.tunnel, net.pins));
      assert Elements(ps[1..]) <= Elements(ps);
      ThroughoutRoutes(n, ps[1..], del, bound, o, at + 1, inv);
    }
  }

  predicate HasPin(n: Net, pin: string) {
    pin != "" && pin in n.pins
  }

  /** No route without the old or the new pin; a new route only beside the new pin; an old
      route only beside the old pin. */
  predicate PinHeld(cur: Table, want: Table, n: Net) {
    && (n.tunnel != {} ==> HasPin(n, cur.relayPin) || HasPin(n, want.relayPin))
    && (!(n.tunnel <= RoutesOf(cur)) ==> want.relayPin in n.pins)
    && (!(n.tunnel <= RoutesOf(want)) ==> cur.relayPin in n.pins)
  }

  /** While a plan is applied, including up to any failing call, the pin is always held,
      provided the recorded pin is really there when it starts. */
  lemma PinHeldThroughout(net: Net, cur: Table, want: Table, o: Oracle, at: nat)
    requires PinnedIfRouted(cur) && PinnedIfRouted(want)
    requires net.tunnel <= RoutesOf(cur) && PinSet(cur.relayPin) <= net.pins
    ensures Throughout(net, Commands(PlanOf(cur, want)), o, at, n => PinHeld(cur, want, n))
  {
    var adds, dels := PlanCommands(cur, want);
    PhasesHeld(net, cur, want, adds, dels, o, at);
  }

  lemma PhasesHeld(net: Net, cur: Table, want: Table, adds: seq<string>, dels: seq<string>, o: Oracle, at: nat)
    requires PinnedIfRouted(cur) && PinnedIfRouted(want)
    requires net.tunnel <= RoutesOf(cur) && PinSet(cur.relayPin) <= net.pins
    requires Elements(adds) == Added(cur, want) && Elements(dels) == Deleted(cur, want)
    ensures Throughout(net, PinIn(cur, want) + (RouteCmds(adds, dels) + PinOut(cur, want)), o, at,
                       n => PinHeld(cur, want, n))
  {
    var inv := n => PinHeld(cur, want, n);
    PinInEffect(net, cur, want, o, at);
    PinInHeld(net, cur, want, o, at);
    var r0 := RunCmds(net, PinIn(cur, want), o, at);
    if r0.ok {
      RoutesHeld(r0.net, cur, want, adds, dels, o, r0.calls);
      RoutesEffect(r0.net, adds, dels, o, r0.calls);
      var r1 := RunCmds(r0.net, RouteCmds(adds, dels), o, r0.calls);
      if r1.ok { PinOutHeld(r1.net, cur, want, o, r1.calls); }
      ThroughoutConcat(r0.net, RouteCmds(adds, dels), PinOut(cur, want), o, r0.calls, inv);
    }
    ThroughoutConcat(net, PinIn(cur, want), RouteCmds(adds, dels) + PinOut(cur, want), o, at, inv);
  }

  lemma PinInHeld(net: Net, cur: Table, want: Table, o: Oracle, at: nat)
    requires PinnedIfRouted(cur) && PinnedIfRouted(want)
    requires net.tunnel <= RoutesOf(cur) && PinSet(cur.relayPin) <= net.pins
    ensures Throughout(net, PinIn(cur, want), o, at, n => PinHeld(cur, want, n))
  {
    HeldWithOldPin(cur, want, net.tunnel, net.pins);
    if PinIn(cur, want) != [] {
      HeldWithOldPin(cur, want, net.tunnel, net.pins - {want.relayPin});
      HeldWithOldPin(cur, want, net.tunnel, Effect(net, AddPin(want.relayPin), o(at)).0.pins);
      assert PinIn(cur, want)[1..] == [];
    }
  }

  lemma PinOutHeld(net: Net, cur: Table, want: Table, o: Oracle, at: nat)
    requires PinnedIfRouted(want)
    requires net.tunnel <= RoutesOf(want) && PinSet(cur.relayPin) + PinSet(want.relayPin) <= net.pins
    ensures Throughout(net, PinOut(cur, want), o, at, n => PinHeld(cur, want, n))
  {
    if PinOut(cur, want) != [] { assert PinOut(cur, want)[1..] == []; }
  }

  /** With both pins in, no command on routes can break the rule. */
  lemma RoutesHeld(net: Net, cur: Table, want: Table, adds: seq<string>, dels: seq<string>, o: Oracle, at: nat)
    requires PinnedIfRouted(cur) && PinnedIfRouted(want)
    requires net.tunnel <= RoutesOf(cur) && PinSet(cur.relayPin) + PinSet(want.relayPin) <= net.pins
    requires Elements(adds) <= RoutesOf(want) && Elements(dels) <= RoutesOf(cur)
    ensures Throughout(net, RouteCmds(adds, dels), o, at, n => PinHeld(cur, want, n))
  {
    var inv := n => PinHeld(cur, want, n);
    var bound := RoutesOf(cur) + RoutesOf(want);
    forall t: set<string> | t <= bound ensures inv(Net(t, net.pins)) { HeldWithBothPins(cur, want, t, net.pins); }
    AddsEffect(net, adds, o, at);
    ThroughoutRoutes(net, adds, false, bound, o, at, inv);
    var r := RunCmds(net, Each(adds, false), o, at);
    if r.ok { ThroughoutRoutes(r.net, dels, true, bound, o, r.calls, inv); }
    ThroughoutConcat(net, Each(adds, false), Each(dels, true), o, at, inv);
  }

  lemma HeldWithOldPin(cur: Table, want: Table, t: set<string>, pins: set<string>)
    requires PinnedIfRouted(cur) && t <= RoutesOf(cur) && PinSet(cur.relayPin) <= pins
    ensures PinHeld(cur, want, Net(t, pins))
  {
    if x :| x in t { assert cur.relayPin in PinSet(cur.relayPin); }
  }

  lemma HeldWithBothPins(cur: Table, want: Table, t: set<string>, pins: set<string>)
    requires PinnedIfRouted(cur) && PinnedIfRouted(want)
    requires t <= RoutesOf(cur) + RoutesOf(want) && PinSet(cur.relayPin) + PinSet(want.relayPin) <= pins
    ensures PinHeld(cur, want, Net(t, pins))
  {
  }

  // ----- exactly when the pin is held

  /** However the calls of the plan turn out, the pin is held at every moment. */
  ghost predicate PinAlwaysHeld(net: Net, cur: Table, want: Table) {
    forall o: Oracle, at: nat :: HeldAlong(net, cur, want, o, at)
  }

  ghost predicate HeldAlong(net: Net, cur: Table, want: Table, o: Oracle, at: nat) {
    Throughout(net, Commands(PlanOf(cur, want)), o, at, n => PinHeld(cur, want, n))
  }

  /** A plan holds its pin, whichever calls fail, if and only if the recorded pin is really
      there, or there is no route yet and the plan brings its own pin or adds no route. */
  lemma PinHeldIff(net: Net, cur: Table, want: Table)
    requires PinnedIfRouted(cur) && PinnedIfRouted(want) && net.tunnel <= RoutesOf(cur)
    ensures PinAlwaysHeld(net, cur, want) <==>
      cur.relayPin in net.pins || (net.tunnel == {} && (cur.relayPin != want.relayPin || Added(cur, want) == {}))
  {
    if cur.relayPin in net.pins {
      forall o: Oracle, at: nat ensures HeldAlong(net, cur, want, o, at) { PinHeldThroughout(net, cur, want, o, at); }
    } else if net.tunnel == {} && (cur.relayPin != want.relayPin || Added(cur, want) == {}) {
      forall o: Oracle, at: nat ensures HeldAlong(net, cur, want, o, at) { HeldFromNoRoutes(net, cur, want, o, at); }
    } else {
      PinMissed(net, cur, want);
    }
  }

  /** From a table without routes, only a plan that trusts its old pin can go wrong. */
  lemma HeldFromNoRoutes(net: Net, cur: Table, want: Table, o: Oracle, at: nat)
    requires PinnedIfRouted(want) && net.tunnel == {}
    requires cur.relayPin != want.relayPin || Added(cur, want) == {}
    ensures HeldAlong(net, cur, want, o, at)
  {
    var adds, dels := PlanCommands(cur, want);
    hide PlanOf, Commands, Throughout;
    PhasesFromNoRoutes(net, cur, want, adds, dels, o, at);
  }

  lemma PhasesFromNoRoutes(net: Net, cur: Table, want: Table, adds: seq<string>, dels: seq<string>, o: Oracle, at: nat)
    requires PinnedIfRouted(want) && net.tunnel == {}
    requires Elements(adds) <= RoutesOf(want) && (cur.relayPin != want.relayPin || Elements(adds) == {})
    requires Elements(dels) <= RoutesOf(cur)
    ensures Throughout(net, PinIn(cur, want) + (RouteCmds(adds, dels) + PinOut(cur, want)), o, at,
                       n => PinHeld(cur, want, n))
  {
    var inv := n => PinHeld(cur, want, n);
    PinInEffect(net, cur, want, o, at);
    PinInFromNoRoutes(net, cur, want, o, at);
    hide Throughout;
    var r0 := RunCmds(net, PinIn(cur, want), o, at);
    if r0.ok {
      assert Elements(adds) == {} || want.relayPin in r0.net.pins;
      NewRoutesHeld(r0.net, cur, want, adds, dels, o, r0.calls);
      RoutesEffect(r0.net, adds, dels, o, r0.calls);
      var r1 := RunCmds(r0.net, RouteCmds(adds, dels), o, r0.calls);
      if r1.ok { PinOutLast(r1.net, cur, want, o, r1.calls); }
      ThroughoutConcat(r0.net, RouteCmds(adds, dels), PinOut(cur, want), o, r0.calls, inv);
    }
    ThroughoutConcat(net, PinIn(cur, want), RouteCmds(adds, dels) + PinOut(cur, want), o, at, inv);
  }

  lemma PinInFromNoRoutes(net: Net, cur: Table, want: Table, o: Oracle, at: nat)
    requires net.tunnel == {}
    ensures Throughout(net, PinIn(cur, want), o, at, n => PinHeld(cur, want, n))
  {
    if PinIn(cur, want) != [] { assert PinIn(cur, want)[1..] == []; }
  }

  lemma PinOutLast(net: Net, cur: Table, want: Table, o: Oracle, at: nat)
    requires net.tunnel <= RoutesOf(want) && (net.tunnel == {} || (want.relayPin != "" && want.relayPin in net.pins))
    ensures Throughout(net, PinOut(cur, want), o, at, n => PinHeld(cur, want, n))
  {
    if PinOut(cur, want) != [] { assert PinOut(cur, want)[1..] == []; }
  }

  lemma NewRoutesHeld(net: Net, cur: Table, want: Table, adds: seq<string>, dels: seq<string>, o: Oracle, at: nat)
    requires PinnedIfRouted(want) && net.tunnel == {}
    requires Elements(adds) == {} || want.relayPin in net.pins
    requires Elements(adds) <= RoutesOf(want)
    ensures Throughout(net, RouteCmds(adds, dels), o, at, n => PinHeld(cur, want, n))
  {
    var inv := n => PinHeld(cur, want, n);
    var bound := Elements(adds);
    forall t: set<string> | t <= bound ensures inv(Net(t, net.pins)) {}
    AddsEffect(net, adds, o, at);
    ThroughoutRoutes(net, adds, false, bound, o, at, inv);
    var r := RunCmds(net, Each(adds, false), o, at);
    if r.ok { ThroughoutRoutes(r.net, dels, true, bound, o, r.calls, inv); }
    ThroughoutConcat(net, Each(adds, false), Each(dels, true), o, at, inv);
  }

  /** The calls that go wrong: the new pin is cleared and not added, or, when no pin moves,
      every route goes in. */
  lemma PinMissed(net: Net, cur: Table, want: Table)
    requires PinnedIfRouted(cur) && PinnedIfRouted(want) && net.tunnel <= RoutesOf(cur)
    requires cur.relayPin !in net.pins
    requires net.tunnel != {} || (cur.relayPin == want.relayPin && Added(cur, want) != {})
    ensures !PinAlwaysHeld(net, cur, want)
  {
    var adds, dels := PlanCommands(cur, want);
    hide PlanOf, Commands;
    if cur.relayPin == want.relayPin {
      var o := AddsGoIn(net, cur, want, adds, Each(dels, true));
      assert PinIn(cur, want) + (RouteCmds(adds, dels) + PinOut(cur, want)) == Each(adds, false) + Each(dels, true);
      assert !HeldAlong(net, cur, want, o, 0);
    } else {
      var o := PinGoesOut(net, cur, want, RouteCmds(adds, dels) + PinOut(cur, want));
      assert !HeldAlong(net, cur, want, o, 0);
    }
  }

  lemma AddsGoIn(net: Net, cur: Table, want: Table, adds: seq<string>, rest: seq<Cmd>) returns (o: Oracle)
    requires cur.relayPin == want.relayPin && cur.relayPin !in net.pins
    requires net.tunnel + Elements(adds) != {}
    ensures !Throughout(net, Each(adds, false) + rest, o, 0, n => PinHeld(cur, want, n))
  {
    o := _ => Outcome(true, true);
    SucceedsWhenAllOk(net, Each(adds, false), o, 0);
    AddsEffect(net, adds, o, 0);
    assert !PinHeld(cur, want, RunCmds(net, Each(adds, false), o, 0).net);
    hide Throughout, PinHeld;
    if Throughout(net, Each(adds, false) + rest, o, 0, n => PinHeld(cur, want, n)) {
      ThroughoutPrefix(net, Each(adds, false), rest, o, 0, n => PinHeld(cur, want, n));
    }
  }

  lemma PinGoesOut(net: Net, cur: Table, want: Table, rest: seq<Cmd>) returns (o: Oracle)
    requires PinnedIfRouted(want) && cur.relayPin != want.relayPin && cur.relayPin !in net.pins && net.tunnel != {}
    ensures !Throughout(net, PinIn(cur, want) + rest, o, 0, n => PinHeld(cur, want, n))
  {
    o := _ => Outcome(true, false);
    if want.relayPin != "" {
      var cleared := Cleared(net, AddPin(want.relayPin), o(0));
      assert !PinHeld(cur, want, cleared);
      assert (PinIn(cur, want) + rest)[0] == AddPin(want.relayPin);
    } else {
      assert !PinHeld(cur, want, net);
    }
  }

  lemma {:induction false} SucceedsWhenAllOk(net: Net, cmds: seq<Cmd>, o: Oracle, at: nat)
    requires forall n: nat :: at <= n ==> o(n).ok
    ensures RunCmds(net, cmds, o, at).ok
    decreases |cmds|
  {
    if cmds != [] { SucceedsWhenAllOk(Effect(net, cmds[0], o(at)).0, cmds[1..], o, at + 1); }
  }

  /** What holds throughout a run of commands holds where a front part of it ends. */
  lemma {:induction false} ThroughoutPrefix(net: Net, a: seq<Cmd>, b: seq<Cmd>, o: Oracle, at: nat, inv: Net -> bool)
    requires Throughout(net, a + b, o, at, inv)
    ensures inv(RunCmds(net, a, o, at).net)
    decreases |a|
  {
    if a != [] {
      assert (a + b)[1..] == a[1..] + b;
      var (n, ok) := Effect(net, a[0], o(at));
      if ok { ThroughoutPrefix(n, a[1..], b, o, at + 1, inv); }
    }
  }

  // ----- in which order the lists are worked off

  lemma {:induction false} AddsKeep(net: Net, ps: seq<string>, o: Oracle, at: nat)
    ensures RunCmds(net, Each(ps, false), o, at).net.tunnel >= net.tunnel - Elements(ps)
    decreases |ps|
  {
    if ps != [] {
      EachStep(ps, false);
      AddsKeep(Effect(net, AddTunnel(ps[0]), o(at)).0, ps[1..], o, at + 1);
      assert Elements(ps) == {ps[0]} + Elements(ps[1..]);
    }
  }

  lemma {:induction false} DelsKeep(net: Net, ps: seq<string>, o: Oracle, at: nat)
    ensures RunCmds(net, Each(ps, true), o, at).net.tunnel >= net.tunnel - Elements(ps)
    decreases |ps|
  {
    if ps != [] {
      EachStep(ps, true);
      DelsKeep(Effect(net, DelTunnel(ps[0]), o(at)).0, ps[1..], o, at + 1);
      assert Elements(ps) == {ps[0]} + Elements(ps[1..]);
    }
  }

  lemma EachConcat(a: seq<string>, b: seq<string>, del: bool)
    ensures Each(a + b, del) == Each(a, del) + Each(b, del)
  {
  }

  /** Additions of the first list all come before any of the second. */
  lemma AddedInOrder(net: Net, first: seq<string>, second: seq<string>, o: Oracle, at: nat)
    ensures var r := RunCmds(net, Each(first + second, false), o, at);
      r.net.tunnel <= net.tunnel + Elements(first) || Elements(first) <= r.net.tunnel + Elements(second)
  {
    EachConcat(first, second, false);
    RunConcat(net, Each(first, false), Each(second, false), o, at);
    AddsEffect(net, first, o, at);
    var r := RunCmds(net, Each(first, false), o, at);
    AddsKeep(r.net, second, o, r.calls);
  }

  /** Deletions of the first list all come before any of the second. */
  lemma DeletedInOrder(net: Net, first: seq<string>, second: seq<string>, o: Oracle, at: nat)
    ensures var r := RunCmds(net, Each(first + second, true), o, at);
      r.net.tunnel >= net.tunnel - Elements(first) || Elements(first) !! r.net.tunnel
    ensures var r := RunCmds(net, Each(first + second, true), o, at);
      net.tunnel - Elements(first + second) <= r.net.tunnel <= net.tunnel
  {
    DelsKeep(net, first + second, o, at);
    DelsEffect(net, first + second, o, at);
    EachConcat(first, second, true);
    RunConcat(net, Each(first, true), Each(second, true), o, at);
    DelsKeep(net, first, o, at);
    DelsEffect(net, first, o, at);
    var r := RunCmds(net, Each(first, true), o, at);
    DelsEffect(r.net, second, o, r.calls);
  }

  /** Wherever a plan stops: no new game route goes in before all new lobby routes are, and
      no lobby route comes out before all old game routes are (a prefix that both lists name,
      or that is added and deleted in one plan, aside). */
  lemma LobbyOutlastsGame(net: Net, cur: Table, want: Table, o: Oracle, at: nat)
    ensures var r := ApplyPlan(net, cur, want, o, at);
      var (lobbyIn, gameIn) := (Elements(want.lobby) - Elements(cur.lobby), Elements(want.game) - Elements(cur.game));
      var (lobbyOut, gameOut) := (Elements(cur.lobby) - Elements(want.lobby), Elements(cur.game) - Elements(want.game));
      && (r.net.tunnel <= net.tunnel + lobbyIn || lobbyIn <= r.net.tunnel + gameIn + lobbyOut + gameOut)
      && (net.tunnel * lobbyOut - gameOut - lobbyIn - gameIn <= r.net.tunnel || gameOut !! r.net.tunnel)
  {
    var c := PlanOf(cur, want);
    SortedSetElements(Elements(want.lobby) - Elements(cur.lobby));
    SortedSetElements(Elements(want.game) - Elements(cur.game));
    SortedSetElements(Elements(cur.lobby) - Elements(want.lobby));
    SortedSetElements(Elements(cur.game) - Elements(want.game));
    CommandsAre(c, cur, want);
    hide PlanOf, Commands;
    ListsInOrder(net, cur, want, c.addLobby, c.addGame, c.delGame, c.delLobby, o, at);
  }

  lemma ListsInOrder(net: Net, cur: Table, want: Table, addLobby: seq<string>, addGame: seq<string>,
                     delGame: seq<string>, delLobby: seq<string>, o: Oracle, at: nat)
    ensures var cmds := PinIn(cur, want) + (RouteCmds(addLobby + addGame, delGame + delLobby) + PinOut(cur, want));
      var r := RunCmds(net, cmds, o, at);
      var (lobbyIn, gameIn) := (Elements(addLobby), Elements(addGame));
      var (lobbyOut, gameOut) := (Elements(delLobby), Elements(delGame));
      && (r.net.tunnel <= net.tunnel + lobbyIn || lobbyIn <= r.net.tunnel + gameIn + lobbyOut + gameOut)
      && (net.tunnel * lobbyOut - gameOut - lobbyIn - gameIn <= r.net.tunnel || gameOut !! r.net.tunnel)
  {
    var adds, dels := addLobby + addGame, delGame + delLobby;
    ElementsConcat(addLobby, addGame);
    ElementsConcat(delGame, delLobby);
    RunConcat(net, PinIn(cur, want), RouteCmds(adds, dels) + PinOut(cur, want), o, at);
    PinInEffect(net, cur, want, o, at);
    var r0 := RunCmds(net, PinIn(cur, want), o, at);
    hide RunCmds;
    if r0.ok {
      RunConcat(r0.net, RouteCmds(adds, dels), PinOut(cur, want), o, r0.calls);
      RunConcat(r0.net, Each(adds, false), Each(dels, true), o, r0.calls);
      AddedInOrder(r0.net, addLobby, addGame, o, r0.calls);
      AddsKeep(r0.net, adds, o, r0.calls);
      var r1 := RunCmds(r0.net, Each(adds, false), o, r0.calls);
      DeletedInOrder(r1.net, delGame, delLobby, o, r1.calls);
      var r2 := RunCmds(r0.net, RouteCmds(adds, dels), o, r0.calls);
      PinOutEffect(r2.net, cur, want, o, r2.calls);
    }
  }
}
