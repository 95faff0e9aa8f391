/** The routing plan (routes.Plan) and its application (winnet.Applier) to a table that
    really changes, one operating-system call at a time, any of which may fail. */
module Routes {
  import opened Sorting
  import opened Text

  /** What is, or should be, installed.  `relayPin` is "" when there is none. */
  datatype Table = Table(relayPin: string, lobby: seq<string>, game: seq<string>)

  datatype Change = Change(addPin: string, removePin: string,
                           addLobby: seq<string>, delLobby: seq<string>,
                           addGame: seq<string>, delGame: seq<string>)
  {
    predicate Empty() {
      addPin == "" && removePin == "" && addLobby == [] && delLobby == [] && addGame == [] && delGame == []
    }
  }

  const DISCONNECTED := Table("", [], [])

  function Want(relayPin: string, lobby: seq<string>, gameCIDRs: seq<string>): Table {
    Table(relayPin, SortStrings(lobby), SortStrings(gameCIDRs))
  }

  method Plan(current: Table, want: Table) returns (c: Change)
    ensures c == PlanOf(current, want)
  {
    c := Change("", "", [], [], [], []);
    if current.relayPin != want.relayPin {
      if want.relayPin != "" {
        c := c.(addPin := want.relayPin);
      }
      if current.relayPin != "" {
        c := c.(removePin := current.relayPin);
      }
    }
    var add, del := Diff(current.lobby, want.lobby);
    c := c.(addLobby := add, delLobby := del);
    add, del := Diff(current.game, want.game);
    c := c.(addGame := add, delGame := del);
  }

  method Diff(current: seq<string>, want: seq<string>) returns (add: seq<string>, del: seq<string>)
    ensures add == SortedSet(Elements(want) - Elements(current))
    ensures del == SortedSet(Elements(current) - Elements(want))
  {
    var cur := SetOf(current);
    var wnt := SetOf(want);
    add := Missing(wnt, cur);
    del := Missing(cur, wnt);
    SortedSetUnique(add, wnt - cur);
    SortedSetUnique(del, cur - wnt);
    add := SortStrings(add);
    del := SortStrings(del);
  }

  method SetOf(ss: seq<string>) returns (m: set<string>)
    ensures m == Elements(ss)
  {
    m := {};
    for i := 0 to |ss|
      invariant m == Elements(ss[..i])
    {
      m := m + {ss[i]};
      assert ss[..i + 1] == ss[..i] + [ss[i]];
    }
    assert ss[..|ss|] == ss;
  }

  /** The keys of `of` not in `other`, in the order the map happens to yield them. */
  method Missing(of: set<string>, other: set<string>) returns (list: seq<string>)
    ensures NoDuplicates(list) && forall x :: x in list <==> x in of - other
  {
    list := [];
    var rest := of;
    while rest != {}
      invariant rest <= of && NoDuplicates(list)
      invariant forall x :: x in list <==> x in of && x !in rest && x !in other
    {
      var p :| p in rest;
      rest := rest - {p};
      if p !in other {
        list := list + [p];
      }
    }
  }

  ghost function PlanOf(current: Table, want: Table): Change {
    var moved := current.relayPin != want.relayPin;
    Change(if moved then want.relayPin else "",
           if moved then current.relayPin else "",
           SortedSet(Elements(want.lobby) - Elements(current.lobby)),
           SortedSet(Elements(current.lobby) - Elements(want.lobby)),
           SortedSet(Elements(want.game) - Elements(current.game)),
           SortedSet(Elements(current.game) - Elements(want.game)))
  }

  // ----- the real table

  /** Routes through the tunnel adapter and pins on the physical one. */
  datatype Net = Net(tunnel: set<string>, pins: set<string>)

  datatype Cmd = AddPin(cidr: string) | AddTunnel(cidr: string) | DelTunnel(cidr: string) | DelPin(cidr: string)

  /** How the operating system answers one command: whether the delete an addition starts
      with took effect (its result is ignored), and whether the command itself succeeded. */
  datatype Outcome = Outcome(cleared: bool, ok: bool)

  type Oracle = nat -> Outcome

  class Applier {
    var net: Net
    var calls: nat
    const oracle: Oracle

    constructor (net: Net, oracle: Oracle)
      ensures this.net == net && this.oracle == oracle && calls == 0
    {
      this.net, this.oracle, calls := net, oracle, 0;
    }

    /** Carries out a plan, stopping at the first command that fails. */
    method Apply(c: Change) returns (ok: bool)
      modifies this
      ensures RunCmds(old(net), Commands(c), oracle, old(calls)) == Ran(net, ok, calls)
    {
      ghost var start, from := net, calls;
      ghost var pin := if c.addPin != "" then [AddPin(c.addPin)] else [];
      ghost var adds, dels := Each(c.addLobby + c.addGame, false), Each(c.delGame + c.delLobby, true);
      ghost var unpin := if c.removePin != "" then [DelPin(c.removePin)] else [];
      RunConcat(start, pin, adds + (dels + unpin), oracle, from);
      if c.addPin != "" {
        ok := Do(AddPin(c.addPin));
        if !ok { return; }
      }
      RunConcat(net, adds, dels + unpin, oracle, calls);
      ok := DoEach(c.addLobby + c.addGame, false);
      if !ok { return; }
      RunConcat(net, dels, unpin, oracle, calls);
      ok := DoEach(c.delGame + c.delLobby, true);
      if !ok { return; }
      if c.removePin != "" {
        ok := Do(DelPin(c.removePin));
      }
    }

    method DoEach(ps: seq<string>, del: bool) returns (ok: bool)
      modifies this
      ensures RunCmds(old(net), Each(ps, del), oracle, old(calls)) == Ran(net, ok, calls)
    {
      ok := true;
      for i := 0 to |ps|
        invariant ok
        invariant RunCmds(old(net), Each(ps, del), oracle, old(calls)) == RunCmds(net, Each(ps[i..], del), oracle, calls)
      {
        EachStep(ps[i..], del);
        assert ps[i..][1..] == ps[i + 1..];
        ok := Do(if del then DelTunnel(ps[i]) else AddTunnel(ps[i]));
        if !ok { return; }
      }
    }

    /** One of the four helpers: parse, clear what is in the way, act. */
    method Do(cmd: Cmd) returns (ok: bool)
      modifies this
      ensures (net, ok) == Effect(old(net), cmd, oracle(old(calls)))
      ensures calls == old(calls) + 1
    {
      var o := oracle(calls);
      calls := calls + 1;
      match cmd {
        case AddPin(p) =>
          if o.cleared { net := net.(pins := net.pins - {p}); }
          if o.ok { net := net.(pins := net.pins + {p}); }
        case AddTunnel(p) =>
          if o.cleared { net := net.(tunnel := net.tunnel - {p}); }
          if o.ok { net := net.(tunnel := net.tunnel + {p}); }
        case DelTunnel(p) =>
          if o.ok { net := net.(tunnel := net.tunnel - {p}); }
        case DelPin(p) =>
          if o.ok { net := net.(pins := net.pins - {p}); }
      }
      ok := o.ok;
    }
  }

  function Cleared(net: Net, cmd: Cmd, o: Outcome): Net {
    if !o.cleared then net
    else match cmd
      case AddPin(p) => net.(pins := net.pins - {p})
      case AddTunnel(p) => net.(tunnel := net.tunnel - {p})
      case _ => net
  }

  function Effect(net: Net, cmd: Cmd, o: Outcome): (Net, bool) {
    var n := Cleared(net, cmd, o);
    if !o.ok then (n, false)
    else match cmd
      case AddPin(p) => (n.(pins := n.pins + {p}), true)
      case AddTunnel(p) => (n.(tunnel := n.tunnel + {p}), true)
      case DelTunnel(p) => (n.(tunnel := n.tunnel - {p}), true)
      case DelPin(p) => (n.(pins := n.pins - {p}), true)
  }

  datatype Ran = Ran(net: Net, ok: bool, calls: nat)

  ghost function RunCmds(net: Net, cmds: seq<Cmd>, o: Oracle, at: nat): Ran
    decreases |cmds|
  {
    if cmds == [] then Ran(net, true, at)
    else
      var (n, ok) := Effect(net, cmds[0], o(at));
      if ok then RunCmds(n, cmds[1..], o, at + 1) else Ran(n, false, at + 1)
  }

  function Each(ps: seq<string>, del: bool): seq<Cmd> {
    seq(|ps|, i requires 0 <= i < |ps| => if del then DelTunnel(ps[i]) else AddTunnel(ps[i]))
  }

  function Commands(c: Change): seq<Cmd> {
    (if c.addPin != "" then [AddPin(c.addPin)] else []) +
    (Each(c.addLobby + c.addGame, false) +
     (Each(c.delGame + c.delLobby, true) +
      if c.removePin != "" then [DelPin(c.removePin)] else []))
  }

  lemma EachStep(ps: seq<string>, del: bool)
    requires ps != []
    ensures Each(ps, del)[0] == (if del then DelTunnel(ps[0]) else AddTunnel(ps[0]))
    ensures Each(ps, del)[1..] == Each(ps[1..], del)
  {
  }

  lemma {:induction false} RunConcat(net: Net, a: seq<Cmd>, b: seq<Cmd>, o: Oracle, at: nat)
    ensures var r := RunCmds(net, a, o, at);
      RunCmds(net, a + b, o, at) == if r.ok then RunCmds(r.net, b, o, r.calls) else r
    decreases |a|
  {
    if a == [] {
      assert a + b == b;
    } else {
      assert (a + b)[1..] == a[1..] + b;
      RunConcat(Effect(net, a[0], o(at)).0, a[1..], b, o, at + 1);
    }
  }
}
