/** One reconcile pass of a relay, and what a pass makes of the store's answer. */
module Agent {
  import opened Wrappers
  import opened Sorting
  import opened Api
  import Wgsync
  import Ipset
  import Firewall

  datatype SyncResponse = SyncResponse(peers: seq<Peer>, gameCIDRs: seq<string>, pollSecs: int)

  /** What the outside world answers in one pass: the control plane, and whether the
      device can be listed and configured. */
  datatype PassIn = PassIn(resp: Option<SyncResponse>, listed: bool, configured: bool)

  class RelayAgent {
    const dev: Wgsync.Device
    const sets: Ipset.Syncer
    const kernel: Ipset.Kernel
    const iptables: Firewall.Iptables
    const st: Firewall.RelayState

    constructor (dev: Wgsync.Device, sets: Ipset.Syncer, kernel: Ipset.Kernel,
                 iptables: Firewall.Iptables, st: Firewall.RelayState)
      ensures this.dev == dev && this.sets == sets && this.kernel == kernel && this.iptables == iptables && this.st == st
    {
      this.dev, this.sets, this.kernel, this.iptables, this.st := dev, sets, kernel, iptables, st;
    }

    ghost function St(): State
      reads dev, sets, kernel, iptables
    {
      State(dev.peers, sets.St(kernel), iptables.tables, iptables.calls)
    }

    /** Reports nothing and touches nothing when the control plane does not answer;
        otherwise reconciles peers, allowlist and firewall independently. */
    method RunOnceWithInterval(i: PassIn, parses: string -> bool) returns (interval: int, ok: bool)
      modifies dev, sets, kernel, iptables
      ensures Passed(old(St()), i, st, parses, iptables.faults, St(), ok)
      ensures interval == if i.resp.Some? then i.resp.value.pollSecs else 0
    {
      if i.resp.None? {
        return 0, false;
      }
      var resp := i.resp.value;
      ok := true;
      var valid := [];
      for n := 0 to |resp.peers|
        invariant valid == ValidPeers(resp.peers[..n])
        invariant St() == old(St()) && ok
      {
        assert resp.peers[..n + 1][..n] == resp.peers[..n];
        if Valid(resp.peers[n]) {
          valid := valid + [resp.peers[n]];
        }
      }
      assert resp.peers[..|resp.peers|] == resp.peers;
      var current := dev.List();
      if !i.listed {
        ok := false;
      } else {
        var change := Wgsync.Diff(current, valid);
        if !change.Empty() {
          if i.configured {
            dev.Apply(change);
          } else {
            ok := false;
          }
        } else {
          EmptyChange(dev.peers, change);
        }
      }
      assert PeersPassed(old(dev.peers), i, valid, dev.peers, ok);
      ghost var okPeers := ok;
      var synced := sets.Sync(kernel, resp.gameCIDRs, parses);
      var asserted := iptables.ReassertFirewall(st);
      ok := ok && synced && asserted;
      interval := resp.pollSecs;
      assert FirewallPassed(old(St()), st, iptables.faults, St(), asserted);
      assert SetsPassed(old(St()), Ipset.NormaliseOf(resp.gameCIDRs, parses), St(), synced);
    }
  }

  datatype State = State(peers: Wgsync.Peers, sync: Ipset.SyncState, tables: Firewall.Tables, calls: nat)

  function ValidPeers(ps: seq<Peer>): seq<Peer> {
    if ps == [] then [] else ValidPeers(ps[..|ps| - 1]) + if Valid(ps[|ps| - 1]) then [ps[|ps| - 1]] else []
  }

  lemma EmptyChange(m: Wgsync.Peers, c: Wgsync.Change)
    requires c.Empty()
    ensures Wgsync.Applied(m, c) == m
  {
  }

  // ----- what a pass does

  ghost predicate PeersPassed(m: Wgsync.Peers, i: PassIn, valid: seq<Peer>, t: Wgsync.Peers, ok: bool) {
    exists current :: Wgsync.Listing(current, m) &&
      var c := Wgsync.DiffOf(current, valid);
      if i.listed && (i.configured || c.Empty()) then t == Wgsync.Applied(m, c) && ok else t == m && !ok
  }

  ghost predicate SetsPassed(s: State, list: seq<string>, t: State, ok: bool) {
    exists o :: (t.sync, ok) == Ipset.Synced(s.sync, list, o)
  }

  ghost predicate FirewallPassed(s: State, st: Firewall.RelayState, faults: nat -> bool, t: State, ok: bool) {
    Firewall.Reasserted(s.tables, Firewall.FirewallRules(st), faults, s.calls) == Firewall.Ran(t.tables, ok, t.calls)
  }

  /** Without an answer nothing changes.  With one, each of the three parts does what it
      does whatever becomes of the others, and the pass succeeds when all three do. */
  ghost predicate Passed(s: State, i: PassIn, st: Firewall.RelayState, parses: string -> bool, faults: nat -> bool,
                         t: State, ok: bool)
  {
    if i.resp.None? then t == s && !ok
    else
      var resp := i.resp.value;
      exists a, b, c :: ok == (a && b && c) &&
        PeersPassed(s.peers, i, ValidPeers(resp.peers), t.peers, a) &&
        SetsPassed(s, Ipset.NormaliseOf(resp.gameCIDRs, parses), t, b) &&
        FirewallPassed(s, st, faults, t, c)
  }

  // ----- the theorems

  lemma {:induction false} ValidPeersMembers(ps: seq<Peer>)
    ensures forall p :: p in ValidPeers(ps) <==> p in ps && Valid(p)
    ensures Wgsync.DistinctKeys(ps) ==> Wgsync.DistinctKeys(ValidPeers(ps))
  {
    if ps != [] {
      var front, last := ps[..|ps| - 1], ps[|ps| - 1];
      ValidPeersMembers(front);
      assert ps == front + [last];
      if Wgsync.DistinctKeys(ps) {
        forall p | p in front ensures p.publicKey != last.publicKey {
          var j :| 0 <= j < |front| && front[j] == p;
          assert ps[j] == p && ps[|ps| - 1] == last;
        }
        forall j | 0 <= j < |ValidPeers(front)| ensures ValidPeers(front)[j].publicKey != last.publicKey {
          assert ValidPeers(front)[j] in ValidPeers(front);
        }
      }
    }
  }

  /** A pass that succeeds, on an answer without repeated keys and with a syncer whose
      memory is true, leaves the device holding exactly the valid peers asked for, the
      allowlist live, and the firewall complete; the syncer's memory stays true. */
  lemma SuccessfulPassReconciles(s: State, i: PassIn, st: Firewall.RelayState, parses: string -> bool,
                                 faults: nat -> bool, t: State)
    requires Passed(s, i, st, parses, faults, t, true)
    requires Wgsync.DistinctKeys(i.resp.value.peers) && Ipset.Honest(s.sync)
    requires Firewall.CapsFirst(s.tables, Firewall.FirewallRules(st))
    ensures t.peers == Wgsync.MapOf(ValidPeers(i.resp.value.peers))
    ensures t.sync.live == Elements(Ipset.NormaliseOf(i.resp.value.gameCIDRs, parses)) && Ipset.Honest(t.sync)
    ensures t.tables.dropByDefault && Firewall.CapsFirst(t.tables, Firewall.FirewallRules(st))
    ensures forall r :: r in Firewall.FirewallRules(st) ==> Firewall.Present(t.tables, r)
  {
    hide PeersPassed, SetsPassed, FirewallPassed, Firewall.FirewallRules, Firewall.CapsFirst, Ipset.NormaliseOf;
    var resp := i.resp.value;
    ValidPeersMembers(resp.peers);
    PeersReconciled(s.peers, i, ValidPeers(resp.peers), t.peers);
    SetsReconciled(s, Ipset.NormaliseOf(resp.gameCIDRs, parses), t);
    FirewallReconciled(s, st, faults, t);
  }

  /** Whatever the control plane answers, after a pass that succeeded every peer held is one
      it named, with a key and a single address; and every such peer it named once is held. */
  lemma OnlySingleAddressesReachTheDevice(s: State, i: PassIn, st: Firewall.RelayState, parses: string -> bool,
                                          faults: nat -> bool, t: State, k: string, ip: InnerIP)
    requires Passed(s, i, st, parses, faults, t, true) && Wgsync.DistinctKeys(i.resp.value.peers)
    ensures k in t.peers && t.peers[k] == ip <==> Peer(k, ip) in i.resp.value.peers && k != "" && ip.Slash32?
  {
    hide PeersPassed, SetsPassed, FirewallPassed, Firewall.FirewallRules, Ipset.NormaliseOf, Wgsync.MapOf, ValidPeers;
    var resp := i.resp.value;
    ValidPeersMembers(resp.peers);
    PeersReconciled(s.peers, i, ValidPeers(resp.peers), t.peers);
    if k in t.peers { Wgsync.MapOfMember(ValidPeers(resp.peers), k); }
    if Peer(k, ip) in ValidPeers(resp.peers) { Wgsync.DistinctMapOf(ValidPeers(resp.peers), Peer(k, ip)); }
  }

  lemma SetsReconciled(s: State, list: seq<string>, t: State)
    requires SetsPassed(s, list, t, true) && Ipset.Honest(s.sync)
    ensures t.sync.live == Elements(list) && Ipset.Honest(t.sync)
  {
  }

  lemma FirewallReconciled(s: State, st: Firewall.RelayState, faults: nat -> bool, t: State)
    requires FirewallPassed(s, st, faults, t, true) && Firewall.CapsFirst(s.tables, Firewall.FirewallRules(st))
    ensures t.tables.dropByDefault && Firewall.CapsFirst(t.tables, Firewall.FirewallRules(st))
    ensures forall r :: r in Firewall.FirewallRules(st) ==> Firewall.Present(t.tables, r)
  {
    hide Firewall.FirewallRules, Firewall.CapsFirst, Firewall.Reasserted;
    Firewall.ReassertRestoresPolicy(s.tables, st, faults, s.calls);
  }

  lemma PeersReconciled(m: Wgsync.Peers, i: PassIn, valid: seq<Peer>, t: Wgsync.Peers)
    requires PeersPassed(m, i, valid, t, true) && Wgsync.DistinctKeys(valid)
    ensures t == Wgsync.MapOf(valid)
  {
    hide Wgsync.Applied, Wgsync.MapOf;
    var current :| Wgsync.Listing(current, m) && t == Wgsync.Applied(m, Wgsync.DiffOf(current, valid));
    Wgsync.DiffConvergesIff(m, current, valid);
    forall k ensures !Wgsync.Flaps(m, valid, k) { Wgsync.DistinctNeverFlaps(m, valid, k); }
  }

  /** Once a pass has succeeded, the same answer changes nothing: no peer, nothing of the
      allowlist, and no chain, the last exactly unless a failing check doubles a rule;
      whatever else fails in the second pass. */
  lemma SecondPassChangesNothing(s: State, i: PassIn, st: Firewall.RelayState, parses: string -> bool,
                                 faults: nat -> bool, t: State, j: PassIn, u: State, ok: bool)
    requires Passed(s, i, st, parses, faults, t, true) && Passed(t, j, st, parses, faults, u, ok) && j.resp == i.resp
    requires Wgsync.DistinctKeys(i.resp.value.peers) && Ipset.Honest(s.sync)
    requires Firewall.CapsFirst(s.tables, Firewall.FirewallRules(st))
    ensures u.peers == t.peers && u.sync == t.sync
    ensures u.tables == t.tables <==>
      faults(t.calls) || !Firewall.Doubles(t.tables, Firewall.FirewallRules(st), faults, t.calls + 1)
  {
    hide PeersPassed, SetsPassed, FirewallPassed, Firewall.FirewallRules, Firewall.CapsFirst, Ipset.NormaliseOf;
    var resp := i.resp.value;
    ValidPeersMembers(resp.peers);
    PeersReconciled(s.peers, i, ValidPeers(resp.peers), t.peers);
    var a, b, c :| ok == (a && b && c) && PeersPassed(t.peers, j, ValidPeers(resp.peers), u.peers, a) &&
      SetsPassed(t, Ipset.NormaliseOf(resp.gameCIDRs, parses), u, b) && FirewallPassed(t, st, faults, u, c);
    PeersStay(j, ValidPeers(resp.peers), u.peers, a);
    SetsStay(s, Ipset.NormaliseOf(resp.gameCIDRs, parses), t, u, b);
    FirewallStays(s, st, faults, t, u, c);
  }

  lemma PeersStay(j: PassIn, valid: seq<Peer>, u: Wgsync.Peers, ok: bool)
    requires Wgsync.DistinctKeys(valid) && PeersPassed(Wgsync.MapOf(valid), j, valid, u, ok)
    ensures u == Wgsync.MapOf(valid)
  {
    hide Wgsync.DiffOf, Wgsync.MapOf;
    var m := Wgsync.MapOf(valid);
    var current :| Wgsync.Listing(current, m) &&
      var c := Wgsync.DiffOf(current, valid);
      if j.listed && (j.configured || c.Empty()) then u == Wgsync.Applied(m, c) && ok else u == m && !ok;
    Wgsync.SecondPassIsEmpty(current, valid);
    EmptyChange(m, Wgsync.DiffOf(current, valid));
  }

  lemma SetsStay(s: State, list: seq<string>, t: State, u: State, ok: bool)
    requires SetsPassed(s, list, t, true) && SetsPassed(t, list, u, ok)
    ensures u.sync == t.sync && ok
  {
  }

  lemma FirewallStays(s: State, st: Firewall.RelayState, faults: nat -> bool, t: State, u: State, ok: bool)
    requires FirewallPassed(s, st, faults, t, true) && FirewallPassed(t, st, faults, u, ok)
    requires Firewall.CapsFirst(s.tables, Firewall.FirewallRules(st))
    ensures u.tables == t.tables <==>
      faults(t.calls) || !Firewall.Doubles(t.tables, Firewall.FirewallRules(st), faults, t.calls + 1)
  {
    hide Firewall.FirewallRules, Firewall.CapsFirst, Firewall.Reasserted, Firewall.Doubles;
    Firewall.SecondReassertAddsNothingIff(s.tables, st, faults, s.calls, faults, t.calls);
  }
}

/** The protocol end to end: what the store offers a device, a relay that has synced accepts. */
module Protocol {
  import opened Wrappers
  import opened Sorting
  import opened Api
  import opened Control
  import opened ControlRuns
  import Wgsync
  import Firewall
  import Agent

  /** After a relay's successful pass on the store's answer in any reachable state, every
      offer the store makes in that state is honoured: the relay holds the device's key at
      the address offered, and no other key at that address. */
  lemma OffersAreHonoured(dbs: seq<Db>, ops: seq<Op>, n: nat, id: string, dev: string, now: int,
                          s: Agent.State, i: Agent.PassIn, st: Firewall.RelayState, parses: string -> bool,
                          faults: nat -> bool, t: Agent.State, o: Offer)
    requires History(dbs, ops) && n < |dbs| && id in dbs[n].relays && dev in dbs[n].devices
    requires i.resp.Some? && PeerList(dbs[n], id, i.resp.value.peers)
    requires Agent.Passed(s, i, st, parses, faults, t, true)
    requires var d := dbs[n].devices[dev];
      && d.pubkey != "" && SessionOf(dbs[n], d.keyHash, d.pubkey, now).Ok?
      && o in SessionOf(dbs[n], d.keyHash, d.pubkey, now).value && o.relayId == id
    ensures var k := dbs[n].devices[dev].pubkey;
      && k in t.peers && t.peers[k] == o.innerIP
      && forall j :: j in t.peers && t.peers[j] == o.innerIP ==> j == k
  {
    hide Next, SessionOf, Wgsync.MapOf, Wgsync.DiffOf, DesiredPeers, PeerList, Inv, Agent.ValidPeers;
    var db, peers := dbs[n], i.resp.value.peers;
    var k := db.devices[dev].pubkey;
    HistoryInv(dbs, ops, n);
    OfferedIffServed(dbs, ops, n, dev, id, now);
    var p := Peer(k, o.innerIP);
    assert p in DesiredPeers(db, id);
    ListedPeers(db, id, peers);
    Agent.ValidPeersMembers(peers);
    Agent.PeersReconciled(s.peers, i, Agent.ValidPeers(peers), t.peers);
    PeersAreDistinct(db, id, p, p);
    Wgsync.DistinctMapOf(Agent.ValidPeers(peers), p);
    forall j | j in t.peers && t.peers[j] == o.innerIP ensures j == k {
      var q := Peer(j, t.peers[j]);
      Wgsync.MapOfMember(Agent.ValidPeers(peers), j);
      PeersAreDistinct(db, id, p, q);
    }
  }

  /** What the peer query lists is what it means, each key once. */
  lemma ListedPeers(db: Db, id: string, peers: seq<Peer>)
    requires Inv(db) && PeerList(db, id, peers)
    ensures Wgsync.DistinctKeys(peers)
    ensures forall p :: p in peers <==> p in DesiredPeers(db, id)
  {
    hide Inv, DesiredPeers;
    forall i, j | 0 <= i < j < |peers| ensures peers[i].publicKey != peers[j].publicKey {
      assert peers[i] in peers && peers[j] in peers;
      PeersAreDistinct(db, id, peers[i], peers[j]);
    }
  }
}
