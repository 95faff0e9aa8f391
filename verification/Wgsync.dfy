/** Reconciling the peers a relay holds with those it should hold. */
module Wgsync {
  import opened Api

  datatype Change = Change(add: seq<Peer>, update: seq<Peer>, remove: seq<string>) {
    predicate Empty() { add == [] && update == [] && remove == [] }
  }

  type Peers = map<string, InnerIP>

  method Diff(current: seq<Peer>, desired: seq<Peer>) returns (c: Change)
    ensures c == DiffOf(current, desired)
  {
    var cur := Indexed(current);
    var des := Indexed(desired);
    c := Change([], [], []);
    for i := 0 to |desired|
      invariant c == Change(Kept(desired[..i], IsNew(cur)), Kept(desired[..i], HasMoved(cur)), [])
    {
      assert desired[..i + 1][..i] == desired[..i];
      var want := desired[i];
      if want.publicKey !in cur {
        c := c.(add := c.add + [want]);
      } else if cur[want.publicKey] != want.innerIP {
        c := c.(update := c.update + [want]);
      }
    }
    assert desired[..|desired|] == desired;
    for i := 0 to |current|
      invariant c == Change(Kept(desired, IsNew(cur)), Kept(desired, HasMoved(cur)), Removes(des, current[..i]))
    {
      assert current[..i + 1][..i] == current[..i];
      if current[i].publicKey !in des {
        c := c.(remove := c.remove + [current[i].publicKey]);
      }
    }
    assert current[..|current|] == current;
  }

  method Indexed(ps: seq<Peer>) returns (m: Peers)
    ensures m == MapOf(ps)
  {
    m := map[];
    for i := 0 to |ps|
      invariant m == MapOf(ps[..i])
    {
      assert ps[..i + 1][..i] == ps[..i];
      m := m[ps[i].publicKey := ps[i].innerIP];
    }
    assert ps[..|ps|] == ps;
  }

  /** The WireGuard device, holding one address list per public key. */
  class Device {
    var peers: Peers

    constructor ()
      ensures peers == map[]
    {
      peers := map[];
    }

    /** Lists the peers, in any order. */
    method List() returns (ps: seq<Peer>)
      ensures Listing(ps, peers)
    {
      ps := [];
      var rest := peers.Keys;
      while rest != {}
        invariant rest <= peers.Keys
        invariant forall p :: p in ps <==> p.publicKey in peers && p.publicKey !in rest && peers[p.publicKey] == p.innerIP
        invariant DistinctKeys(ps)
      {
        var k :| k in rest;
        assert forall p :: p in ps ==> p.publicKey != k;
        ps, rest := ps + [Peer(k, peers[k])], rest - {k};
      }
    }

    method Apply(c: Change)
      modifies this
      ensures peers == Applied(old(peers), c)
    {
      Put(c.add);
      Put(c.update);
      for i := 0 to |c.remove|
        invariant peers == PutAll(PutAll(old(peers), c.add), c.update) - (set k | k in c.remove[..i])
      {
        assert c.remove[..i + 1] == c.remove[..i] + [c.remove[i]];
        peers := peers - {c.remove[i]};
      }
      assert c.remove[..|c.remove|] == c.remove;
    }

    method Put(ps: seq<Peer>)
      modifies this
      ensures peers == PutAll(old(peers), ps)
    {
      for i := 0 to |ps|
        invariant peers == PutAll(old(peers), ps[..i])
      {
        assert ps[..i + 1][..i] == ps[..i];
        peers := peers[ps[i].publicKey := ps[i].innerIP];
      }
      assert ps[..|ps|] == ps;
    }
  }

  // ----- what they compute

  function PutAll(m: Peers, ps: seq<Peer>): Peers {
    if ps == [] then m else PutAll(m, ps[..|ps| - 1])[ps[|ps| - 1].publicKey := ps[|ps| - 1].innerIP]
  }

  /** A peer list read as a map: a later entry for a key replaces an earlier one. */
  function MapOf(ps: seq<Peer>): Peers {
    PutAll(map[], ps)
  }

  function Kept(ps: seq<Peer>, f: Peer -> bool): seq<Peer> {
    if ps == [] then [] else Kept(ps[..|ps| - 1], f) + if f(ps[|ps| - 1]) then [ps[|ps| - 1]] else []
  }

  function IsNew(cur: Peers): Peer -> bool {
    (p: Peer) => p.publicKey !in cur
  }

  function HasMoved(cur: Peers): Peer -> bool {
    (p: Peer) => p.publicKey in cur && cur[p.publicKey] != p.innerIP
  }

  function Removes(des: Peers, current: seq<Peer>): seq<string> {
    if current == [] then []
    else
      var k := current[|current| - 1].publicKey;
      Removes(des, current[..|current| - 1]) + if k !in des then [k] else []
  }

  function DiffOf(current: seq<Peer>, desired: seq<Peer>): Change {
    Change(Kept(desired, IsNew(MapOf(current))), Kept(desired, HasMoved(MapOf(current))), Removes(MapOf(desired), current))
  }

  function Applied(m: Peers, c: Change): Peers {
    PutAll(PutAll(m, c.add), c.update) - (set k | k in c.remove)
  }

  ghost predicate DistinctKeys(ps: seq<Peer>) {
    forall i, j :: 0 <= i < j < |ps| ==> ps[i].publicKey != ps[j].publicKey
  }

  /** `ps` lists `m`, each peer once. */
  ghost predicate Listing(ps: seq<Peer>, m: Peers) {
    DistinctKeys(ps) && forall p :: p in ps <==> p.publicKey in m && m[p.publicKey] == p.innerIP
  }

  // ----- the meaning of a change

  /** Index of the last entry for `k` that passes `f`, or -1. */
  ghost function Last(ps: seq<Peer>, k: string, f: Peer -> bool): (i: int)
    ensures -1 <= i < |ps|
    ensures i >= 0 ==> ps[i].publicKey == k && f(ps[i])
    ensures forall j :: i < j < |ps| && ps[j].publicKey == k ==> !f(ps[j])
  {
    if ps == [] then -1
    else if ps[|ps| - 1].publicKey == k && f(ps[|ps| - 1]) then |ps| - 1
    else Last(ps[..|ps| - 1], k, f)
  }

  function Every(): Peer -> bool {
    (p: Peer) => true
  }

  /** What writing the kept entries in order leaves at `k`: the last of them, or what was there. */
  lemma {:induction false} PutKeptAt(m: Peers, ps: seq<Peer>, f: Peer -> bool, k: string)
    ensures var (i, t) := (Last(ps, k, f), PutAll(m, Kept(ps, f)));
      if i >= 0 then k in t && t[k] == ps[i].innerIP
      else (k in t <==> k in m) && (k in m ==> t[k] == m[k])
  {
    if ps != [] {
      KeptStep(m, ps, f);
      hide PutAll, Kept;
      PutKeptAt(m, ps[..|ps| - 1], f, k);
    }
  }

  lemma KeptStep(m: Peers, ps: seq<Peer>, f: Peer -> bool)
    requires ps != []
    ensures var (t, p) := (PutAll(m, Kept(ps[..|ps| - 1], f)), ps[|ps| - 1]);
      PutAll(m, Kept(ps, f)) == if f(p) then t[p.publicKey := p.innerIP] else t
  {
    var kept, p := Kept(ps[..|ps| - 1], f), ps[|ps| - 1];
    assert (kept + [p])[..|kept|] == kept;
    assert kept + [] == kept;
  }

  lemma {:induction false} KeptMembers(ps: seq<Peer>, f: Peer -> bool)
    ensures forall p :: p in Kept(ps, f) <==> p in ps && f(p)
  {
    if ps != [] {
      KeptMembers(ps[..|ps| - 1], f);
      assert ps == ps[..|ps| - 1] + [ps[|ps| - 1]];
    }
  }

  lemma {:induction false} KeptAll(ps: seq<Peer>)
    ensures Kept(ps, Every()) == ps
  {
    if ps != [] { KeptAll(ps[..|ps| - 1]); }
  }

  /** A peer list as a map holds the last entry of each key. */
  lemma MapOfAt(ps: seq<Peer>, k: string)
    ensures var i := Last(ps, k, Every());
      if i >= 0 then k in MapOf(ps) && MapOf(ps)[k] == ps[i].innerIP else k !in MapOf(ps)
  {
    KeptAll(ps);
    PutKeptAt(map[], ps, Every(), k);
  }

  lemma {:induction false} RemovesMembers(des: Peers, current: seq<Peer>)
    ensures forall k :: k in Removes(des, current) <==> k !in des && exists p :: p in current && p.publicKey == k
  {
    if current != [] {
      RemovesMembers(des, current[..|current| - 1]);
      assert current == current[..|current| - 1] + [current[|current| - 1]];
    }
  }

  lemma ListingIsMap(ps: seq<Peer>, m: Peers)
    requires Listing(ps, m)
    ensures MapOf(ps) == m
  {
    forall k ensures k in MapOf(ps) <==> k in m {
      MapOfAt(ps, k);
      if k in m { assert Peer(k, m[k]) in ps; }
    }
    forall k | k in m ensures MapOf(ps)[k] == m[k] {
      MapOfAt(ps, k);
      assert ps[Last(ps, k, Every())] in ps;
    }
  }

  /** A key whose held address is the last one asked for, though another was asked too. */
  ghost predicate Flaps(m: Peers, desired: seq<Peer>, k: string) {
    && k in m && k in MapOf(desired) && MapOf(desired)[k] == m[k]
    && exists p :: p in desired && p.publicKey == k && p.innerIP != m[k]
  }

  lemma AppliedAt(m: Peers, current: seq<Peer>, desired: seq<Peer>, k: string)
    requires Listing(current, m)
    ensures var t := Applied(m, DiffOf(current, desired));
      (k in t <==> k in MapOf(desired)) &&
      (k in t ==> (t[k] == MapOf(desired)[k] <==> !Flaps(m, desired, k)))
  {
    hide PutAll, Kept, Removes, MapOf, Last;
    ListingIsMap(current, m);
    MapOfAt(desired, k);
    var added := PutAll(m, Kept(desired, IsNew(m)));
    PutKeptAt(m, desired, IsNew(m), k);
    PutKeptAt(added, desired, HasMoved(m), k);
    RemovesMembers(MapOf(desired), current);
    if k in m {
      assert Peer(k, m[k]) in current;
      var j := Last(desired, k, HasMoved(m));
      if j >= 0 { assert desired[j] in desired; }
    }
  }

  /** For every peer list: one diff applied makes the device hold exactly the desired map
      if and only if no key flaps; then a second diff asks for nothing. */
  lemma DiffConvergesIff(m: Peers, current: seq<Peer>, desired: seq<Peer>)
    requires Listing(current, m)
    ensures Applied(m, DiffOf(current, desired)) == MapOf(desired) <==> forall k :: !Flaps(m, desired, k)
  {
    var t := Applied(m, DiffOf(current, desired));
    forall k ensures (k in t <==> k in MapOf(desired)) && (k in t ==> (t[k] == MapOf(desired)[k] <==> !Flaps(m, desired, k))) {
      AppliedAt(m, current, desired, k);
    }
    if t == MapOf(desired) {
      forall k ensures !Flaps(m, desired, k) {
        assert Flaps(m, desired, k) ==> k in t;
      }
    }
    if forall k :: !Flaps(m, desired, k) { assert t == MapOf(desired); }
  }

  /** Lists without repeated keys, as the schema gives them, never flap. */
  lemma DistinctNeverFlaps(m: Peers, desired: seq<Peer>, k: string)
    requires DistinctKeys(desired)
    ensures !Flaps(m, desired, k)
  {
    MapOfAt(desired, k);
    var i := Last(desired, k, Every());
    if p :| p in desired && p.publicKey == k {
      var j :| 0 <= j < |desired| && desired[j] == p;
      assert i == j;
    }
  }

  lemma MapOfKeys(ps: seq<Peer>, k: string)
    ensures k in MapOf(ps) <==> exists p :: p in ps && p.publicKey == k
  {
    MapOfAt(ps, k);
    var i := Last(ps, k, Every());
    if i >= 0 { assert ps[i] in ps; }
  }

  /** No key is ever removed and added, or removed and updated; a peer that stays where it
      is appears in no list of the change, a peer that moved only among the updates. */
  lemma PeersAreNotDisturbed(m: Peers, current: seq<Peer>, desired: seq<Peer>, p: Peer)
    requires Listing(current, m) && DistinctKeys(desired) && p in desired
    ensures var c := DiffOf(current, desired);
      && p.publicKey !in c.remove
      && (p in c.update <==> p.publicKey in m && m[p.publicKey] != p.innerIP)
      && (p in c.add <==> p.publicKey !in m)
      && forall q :: q in c.add + c.update && q.publicKey == p.publicKey ==> q == p
  {
    ListingIsMap(current, m);
    KeptMembers(desired, IsNew(m));
    KeptMembers(desired, HasMoved(m));
    RemovesMembers(MapOf(desired), current);
    MapOfKeys(desired, p.publicKey);
  }

  /** Once the device holds what is desired, the next pass changes nothing. */
  lemma SecondPassIsEmpty(current: seq<Peer>, desired: seq<Peer>)
    requires DistinctKeys(desired) && Listing(current, MapOf(desired))
    ensures DiffOf(current, desired).Empty()
  {
    var m := MapOf(desired);
    ListingIsMap(current, m);
    KeptMembers(desired, IsNew(m));
    KeptMembers(desired, HasMoved(m));
    RemovesMembers(m, current);
    var c := DiffOf(current, desired);
    if c.remove != [] { HasMember(c.remove); }
    if c.add != [] {
      assert c.add[0] in c.add;
      MapOfKeys(desired, c.add[0].publicKey);
    }
    if c.update != [] {
      assert c.update[0] in c.update;
      DistinctMapOf(desired, c.update[0]);
    }
  }

  lemma HasMember(ks: seq<string>)
    requires ks != []
    ensures exists k :: k in ks
  {
    assert ks[0] in ks;
  }

  lemma DistinctMapOf(desired: seq<Peer>, p: Peer)
    requires DistinctKeys(desired) && p in desired
    ensures p.publicKey in MapOf(desired) && MapOf(desired)[p.publicKey] == p.innerIP
  {
    MapOfAt(desired, p.publicKey);
    var i :| 0 <= i < |desired| && desired[i] == p;
    assert i == Last(desired, p.publicKey, Every());
  }

  lemma MapOfMember(ps: seq<Peer>, k: string)
    requires k in MapOf(ps)
    ensures Peer(k, MapOf(ps)[k]) in ps
  {
    MapOfAt(ps, k);
    assert ps[Last(ps, k, Every())] in ps;
  }
}
