/** What each operation of the store brings about, field by field, and what follows from it
    for the devices and relays that ask afterwards. */
module ControlEffects {
  import opened Wrappers
  import opened Api
  import opened Control
  import opened ControlRuns

  const HOURS := 3600

  // ----- reports

  /** A relay's sync is noted, and brings it up exactly if it was ever reached. */
  lemma SyncMeans(db: Db, id: string, now: int, t: Db)
    requires Next(db, ReportStatus(id, now), t)
    ensures t == db.(relays := t.relays) && t.relays.Keys == db.relays.Keys
    ensures forall j :: j in db.relays ==>
      t.relays[j] ==
        if j != id then db.relays[j]
        else if db.relays[j].reachableAt.Some? then db.relays[j].(lastSeen := Some(now), status := Up)
        else db.relays[j].(lastSeen := Some(now))
  {
  }

  /** A relay that is up goes down exactly when it has not synced for longer than `after`. */
  lemma StaleMeans(db: Db, after: int, now: int, t: Db)
    requires Next(db, MarkStale(after, now), t)
    ensures t == db.(relays := t.relays) && t.relays.Keys == db.relays.Keys
    ensures forall j :: j in db.relays && db.relays[j].status == Up ==>
      t.relays[j] ==
        if db.relays[j].lastSeen.Some? && now - db.relays[j].lastSeen.value <= after then db.relays[j]
        else db.relays[j].(status := Down)
    ensures forall j :: j in db.relays && db.relays[j].status != Up ==> t.relays[j] == db.relays[j]
  {
  }

  /** A report about a relay counts under its own key, while that is active: a good one makes
      it reached and up, a bad one unreachable; all other relays stay as they are. */
  lemma ReportMeans(db: Db, k: string, pubkey: string, ok: bool, now: int, t: Db)
    requires Next(db, ReportReachability(k, pubkey, ok, now), t)
    ensures t == db.(relays := t.relays) && t.relays.Keys == db.relays.Keys
    ensures forall j :: j in db.relays ==>
      var row := db.relays[j];
      t.relays[j] ==
        if !(row.pubkey == pubkey && row.keyHash == k && k in db.keys && db.keys[k].active) then row
        else if ok then row.(reachableAt := Some(now), status := Up)
        else row.(status := Unreachable)
  {
  }

  /** A sync does not undo a good report, and undoes a bad one only of a relay once reached:
      so a relay never reached is never up, and one reached is up after its next sync. */
  lemma UpAfterNextSync(dbs: seq<Db>, ops: seq<Op>, n: nat, id: string)
    requires History(dbs, ops) && n < |ops| && ops[n].ReportStatus? && ops[n].relayId == id && id in dbs[n].relays
    ensures id in dbs[n + 1].relays
    ensures dbs[n + 1].relays[id].status == Up <==> dbs[n].relays[id].reachableAt.Some?
  {
    assert Next(dbs[n], ops[n], dbs[n + 1]);
    SyncMeans(dbs[n], id, ops[n].now, dbs[n + 1]);
    HistoryInv(dbs, ops, n);
    assert UpMeansReached(dbs[n].relays);
    hide Inv, Next;
  }

  // ----- registration

  ghost predicate HasRelay(db: Db, i: Registration) {
    exists id :: id in db.relays && db.relays[id].pubkey == i.pubkey && db.relays[id].keyHash == i.keyHash
  }

  /** No relay but the one asked for has the token. */
  ghost predicate TokenFree(db: Db, i: Registration) {
    forall id :: id in db.relays && db.relays[id].token == i.token ==> db.relays[id].pubkey == i.pubkey
  }

  /** Nothing stands in the way of a new relay. */
  ghost predicate RoomForRelay(db: Db, i: Registration) {
    && |RelaysOf(db.relays, i.keyHash)| < 10 && db.lastOctet < 255 && i.relayId !in db.relays
    && forall id :: id in db.relays ==> db.relays[id].pubkey != i.pubkey && db.relays[id].token != i.token
  }

  /** A registration succeeds exactly under an active key, for a relay of that key whose new
      token no other relay has, or for a new relay there is room for. */
  lemma RegisterSucceedsIff(db: Db, i: Registration, t: Db, r: Result<(string, int), Error>)
    requires RelayKeys(db.relays) && Registered(db, i, t, r)
    ensures var active := i.keyHash in db.keys && db.keys[i.keyHash].active;
      && (r.Ok? <==> active && if HasRelay(db, i) then TokenFree(db, i) else RoomForRelay(db, i))
      && (r == Err(TooManyRelays) <==> active && !HasRelay(db, i) && |RelaysOf(db.relays, i.keyHash)| >= 10)
    ensures r.Err? ==> t == db || t == db.(lastOctet := db.lastOctet + 1)
  {
    hide RelaysOf;
    assert HasRelay(db, i) <==> KnownRelay(db, i);
    if KeyActive(db, i.keyHash) && KnownRelay(db, i) {
      KnownTokens(db, i);
    }
  }

  lemma KnownTokens(db: Db, i: Registration)
    requires RelayKeys(db.relays)
    ensures forall id :: id in db.relays && IsRelay(db, id, i) ==>
      (TokenTaken(db, i.token, Some(id)) <==>
       exists j :: j in db.relays && db.relays[j].token == i.token && db.relays[j].pubkey != i.pubkey)
  {
  }

  /** What a registration that succeeded leaves: the row asked for, nothing else touched; a
      known relay keeps all but token and endpoint, a new one waits 48 hours on a /16 that
      follows the last one issued. */
  lemma RegisteredMeans(db: Db, i: Registration, t: Db, r: Result<(string, int), Error>)
    requires Registered(db, i, t, r) && r.Ok?
    ensures var (id, octet) := r.value;
      && id in t.relays && t.relays[id].octet == octet
      && t.relays[id].pubkey == i.pubkey && t.relays[id].keyHash == i.keyHash
      && t.relays[id].endpoint == i.endpoint && t.relays[id].token == i.token
      && t.keys == db.keys && t.devices == db.devices && t.bindings == db.bindings
      && (forall j :: j != id ==> (j in t.relays <==> j in db.relays) && (j in db.relays ==> t.relays[j] == db.relays[j]))
      && (HasRelay(db, i) ==> id in db.relays && t.relays[id] == db.relays[id].(token := i.token, endpoint := i.endpoint))
      && (!HasRelay(db, i) ==>
            && id == i.relayId && octet == db.lastOctet + 1 == t.lastOctet
            && t.relays[id].status == Pending && t.relays[id].lastSeen == None && t.relays[id].reachableAt == None
            && t.relays[id].trustedAfter == i.now + 48 * HOURS)
  {
    hide RelaysOf;
    assert HasRelay(db, i) <==> KnownRelay(db, i);
  }

  /** A relay newly registered is offered to nobody for 48 hours, whatever it reports. */
  lemma NewRelayWaits(dbs: seq<Db>, ops: seq<Op>, n: nat, m: nat, id: string, k: string, pubkey: string, now: int)
    requires History(dbs, ops) && n < m < |dbs| && ops[n].Register?
    requires id !in dbs[n].relays && (forall j :: n < j <= m ==> id in dbs[j].relays)
    requires now < ops[n].r.now + 48 * HOURS
    ensures dbs[m].relays[id].trustedAfter == ops[n].r.now + 48 * HOURS
    ensures var s := SessionOf(dbs[m], k, pubkey, now); s.Ok? ==> forall o :: o in s.value ==> o.relayId != id
  {
    hide Next;
    TrustDateStays(dbs, ops, n, m, id);
  }

  lemma {:induction false} TrustDateStays(dbs: seq<Db>, ops: seq<Op>, n: nat, m: nat, id: string)
    requires History(dbs, ops) && n < m < |dbs| && ops[n].Register?
    requires id !in dbs[n].relays && (forall j :: n < j <= m ==> id in dbs[j].relays)
    ensures dbs[m].relays[id].trustedAfter == ops[n].r.now + 48 * HOURS
    decreases m
  {
    hide Next;
    RelayIdentityKept(dbs[m - 1], ops[m - 1], dbs[m], id);
    if n + 1 < m { TrustDateStays(dbs, ops, n, m - 1, id); }
  }

  lemma {:induction false} NoSubnetBefore(dbs: seq<Db>, ops: seq<Op>, n: nat)
    requires History(dbs, ops) && n < |dbs| && forall j :: 0 <= j < n ==> !ops[j].Register?
    ensures dbs[n].lastOctet == 76
    decreases n
  {
    if n > 0 {
      NoSubnetBefore(dbs, ops, n - 1);
      assert Next(dbs[n - 1], ops[n - 1], dbs[n]);
      if ops[n - 1].Activate? { var r :| Activated(dbs[n - 1], ops[n - 1].a, dbs[n], r); }
    }
  }

  /** The first relay of a history sits on 10.77.0.0/16. */
  lemma FirstSubnet(dbs: seq<Db>, ops: seq<Op>, n: nat, r: Result<(string, int), Error>)
    requires History(dbs, ops) && n < |ops| && ops[n].Register? && forall j :: 0 <= j < n ==> !ops[j].Register?
    requires Registered(dbs[n], ops[n].r, dbs[n + 1], r) && r.Ok? && !HasRelay(dbs[n], ops[n].r)
    ensures r.value == (ops[n].r.relayId, 77)
  {
    hide Next;
    NoSubnetBefore(dbs, ops, n);
    RegisteredMeans(dbs[n], ops[n].r, dbs[n + 1], r);
  }

  // ----- activation

  ghost predicate HasDevice(db: Db, i: Activation) {
    exists id :: id in db.devices && db.devices[id].pubkey == i.pubkey && db.devices[id].keyHash == i.keyHash
  }

  ghost predicate RoomForDevice(db: Db, i: Activation)
    requires i.keyHash in db.keys
  {
    && |DevicesOf(db.devices, i.keyHash)| < db.keys[i.keyHash].maxDevices && i.deviceId !in db.devices
    && forall id :: id in db.devices ==> db.devices[id].pubkey != i.pubkey
  }

  ghost predicate HeldBySomeone(db: Db, id: string, ip: InnerIP) {
    exists d :: (d, id) in db.bindings && db.bindings[(d, id)] == ip
  }

  /** Some relay has handed out every address of its pool. */
  ghost predicate SomePoolFull(db: Db) {
    exists id :: id in db.relays && forall n :: 1 <= n <= 65000 ==> HeldBySomeone(db, id, HostAddress(db.relays[id].octet, n))
  }

  lemma PoolsAgree(db: Db)
    ensures AnyPoolFull(db) <==> SomePoolFull(db)
  {
    forall id, ip ensures Held(db, id, ip) <==> HeldBySomeone(db, id, ip) {
      if k :| k in db.bindings && k.1 == id && db.bindings[k] == ip { assert k == (k.0, id); }
    }
    hide Held, HeldBySomeone;
  }

  /** An activation succeeds exactly under an active key, with an address left on every
      relay, for a device of that key or for a new one a slot is left for. */
  lemma ActivateSucceedsIff(db: Db, i: Activation, t: Db, r: Result<string, Error>)
    requires Activated(db, i, t, r)
    ensures var active := i.keyHash in db.keys && db.keys[i.keyHash].active;
      && (r.Ok? <==> active && !SomePoolFull(db) && (HasDevice(db, i) || RoomForDevice(db, i)))
      && (r == Err(SlotsFull) <==>
            active && !HasDevice(db, i) && |DevicesOf(db.devices, i.keyHash)| >= db.keys[i.keyHash].maxDevices)
    ensures r.Err? ==> t == db
  {
    PoolsAgree(db);
    assert HasDevice(db, i) <==> KnownDevice(db, i);
    hide SomePoolFull, AnyPoolFull, Bound, DevicesOf;
  }

  /** What an activation that succeeded leaves: the device under its key, with an address on
      every relay, those it held among them; nobody else's device or address is touched. */
  lemma ActivatedMeans(db: Db, i: Activation, t: Db, r: Result<string, Error>)
    requires Activated(db, i, t, r) && r.Ok?
    ensures var id := r.value;
      && t.keys == db.keys && t.relays == db.relays
      && t.devices == db.devices[id := DeviceRow(i.keyHash, i.pubkey, i.fingerprint)]
      && (HasDevice(db, i) ==> id in db.devices) && (!HasDevice(db, i) ==> id == i.deviceId && id !in db.devices)
      && (forall relay :: relay in db.relays ==> (id, relay) in t.bindings)
      && (forall k :: k in db.bindings ==> k in t.bindings && t.bindings[k] == db.bindings[k])
      && (forall k :: k in t.bindings && k !in db.bindings ==> k.0 == id && k.1 in db.relays)
  {
    assert HasDevice(db, i) <==> KnownDevice(db, i);
    hide AnyPoolFull, DevicesOf, Allocatable;
  }

  /** Right after its activation a device is offered exactly the relays that are up, past
      their trust wait and of an active key, each of which serves it at the address offered. */
  lemma ActivationLeadsToOffers(db: Db, i: Activation, t: Db, r: Result<string, Error>, id: string, now: int)
    requires Inv(db) && Activated(db, i, t, r) && r.Ok? && id in t.relays
    ensures var s := SessionOf(t, i.keyHash, i.pubkey, now);
      && s.Ok?
      && ((exists o :: o in s.value && o.relayId == id) <==>
            var row := t.relays[id];
            row.status == Up && row.trustedAfter <= now && row.keyHash in t.keys && t.keys[row.keyHash].active)
      && forall o :: o in s.value && o.relayId == id ==> Peer(i.pubkey, o.innerIP) in DesiredPeers(t, id)
  {
    ActivatedMeans(db, i, t, r);
    ActivateInv(db, i, t, r);
    assert KeyActive(t, i.keyHash);
    var dev := r.value;
    assert t.devices[dev] == DeviceRow(i.keyHash, i.pubkey, i.fingerprint) && (dev, id) in t.bindings;
    hide Activated;
    SessionOffers(t, dev, id, now);
    assert OwnsDevice(t, dev, i.keyHash, i.pubkey);
    if KeyActive(t, t.relays[id].keyHash) { assert Served(t, (dev, id), id) && PeerAt(t, (dev, id)) in DesiredPeers(t, id); }
    hide Inv, SessionOf;
    if p :| p in DesiredPeers(t, id) && p.publicKey == i.pubkey { ServedMeansActive(t, id, p); }
  }

  lemma ServedMeansActive(db: Db, id: string, p: Peer)
    requires id in db.relays && p in DesiredPeers(db, id)
    ensures KeyActive(db, db.relays[id].keyHash)
  {
  }

  // ----- release, deletion, keys

  /** Its owner can release a device, and only its owner: the device and its addresses go,
      and no relay serves its key any more; all else stays. */
  lemma ReleaseMeans(db: Db, k: string, dev: string, t: Db, id: string)
    requires Inv(db) && Next(db, Release(k, dev), t)
    ensures !(dev in db.devices && db.devices[dev].keyHash == k) ==> t == db
    ensures dev in db.devices && db.devices[dev].keyHash == k ==>
      && t.keys == db.keys && t.relays == db.relays && t.devices == db.devices - {dev}
      && (forall b :: b in t.bindings <==> b in db.bindings && b.0 != dev)
      && (forall b :: b in t.bindings ==> t.bindings[b] == db.bindings[b])
      && forall p :: p in DesiredPeers(t, id) ==> p.publicKey != db.devices[dev].pubkey
  {
    hide Subnets, RelayKeys, UpMeansReached, RelayCounts, DeviceCounts, BindingsSound, BindingsDistinct;
  }

  /** A relay that is removed takes its addresses with it and nothing else. */
  lemma RelayRemovalMeans(db: Db, id: string, t: Db)
    requires Next(db, DeleteRelay(id), t)
    ensures t.keys == db.keys && t.devices == db.devices && t.relays == db.relays - {id}
    ensures t.lastOctet == db.lastOctet && t.issued == db.issued
    ensures forall b :: b in t.bindings <==> b in db.bindings && b.1 != id
    ensures forall b :: b in t.bindings ==> t.bindings[b] == db.bindings[b]
  {
  }

  /** A new key is active and has three slots; an old one is not touched by making it again. */
  lemma NewKeyMeans(db: Db, k: string, t: Db)
    requires Next(db, CreateKey(k), t)
    ensures t == db.(keys := t.keys) && k in t.keys
    ensures t.keys[k] == if k in db.keys then db.keys[k] else KeyRow(true, 3)
    ensures forall j :: j != k ==> (j in t.keys <==> j in db.keys) && (j in db.keys ==> t.keys[j] == db.keys[j])
  {
  }

  // ----- what is asked afterwards

  /** The peers of a relay, spelt out: the devices bound to it, while both keys are active. */
  lemma PeersMean(db: Db, id: string, p: Peer)
    ensures p in DesiredPeers(db, id) <==>
      exists dev :: (dev, id) in db.bindings && dev in db.devices && id in db.relays
        && p == Peer(db.devices[dev].pubkey, db.bindings[(dev, id)])
        && db.devices[dev].keyHash in db.keys && db.keys[db.devices[dev].keyHash].active
        && db.relays[id].keyHash in db.keys && db.keys[db.relays[id].keyHash].active
  {
    if p in DesiredPeers(db, id) {
      var k :| k in db.bindings && Served(db, k, id) && PeerAt(db, k) == p;
      assert k == (k.0, id);
    }
    forall dev | (dev, id) in db.bindings && dev in db.devices && id in db.relays
      ensures Served(db, (dev, id), id) <==> KeyActive(db, db.devices[dev].keyHash) && KeyActive(db, db.relays[id].keyHash)
    {
    }
  }

  /** A session, spelt out: refused without a device of that key, while it is active; else
      the offers of the relays it is bound to that are up, trusted and of an active key. */
  lemma SessionMeans(db: Db, k: string, pubkey: string, now: int, o: Offer)
    ensures var s := SessionOf(db, k, pubkey, now);
      && (s.Ok? <==> k in db.keys && db.keys[k].active &&
                     exists dev :: dev in db.devices && db.devices[dev].pubkey == pubkey && db.devices[dev].keyHash == k)
      && (s.Err? ==> s.error == UnknownKey)
      && (s.Ok? ==> (o in s.value <==>
            exists dev :: dev in db.devices && db.devices[dev].pubkey == pubkey && db.devices[dev].keyHash == k
              && o.relayId in db.relays && (dev, o.relayId) in db.bindings && o.innerIP == db.bindings[(dev, o.relayId)]
              && var r := db.relays[o.relayId];
                 && o.endpoint == r.endpoint && o.publicKey == r.pubkey && r.status == Up && r.trustedAfter <= now
                 && r.keyHash in db.keys && db.keys[r.keyHash].active))
  {
    var s := SessionOf(db, k, pubkey, now);
    if dev :| dev in db.devices && db.devices[dev].pubkey == pubkey && db.devices[dev].keyHash == k {
      assert KeyActive(db, k) ==> OwnsDevice(db, dev, k, pubkey);
    }
    if s.Ok? {
      forall dev | dev in db.devices && db.devices[dev].pubkey == pubkey && db.devices[dev].keyHash == k
        ensures OwnsDevice(db, dev, k, pubkey)
      {
      }
    }
  }
}
