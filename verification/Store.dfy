/** The control plane's store: each method one serial transaction on the tables. */
module Control {
  import opened Wrappers
  import opened Api
  import opened Sorting
  import Text

  const MAX_RELAYS_PER_KEY := 10
  const DEFAULT_MAX_DEVICES := 3
  const FIRST_OCTET := 77
  const LAST_OCTET := 255
  const POOL := 65000
  const HOUR := 3600
  const TRUST_WINDOW := 48 * HOUR

  datatype Status = Pending | Up | Down | Unreachable

  datatype KeyRow = KeyRow(active: bool, maxDevices: int)

  datatype RelayRow = RelayRow(keyHash: string, pubkey: string, endpoint: string, token: string, octet: int,
                               status: Status, lastSeen: Option<int>, reachableAt: Option<int>, trustedAfter: int)

  datatype DeviceRow = DeviceRow(keyHash: string, pubkey: string, fingerprint: string)

  /** A binding is keyed by (device id, relay id). */
  type Binding = (string, string)

  /** The tables; `lastOctet` is the sequence, `issued` the log of the subnets it gave out. */
  datatype Db = Db(keys: map<string, KeyRow>, relays: map<string, RelayRow>, devices: map<string, DeviceRow>,
                   bindings: map<Binding, InnerIP>, lastOctet: int, issued: seq<(string, int)>)

  datatype Error = UnknownKey | TooManyRelays | SlotsFull | Database

  datatype Registration = Registration(keyHash: string, pubkey: string, endpoint: string,
                                       relayId: string, token: string, now: int)

  datatype Activation = Activation(keyHash: string, pubkey: string, fingerprint: string, deviceId: string)

  datatype Offer = Offer(relayId: string, endpoint: string, publicKey: string, innerIP: InnerIP)

  // ----- rows

  predicate KeyActive(db: Db, k: string) {
    k in db.keys && db.keys[k].active
  }

  function RelaysOf(relays: map<string, RelayRow>, k: string): set<string> {
    set id | id in relays && relays[id].keyHash == k
  }

  function DevicesOf(devices: map<string, DeviceRow>, k: string): set<string> {
    set id | id in devices && devices[id].keyHash == k
  }

  predicate TokenTaken(db: Db, token: string, except: Option<string>) {
    exists id :: id in db.relays && Some(id) != except && db.relays[id].token == token
  }

  /** The n-th host address of a relay's /16, as the allocation query generates it. */
  function HostAddress(octet: int, n: int): InnerIP {
    Slash32(10, octet, n / 254, n % 254 + 1)
  }

  predicate Held(db: Db, relayId: string, ip: InnerIP) {
    exists k :: k in db.bindings && k.1 == relayId && db.bindings[k] == ip
  }

  predicate Allocatable(db: Db, relayId: string, ip: InnerIP)
    requires relayId in db.relays
  {
    !Held(db, relayId, ip) && exists n :: 1 <= n <= POOL && ip == HostAddress(db.relays[relayId].octet, n)
  }

  predicate PoolFull(db: Db, relayId: string)
    requires relayId in db.relays
  {
    forall n :: 1 <= n <= POOL ==> Held(db, relayId, HostAddress(db.relays[relayId].octet, n))
  }

  class Store {
    var db: Db

    constructor (db: Db)
      ensures this.db == db
    {
      this.db := db;
    }

    method RegisterRelay(i: Registration) returns (r: Result<(string, int), Error>)
      modifies this
      ensures Registered(old(db), i, db, r)
    {
      if !KeyActive(db, i.keyHash) {
        return Err(UnknownKey);
      }
      var tx := db;
      if id :| id in tx.relays && IsRelay(tx, id, i) {
        if TokenTaken(tx, i.token, Some(id)) {
          return Err(Database);
        }
        var row := tx.relays[id].(token := i.token, endpoint := i.endpoint);
        tx := tx.(relays := tx.relays[id := row]);
        db := tx;
        return Ok((id, row.octet));
      }
      if |RelaysOf(tx.relays, i.keyHash)| >= MAX_RELAYS_PER_KEY {
        return Err(TooManyRelays);
      }
      if exists id :: id in tx.relays && tx.relays[id].pubkey == i.pubkey {
        return Err(UnknownKey);
      }
      if db.lastOctet >= LAST_OCTET {
        return Err(Database);
      }
      // The sequence moves whether or not the transaction commits.
      db := db.(lastOctet := db.lastOctet + 1);
      tx := tx.(lastOctet := db.lastOctet);
      if i.relayId in tx.relays || TokenTaken(tx, i.token, None) {
        return Err(Database);
      }
      var row := RelayRow(i.keyHash, i.pubkey, i.endpoint, i.token, tx.lastOctet,
                          Pending, None, None, i.now + TRUST_WINDOW);
      tx := tx.(relays := tx.relays[i.relayId := row], issued := tx.issued + [(i.relayId, row.octet)]);
      db := tx;
      return Ok((i.relayId, row.octet));
    }

    method ActivateDevice(i: Activation) returns (r: Result<string, Error>)
      modifies this
      ensures Activated(old(db), i, db, r)
    {
      if !KeyActive(db, i.keyHash) {
        return Err(UnknownKey);
      }
      var tx := db;
      var deviceId;
      if id :| id in tx.devices && IsDevice(tx, id, i) {
        deviceId := id;
        tx := tx.(devices := tx.devices[id := tx.devices[id].(fingerprint := i.fingerprint)]);
      } else {
        if |DevicesOf(tx.devices, i.keyHash)| >= tx.keys[i.keyHash].maxDevices {
          return Err(SlotsFull);
        }
        deviceId := i.deviceId;
        if deviceId in tx.devices || exists id :: id in tx.devices && tx.devices[id].pubkey == i.pubkey {
          return Err(Database);
        }
        tx := tx.(devices := tx.devices[deviceId := DeviceRow(i.keyHash, i.pubkey, i.fingerprint)]);
      }
      var bound;
      bound, tx := BindDeviceToRelays(tx, deviceId);
      if !bound {
        return Err(Database);
      }
      db := tx;
      return Ok(deviceId);
    }

    /** Gives the device an address on every relay, keeping the one it holds. */
    static method BindDeviceToRelays(db: Db, dev: string) returns (ok: bool, tx: Db)
      ensures ok ==> Bound(db, dev, tx)
      ensures !ok <==> exists id :: id in db.relays && PoolFull(db, id)
    {
      tx := db;
      var rest := db.relays.Keys;
      while rest != {}
        invariant rest <= db.relays.Keys
        invariant BoundSoFar(db, dev, db.relays.Keys - rest, tx)
        invariant forall id :: id in db.relays && id !in rest ==> !PoolFull(db, id)
      {
        var id :| id in rest;
        var octet := db.relays[id].octet;
        SameHeld(db, dev, db.relays.Keys - rest, tx, id);
        if n :| 1 <= n <= POOL && !Held(tx, id, HostAddress(octet, n)) {
          if (dev, id) !in tx.bindings {
            tx := tx.(bindings := tx.bindings[(dev, id) := HostAddress(octet, n)]);
          }
          assert !Held(db, id, HostAddress(octet, n));
        } else {
          assert PoolFull(db, id);
          return false, tx;
        }
        rest := rest - {id};
      }
      ok := true;
    }

    method RecordStatus(relayId: string, now: int)
      modifies this
      ensures db == StatusRecorded(old(db), relayId, now)
    {
      if relayId in db.relays {
        var row := db.relays[relayId];
        row := row.(lastSeen := Some(now), status := if row.reachableAt.Some? then Up else row.status);
        db := db.(relays := db.relays[relayId := row]);
      }
    }

    method RecordReachability(keyHash: string, pubkey: string, ok: bool, now: int) returns (r: Result<(), Error>)
      modifies this
      ensures db == ReachabilityRecorded(old(db), keyHash, pubkey, ok, now)
      ensures r == Err(UnknownKey) <==> forall id :: id in old(db).relays ==> !MayReport(old(db), id, keyHash, pubkey)
    {
      var hit := exists id :: id in db.relays && MayReport(db, id, keyHash, pubkey);
      db := db.(relays := map id | id in db.relays ::
                if MayReport(db, id, keyHash, pubkey) then
                  (if ok then db.relays[id].(reachableAt := Some(now), status := Up)
                   else db.relays[id].(status := Unreachable))
                else db.relays[id]);
      return if hit then Ok(()) else Err(UnknownKey);
    }

    method MarkStaleRelaysDown(after: int, now: int)
      modifies this
      ensures db == StaleMarked(old(db), after, now)
    {
      db := db.(relays := map id | id in db.relays ::
                if IsStale(db.relays[id], after, now) then db.relays[id].(status := Down) else db.relays[id]);
    }

    method ReleaseDevice(keyHash: string, deviceId: string) returns (r: Result<(), Error>)
      modifies this
      ensures if deviceId in old(db).devices && old(db).devices[deviceId].keyHash == keyHash
              then r == Ok(()) && db == DeviceDeleted(old(db), deviceId)
              else r == Err(UnknownKey) && db == old(db)
    {
      if deviceId !in db.devices || db.devices[deviceId].keyHash != keyHash {
        return Err(UnknownKey);
      }
      // The schema's cascade takes the bindings.
      db := db.(devices := db.devices - {deviceId},
                bindings := map k | k in db.bindings && k.0 != deviceId :: db.bindings[k]);
      return Ok(());
    }

    /** The peers a relay must accept, in the order of their keys. */
    method DesiredState(relayId: string) returns (peers: seq<Peer>)
      requires Inv(db)
      ensures PeerList(db, relayId, peers)
      ensures forall i, j :: 0 <= i < j < |peers| ==> Text.Leq(peers[i].publicKey, peers[j].publicKey)
    {
      assert BindingsDistinct(db.bindings);
      var list := ListPeers(db, relayId);
      ByKeyIsOrder();
      peers := Sort(list, ByKey);
      SameMembers(peers, list);
      PermutationKeepsNoDuplicates(peers, list);
      assert forall i, j :: 0 <= i < j < |peers| ==> ByKey(peers[i], peers[j]);
    }

    static method ListPeers(db: Db, relayId: string) returns (peers: seq<Peer>)
      requires BindingsDistinct(db.bindings)
      ensures PeerList(db, relayId, peers)
    {
      peers := [];
      var rest := db.bindings.Keys;
      while rest != {}
        invariant rest <= db.bindings.Keys
        invariant forall p :: p in peers ==> InRows(db, relayId, db.bindings.Keys - rest, p)
        invariant forall k :: k in db.bindings && k !in rest && Served(db, k, relayId) ==> PeerAt(db, k) in peers
        invariant NoDuplicates(peers)
      {
        var k :| k in rest;
        if Served(db, k, relayId) {
          RowsDiffer(db, relayId, db.bindings.Keys - rest, k);
          peers := peers + [PeerAt(db, k)];
        }
        rest := rest - {k};
      }
    }

    /** What a device may use now: its row is looked up under its key, then the relays it
        is bound to are gone through. */
    method Session(keyHash: string, pubkey: string, now: int) returns (r: Result<seq<Offer>, Error>)
      requires Inv(db)
      ensures r.Err? ==> SessionOf(db, keyHash, pubkey, now) == Err(r.error)
      ensures r.Ok? ==> NoDuplicates(r.value) && SessionOf(db, keyHash, pubkey, now) == Ok(Elements(r.value))
    {
      var rest := db.devices.Keys;
      while rest != {}
        invariant rest <= db.devices.Keys
        invariant forall d :: d in db.devices && d !in rest ==> !OwnsDevice(db, d, keyHash, pubkey)
      {
        var dev :| dev in rest;
        if OwnsDevice(db, dev, keyHash, pubkey) {
          var offers := ListOffers(db, dev, now);
          assert DeviceKeys(db.devices);
          OffersOfOne(db, dev, keyHash, pubkey, now);
          return Ok(offers);
        }
        rest := rest - {dev};
      }
      return Err(UnknownKey);
    }

    static method ListOffers(db: Db, dev: string, now: int) returns (offers: seq<Offer>)
      ensures NoDuplicates(offers) && Elements(offers) == OffersTo(db, dev, now)
    {
      offers := [];
      var rest := db.relays.Keys;
      while rest != {}
        invariant rest <= db.relays.Keys && NoDuplicates(offers)
        invariant forall o :: o in offers ==> o in OffersTo(db, dev, now) && o.relayId !in rest
        invariant forall id :: id in db.relays && id !in rest && Offered(db, dev, id, now) ==> OfferAt(db, dev, id) in offers
      {
        var id :| id in rest;
        if Offered(db, dev, id, now) {
          offers := offers + [OfferAt(db, dev, id)];
        }
        rest := rest - {id};
      }
    }
  }

  // ----- what each transaction means

  predicate IsRelay(db: Db, id: string, i: Registration)
    requires id in db.relays
  {
    db.relays[id].pubkey == i.pubkey && db.relays[id].keyHash == i.keyHash
  }

  predicate IsDevice(db: Db, id: string, i: Activation)
    requires id in db.devices
  {
    db.devices[id].pubkey == i.pubkey && db.devices[id].keyHash == i.keyHash
  }

  ghost predicate KnownRelay(db: Db, i: Registration) {
    exists id :: id in db.relays && IsRelay(db, id, i)
  }

  ghost predicate KnownDevice(db: Db, i: Activation) {
    exists id :: id in db.devices && IsDevice(db, id, i)
  }

  function NewRelay(i: Registration, octet: int): RelayRow {
    RelayRow(i.keyHash, i.pubkey, i.endpoint, i.token, octet, Pending, None, None, i.now + TRUST_WINDOW)
  }

  /** Re-registering keeps id and subnet and rotates the token; a new relay takes the next
      subnet of the sequence, which a rejected insert still consumes. */
  ghost predicate Registered(db: Db, i: Registration, t: Db, r: Result<(string, int), Error>) {
    if !KeyActive(db, i.keyHash) then t == db && r == Err(UnknownKey)
    else if KnownRelay(db, i) then
      exists id :: id in db.relays && IsRelay(db, id, i) &&
        if TokenTaken(db, i.token, Some(id)) then t == db && r == Err(Database)
        else
          && t == db.(relays := db.relays[id := db.relays[id].(token := i.token, endpoint := i.endpoint)])
          && r == Ok((id, db.relays[id].octet))
    else if |RelaysOf(db.relays, i.keyHash)| >= MAX_RELAYS_PER_KEY then t == db && r == Err(TooManyRelays)
    else if exists id :: id in db.relays && db.relays[id].pubkey == i.pubkey then t == db && r == Err(UnknownKey)
    else if db.lastOctet >= LAST_OCTET then t == db && r == Err(Database)
    else
      var o := db.lastOctet + 1;
      if i.relayId in db.relays || TokenTaken(db, i.token, None) then
        t == db.(lastOctet := o) && r == Err(Database)
      else
        && t == db.(relays := db.relays[i.relayId := NewRelay(i, o)], lastOctet := o,
                    issued := db.issued + [(i.relayId, o)])
        && r == Ok((i.relayId, o))
  }

  /** Only bindings of the device are added, one on each relay of `done` that had none,
      each an address of that relay's pool nobody held. */
  ghost predicate BoundSoFar(db: Db, dev: string, done: set<string>, t: Db) {
    && t == db.(bindings := t.bindings)
    && (forall k :: k in db.bindings ==> k in t.bindings && t.bindings[k] == db.bindings[k])
    && (forall k :: k in t.bindings && k !in db.bindings ==>
          k.0 == dev && k.1 in done && k.1 in db.relays && Allocatable(db, k.1, t.bindings[k]))
    && (forall id :: id in done ==> (dev, id) in t.bindings)
  }

  ghost predicate Bound(db: Db, dev: string, t: Db) {
    BoundSoFar(db, dev, db.relays.Keys, t)
  }

  lemma SameHeld(db: Db, dev: string, done: set<string>, t: Db, id: string)
    requires BoundSoFar(db, dev, done, t) && id !in done
    ensures forall ip :: Held(t, id, ip) <==> Held(db, id, ip)
  {
    forall ip ensures Held(t, id, ip) <==> Held(db, id, ip) {
      if k :| k in db.bindings && k.1 == id && db.bindings[k] == ip { assert k in t.bindings; }
      if k :| k in t.bindings && k.1 == id && t.bindings[k] == ip { assert k in db.bindings; }
    }
  }

  function WithDevice(db: Db, id: string, row: DeviceRow): Db {
    db.(devices := db.devices[id := row])
  }

  ghost predicate AnyPoolFull(db: Db) {
    exists id :: id in db.relays && PoolFull(db, id)
  }

  /** Re-activating consumes nothing; a new device takes a slot; either way it ends bound
      to every relay, unless some relay's pool is full, which undoes the whole. */
  ghost predicate Activated(db: Db, i: Activation, t: Db, r: Result<string, Error>) {
    if !KeyActive(db, i.keyHash) then t == db && r == Err(UnknownKey)
    else if KnownDevice(db, i) then
      exists id :: id in db.devices && IsDevice(db, id, i) &&
        if AnyPoolFull(db) then t == db && r == Err(Database)
        else r == Ok(id) && Bound(WithDevice(db, id, db.devices[id].(fingerprint := i.fingerprint)), id, t)
    else if |DevicesOf(db.devices, i.keyHash)| >= db.keys[i.keyHash].maxDevices then t == db && r == Err(SlotsFull)
    else if i.deviceId in db.devices || (exists id :: id in db.devices && db.devices[id].pubkey == i.pubkey) then
      t == db && r == Err(Database)
    else if AnyPoolFull(db) then t == db && r == Err(Database)
    else
      && r == Ok(i.deviceId)
      && Bound(WithDevice(db, i.deviceId, DeviceRow(i.keyHash, i.pubkey, i.fingerprint)), i.deviceId, t)
  }

  function StatusRecorded(db: Db, relayId: string, now: int): Db {
    if relayId !in db.relays then db
    else
      var row := db.relays[relayId];
      db.(relays := db.relays[relayId := row.(lastSeen := Some(now),
                                              status := if row.reachableAt.Some? then Up else row.status)])
  }

  predicate MayReport(db: Db, id: string, keyHash: string, pubkey: string)
    requires id in db.relays
  {
    db.relays[id].pubkey == pubkey && db.relays[id].keyHash == keyHash && KeyActive(db, keyHash)
  }

  function ReachabilityRecorded(db: Db, keyHash: string, pubkey: string, ok: bool, now: int): Db {
    db.(relays := map id | id in db.relays ::
        if !MayReport(db, id, keyHash, pubkey) then db.relays[id]
        else if ok then db.relays[id].(reachableAt := Some(now), status := Up)
        else db.relays[id].(status := Unreachable))
  }

  predicate IsStale(row: RelayRow, after: int, now: int) {
    row.status == Up && (row.lastSeen.None? || row.lastSeen.value < now - after)
  }

  function StaleMarked(db: Db, after: int, now: int): Db {
    db.(relays := map id | id in db.relays ::
        if IsStale(db.relays[id], after, now) then db.relays[id].(status := Down) else db.relays[id])
  }

  function DeviceDeleted(db: Db, deviceId: string): Db {
    db.(devices := db.devices - {deviceId},
        bindings := map k | k in db.bindings && k.0 != deviceId :: db.bindings[k])
  }

  // What an operator does by hand, as the runbook gives it.

  function KeyRevoked(db: Db, k: string): Db {
    if k in db.keys then db.(keys := db.keys[k := db.keys[k].(active := false)]) else db
  }

  function KeyCreated(db: Db, k: string): Db {
    if k in db.keys then db else db.(keys := db.keys[k := KeyRow(true, DEFAULT_MAX_DEVICES)])
  }

  function RelayDeleted(db: Db, relayId: string): Db {
    db.(relays := db.relays - {relayId},
        bindings := map k | k in db.bindings && k.1 != relayId :: db.bindings[k])
  }

  // ----- queries

  predicate OwnsDevice(db: Db, id: string, keyHash: string, pubkey: string)
    requires id in db.devices
  {
    db.devices[id].pubkey == pubkey && db.devices[id].keyHash == keyHash && KeyActive(db, keyHash)
  }

  predicate Offered(db: Db, dev: string, id: string, now: int)
    requires id in db.relays
  {
    && (dev, id) in db.bindings
    && KeyActive(db, db.relays[id].keyHash)
    && db.relays[id].status == Up
    && db.relays[id].trustedAfter <= now
  }

  function OfferAt(db: Db, dev: string, id: string): Offer
    requires id in db.relays && (dev, id) in db.bindings
  {
    Offer(id, db.relays[id].endpoint, db.relays[id].pubkey, db.bindings[(dev, id)])
  }

  ghost function OffersTo(db: Db, dev: string, now: int): set<Offer> {
    set id | id in db.relays && Offered(db, dev, id, now) :: OfferAt(db, dev, id)
  }

  /** The relays a device may use, filtered and not ranked. */
  ghost function SessionOf(db: Db, keyHash: string, pubkey: string, now: int): Result<set<Offer>, Error> {
    if !exists id :: id in db.devices && OwnsDevice(db, id, keyHash, pubkey) then Err(UnknownKey)
    else Ok(set dev, id | dev in db.devices && OwnsDevice(db, dev, keyHash, pubkey)
                          && id in db.relays && Offered(db, dev, id, now) :: OfferAt(db, dev, id))
  }

  /** Public keys are unique, so the one device found is the only one. */
  lemma OffersOfOne(db: Db, dev: string, keyHash: string, pubkey: string, now: int)
    requires DeviceKeys(db.devices) && dev in db.devices && OwnsDevice(db, dev, keyHash, pubkey)
    ensures SessionOf(db, keyHash, pubkey, now) == Ok(OffersTo(db, dev, now))
  {
    forall d | d in db.devices && OwnsDevice(db, d, keyHash, pubkey) ensures d == dev {}
    var all := SessionOf(db, keyHash, pubkey, now).value;
    forall o ensures o in all <==> o in OffersTo(db, dev, now) {
      if o in OffersTo(db, dev, now) {
        var id :| id in db.relays && Offered(db, dev, id, now) && o == OfferAt(db, dev, id);
      }
    }
    assert all == OffersTo(db, dev, now);
    assert SessionOf(db, keyHash, pubkey, now) == Ok(all);
  }

  predicate Served(db: Db, k: Binding, relayId: string) {
    && k in db.bindings && k.1 == relayId
    && k.0 in db.devices && KeyActive(db, db.devices[k.0].keyHash)
    && relayId in db.relays && KeyActive(db, db.relays[relayId].keyHash)
  }

  /** The peers a relay must accept, as the query joins them. */
  function DesiredPeers(db: Db, relayId: string): set<Peer> {
    set k | k in db.bindings && Served(db, k, relayId) :: PeerAt(db, k)
  }

  function PeerAt(db: Db, k: Binding): Peer
    requires k in db.bindings && k.0 in db.devices
  {
    Peer(db.devices[k.0].pubkey, db.bindings[k])
  }

  ghost predicate InRows(db: Db, relayId: string, rows: set<Binding>, p: Peer) {
    exists k :: k in rows && Served(db, k, relayId) && PeerAt(db, k) == p
  }

  lemma RowsDiffer(db: Db, relayId: string, rows: set<Binding>, k: Binding)
    requires BindingsDistinct(db.bindings) && k !in rows && Served(db, k, relayId)
    ensures !InRows(db, relayId, rows, PeerAt(db, k))
  {
  }

  ghost predicate PeerList(db: Db, relayId: string, peers: seq<Peer>) {
    NoDuplicates(peers) && forall p :: p in peers <==> p in DesiredPeers(db, relayId)
  }

  predicate ByKey(p: Peer, q: Peer) {
    Text.Leq(p.publicKey, q.publicKey)
  }

  lemma ByKeyIsOrder()
    ensures TotalPreorder(ByKey)
  {
    Text.LeqIsOrder();
    forall p, q ensures ByKey(p, q) || ByKey(q, p) { Text.LeqTotal(p.publicKey, q.publicKey); }
    forall p, q, r | ByKey(p, q) && ByKey(q, r) ensures ByKey(p, r) {
      Text.LeqTransitive(p.publicKey, q.publicKey, r.publicKey);
    }
  }

  // ----- the invariant

  /** Every relay holds a subnet issued to it; no subnet was ever issued twice. */
  ghost predicate Subnets(relays: map<string, RelayRow>, issued: seq<(string, int)>, lastOctet: int) {
    && FIRST_OCTET - 1 <= lastOctet <= LAST_OCTET
    && (forall id :: id in relays ==> (id, relays[id].octet) in issued)
    && (forall n, m :: 0 <= n < m < |issued| ==> issued[n].1 < issued[m].1)
    && (forall n :: 0 <= n < |issued| ==> FIRST_OCTET <= issued[n].1 <= lastOctet)
  }

  ghost predicate RelayKeys(relays: map<string, RelayRow>) {
    forall a, b :: a in relays && b in relays && a != b ==>
      relays[a].pubkey != relays[b].pubkey && relays[a].token != relays[b].token
  }

  /** Only a relay reached from outside is up. */
  ghost predicate UpMeansReached(relays: map<string, RelayRow>) {
    forall id :: id in relays && relays[id].status == Up ==> relays[id].reachableAt.Some?
  }

  ghost predicate RelayCounts(relays: map<string, RelayRow>) {
    forall k :: |RelaysOf(relays, k)| <= MAX_RELAYS_PER_KEY
  }

  ghost predicate DeviceKeys(devices: map<string, DeviceRow>) {
    forall a, b :: a in devices && b in devices && a != b ==> devices[a].pubkey != devices[b].pubkey
  }

  ghost predicate DeviceCounts(devices: map<string, DeviceRow>, keys: map<string, KeyRow>) {
    && (forall id :: id in devices ==> devices[id].keyHash in keys)
    && (forall k :: k in keys ==> |DevicesOf(devices, k)| <= keys[k].maxDevices)
  }

  ghost predicate InPool(octet: int, ip: InnerIP) {
    exists n :: 1 <= n <= POOL && ip == HostAddress(octet, n)
  }

  ghost predicate BindingsSound(bindings: map<Binding, InnerIP>, relays: map<string, RelayRow>,
                                devices: map<string, DeviceRow>) {
    forall k :: k in bindings ==>
      k.0 in devices && k.1 in relays && InPool(relays[k.1].octet, bindings[k])
  }

  ghost predicate BindingsDistinct(bindings: map<Binding, InnerIP>) {
    forall k, l :: k in bindings && l in bindings && k != l && k.1 == l.1 ==> bindings[k] != bindings[l]
  }

  ghost predicate Inv(db: Db) {
    && Subnets(db.relays, db.issued, db.lastOctet)
    && RelayKeys(db.relays) && UpMeansReached(db.relays) && RelayCounts(db.relays)
    && DeviceKeys(db.devices) && DeviceCounts(db.devices, db.keys)
    && BindingsSound(db.bindings, db.relays, db.devices) && BindingsDistinct(db.bindings)
  }
}
