/** What holds in every reachable state of the store. */
module ControlRuns {
  import opened Wrappers
  import opened Api
  import opened Control

  datatype Op =
    | CreateKey(k: string)
    | RevokeKey(k: string)
    | DeleteRelay(relayId: string)
    | Register(r: Registration)
    | Activate(a: Activation)
    | Release(keyHash: string, deviceId: string)
    | ReportStatus(relayId: string, now: int)
    | ReportReachability(keyHash: string, pubkey: string, ok: bool, now: int)
    | MarkStale(after: int, now: int)

  /** One transaction, or one statement of the operator. */
  ghost predicate Next(db: Db, op: Op, t: Db) {
    match op
    case CreateKey(k) => t == KeyCreated(db, k)
    case RevokeKey(k) => t == KeyRevoked(db, k)
    case DeleteRelay(id) => t == RelayDeleted(db, id)
    case Register(i) => exists r :: Registered(db, i, t, r)
    case Activate(i) => exists r :: Activated(db, i, t, r)
    case Release(k, dev) =>
      t == if dev in db.devices && db.devices[dev].keyHash == k then DeviceDeleted(db, dev) else db
    case ReportStatus(id, now) => t == StatusRecorded(db, id, now)
    case ReportReachability(k, p, ok, now) => t == ReachabilityRecorded(db, k, p, ok, now)
    case MarkStale(after, now) => t == StaleMarked(db, after, now)
  }

  const EMPTY := Db(map[], map[], map[], map[], FIRST_OCTET - 1, [])

  /** A history of the store from its empty schema. */
  ghost predicate History(dbs: seq<Db>, ops: seq<Op>) {
    && |dbs| == |ops| + 1
    && dbs[0] == EMPTY
    && forall n :: 0 <= n < |ops| ==> Next(dbs[n], ops[n], dbs[n + 1])
  }

  // ----- the address pool

  /** The pool query lists 65000 different hosts of the /16, none of them the relay's own
      .0.1 and none ending in .0 or .255. */
  lemma HostAddressesAreSound(octet: int, n: int, m: int)
    requires 1 <= n <= POOL && 1 <= m <= POOL
    ensures var h := HostAddress(octet, n);
      h.a == 10 && h.b == octet && 0 <= h.c <= 255 && 1 <= h.d <= 254 && (h.c, h.d) != (0, 1)
    ensures HostAddress(octet, n) == HostAddress(octet, m) ==> n == m
  {
    assert n == 254 * (n / 254) + n % 254 && m == 254 * (m / 254) + m % 254;
  }

  // ----- the invariant is kept

  lemma SubsetCount(a: set<string>, b: set<string>)
    requires a <= b
    ensures |a| <= |b|
  {
    assert b == a + (b - a);
  }

  /** Rows were updated, but not what identifies a relay and where it sits. */
  ghost predicate SameRelays(prior: map<string, RelayRow>, relays: map<string, RelayRow>) {
    && relays.Keys <= prior.Keys
    && forall id :: id in relays ==> SameRow(prior[id], relays[id])
  }

  predicate SameRow(a: RelayRow, b: RelayRow) {
    a.keyHash == b.keyHash && a.pubkey == b.pubkey && a.octet == b.octet && a.trustedAfter == b.trustedAfter
  }

  lemma SubnetsKept(prior: map<string, RelayRow>, relays: map<string, RelayRow>, issued: seq<(string, int)>, last: int)
    requires Subnets(prior, issued, last) && SameRelays(prior, relays)
    ensures Subnets(relays, issued, last)
  {
  }

  lemma CountsKept(prior: map<string, RelayRow>, relays: map<string, RelayRow>)
    requires RelayCounts(prior) && SameRelays(prior, relays)
    ensures RelayCounts(relays)
  {
    forall k ensures |RelaysOf(relays, k)| <= MAX_RELAYS_PER_KEY {
      SubsetCount(RelaysOf(relays, k), RelaysOf(prior, k));
    }
  }

  lemma BindingsKept(bindings: map<Binding, InnerIP>, prior: map<string, RelayRow>, relays: map<string, RelayRow>,
                     devices: map<string, DeviceRow>)
    requires BindingsSound(bindings, prior, devices) && SameRelays(prior, relays) && relays.Keys == prior.Keys
    ensures BindingsSound(bindings, relays, devices)
  {
  }

  lemma RowsUpdatedInv(db: Db, relays: map<string, RelayRow>)
    requires Inv(db) && SameRelays(db.relays, relays) && relays.Keys == db.relays.Keys
    requires UpMeansReached(relays) && RelayKeys(relays)
    ensures Inv(db.(relays := relays))
  {
    hide Subnets, RelayKeys, UpMeansReached, RelayCounts, DeviceKeys, DeviceCounts, BindingsSound, BindingsDistinct;
    hide SameRelays;
    SubnetsKept(db.relays, relays, db.issued, db.lastOctet);
    CountsKept(db.relays, relays);
    BindingsKept(db.bindings, db.relays, relays, db.devices);
  }

  lemma NewRelaySubnet(prior: map<string, RelayRow>, issued: seq<(string, int)>, last: int, i: Registration)
    requires Subnets(prior, issued, last) && last + 1 <= LAST_OCTET
    ensures Subnets(prior[i.relayId := NewRelay(i, last + 1)], issued + [(i.relayId, last + 1)], last + 1)
  {
    var relays, all := prior[i.relayId := NewRelay(i, last + 1)], issued + [(i.relayId, last + 1)];
    assert all[|issued|] == (i.relayId, last + 1);
    forall id | id in relays ensures (id, relays[id].octet) in all {
      if id != i.relayId { assert (id, prior[id].octet) in issued; }
    }
  }

  lemma NewRelayCounts(prior: map<string, RelayRow>, id: string, row: RelayRow)
    requires RelayCounts(prior) && id !in prior && |RelaysOf(prior, row.keyHash)| < MAX_RELAYS_PER_KEY
    ensures RelayCounts(prior[id := row])
  {
    var relays := prior[id := row];
    forall k ensures |RelaysOf(relays, k)| <= MAX_RELAYS_PER_KEY {
      RelaysWith(prior, id, row, k);
    }
  }

  lemma RelaysWith(prior: map<string, RelayRow>, id: string, row: RelayRow, k: string)
    requires id !in prior
    ensures RelaysOf(prior[id := row], k) == RelaysOf(prior, k) + if k == row.keyHash then {id} else {}
  {
  }

  lemma NewRelayKeys(db: Db, i: Registration, o: int)
    requires RelayKeys(db.relays) && UpMeansReached(db.relays) && !TokenTaken(db, i.token, None)
    requires forall id :: id in db.relays ==> db.relays[id].pubkey != i.pubkey
    ensures RelayKeys(db.relays[i.relayId := NewRelay(i, o)]) && UpMeansReached(db.relays[i.relayId := NewRelay(i, o)])
  {
  }

  lemma NewRelayBindings(bindings: map<Binding, InnerIP>, prior: map<string, RelayRow>, id: string, row: RelayRow,
                         devices: map<string, DeviceRow>)
    requires BindingsSound(bindings, prior, devices) && id !in prior
    ensures BindingsSound(bindings, prior[id := row], devices)
  {
  }

  lemma NewRelayInv(db: Db, i: Registration)
    requires Inv(db) && db.lastOctet + 1 <= LAST_OCTET
    requires i.relayId !in db.relays && !TokenTaken(db, i.token, None)
    requires forall id :: id in db.relays ==> db.relays[id].pubkey != i.pubkey
    requires |RelaysOf(db.relays, i.keyHash)| < MAX_RELAYS_PER_KEY
    ensures var o := db.lastOctet + 1;
      Inv(db.(relays := db.relays[i.relayId := NewRelay(i, o)], lastOctet := o, issued := db.issued + [(i.relayId, o)]))
  {
    hide Subnets, RelayKeys, UpMeansReached, RelayCounts, DeviceKeys, DeviceCounts, BindingsSound, BindingsDistinct;
    var row := NewRelay(i, db.lastOctet + 1);
    NewRelaySubnet(db.relays, db.issued, db.lastOctet, i);
    NewRelayCounts(db.relays, i.relayId, row);
    NewRelayKeys(db, i, db.lastOctet + 1);
    NewRelayBindings(db.bindings, db.relays, i.relayId, row, db.devices);
  }

  lemma RotatedKeys(prior: map<string, RelayRow>, id: string, row: RelayRow)
    requires RelayKeys(prior) && UpMeansReached(prior) && id in prior
    requires row == prior[id].(token := row.token, endpoint := row.endpoint)
    requires forall other :: other in prior && other != id ==> prior[other].token != row.token
    ensures RelayKeys(prior[id := row]) && UpMeansReached(prior[id := row]) && SameRelays(prior, prior[id := row])
  {
  }

  lemma RotatedInv(db: Db, id: string, token: string, endpoint: string)
    requires Inv(db) && id in db.relays && !TokenTaken(db, token, Some(id))
    ensures Inv(db.(relays := db.relays[id := db.relays[id].(token := token, endpoint := endpoint)]))
  {
    hide Subnets, RelayKeys, UpMeansReached, RelayCounts, DeviceKeys, DeviceCounts, BindingsSound, BindingsDistinct;
    var row := db.relays[id].(token := token, endpoint := endpoint);
    RotatedKeys(db.relays, id, row);
    RowsUpdatedInv(db, db.relays[id := row]);
  }

  lemma SkippedInv(db: Db)
    requires Inv(db) && db.lastOctet + 1 <= LAST_OCTET
    ensures Inv(db.(lastOctet := db.lastOctet + 1))
  {
    hide RelayKeys, UpMeansReached, RelayCounts, DeviceKeys, DeviceCounts, BindingsSound, BindingsDistinct;
  }

  lemma RegisterInv(db: Db, i: Registration, t: Db, r: Result<(string, int), Error>)
    requires Inv(db) && Registered(db, i, t, r)
    ensures Inv(t)
  {
    hide Inv;
    if t != db {
      if KnownRelay(db, i) {
        RotatedInv(db, r.value.0, i.token, i.endpoint);
      } else if r.Err? {
        assert Subnets(db.relays, db.issued, db.lastOctet) by { InvHasSubnets(db); }
        SkippedInv(db);
      } else {
        NewRelayInv(db, i);
      }
    }
  }

  lemma InvHasSubnets(db: Db)
    requires Inv(db)
    ensures Subnets(db.relays, db.issued, db.lastOctet)
  {
  }

  lemma BoundInv(db: Db, dev: string, t: Db)
    requires Inv(db) && dev in db.devices && Bound(db, dev, t)
    ensures Inv(t)
  {
    hide Subnets, RelayCounts, RelayKeys, UpMeansReached, DeviceKeys, DeviceCounts;
    forall k, l | k in t.bindings && l in t.bindings && k != l && k.1 == l.1 ensures t.bindings[k] != t.bindings[l] {
      assert k in db.bindings ==> Held(db, k.1, t.bindings[k]);
      assert l in db.bindings ==> Held(db, l.1, t.bindings[l]);
    }
    forall k | k in t.bindings ensures k.0 in t.devices && k.1 in t.relays && InPool(t.relays[k.1].octet, t.bindings[k]) {
    }
  }

  lemma DeviceAddedCounts(prior: map<string, DeviceRow>, keys: map<string, KeyRow>, id: string, row: DeviceRow)
    requires DeviceCounts(prior, keys) && row.keyHash in keys
    requires if id in prior then prior[id].keyHash == row.keyHash
             else |DevicesOf(prior, row.keyHash)| < keys[row.keyHash].maxDevices
    ensures DeviceCounts(prior[id := row], keys)
  {
    forall k | k in keys ensures |DevicesOf(prior[id := row], k)| <= keys[k].maxDevices {
      DevicesWith(prior, id, row, k);
    }
  }

  lemma DevicesWith(prior: map<string, DeviceRow>, id: string, row: DeviceRow, k: string)
    requires id in prior ==> prior[id].keyHash == row.keyHash
    ensures DevicesOf(prior[id := row], k) == DevicesOf(prior, k) + if k == row.keyHash then {id} else {}
    ensures k == row.keyHash && id in prior ==> DevicesOf(prior[id := row], k) == DevicesOf(prior, k)
  {
  }

  lemma DeviceAddedKeys(prior: map<string, DeviceRow>, id: string, row: DeviceRow)
    requires DeviceKeys(prior)
    requires if id in prior then prior[id].pubkey == row.pubkey
             else forall d :: d in prior ==> prior[d].pubkey != row.pubkey
    ensures DeviceKeys(prior[id := row])
  {
  }

  lemma DeviceAddedBindings(bindings: map<Binding, InnerIP>, relays: map<string, RelayRow>,
                            prior: map<string, DeviceRow>, id: string, row: DeviceRow)
    requires BindingsSound(bindings, relays, prior)
    ensures BindingsSound(bindings, relays, prior[id := row])
  {
  }

  lemma DeviceAdded(db: Db, id: string, row: DeviceRow)
    requires Inv(db) && row.keyHash in db.keys
    requires if id in db.devices then db.devices[id].keyHash == row.keyHash && db.devices[id].pubkey == row.pubkey
             else (forall d :: d in db.devices ==> db.devices[d].pubkey != row.pubkey)
                  && |DevicesOf(db.devices, row.keyHash)| < db.keys[row.keyHash].maxDevices
    ensures Inv(WithDevice(db, id, row))
  {
    hide Subnets, RelayKeys, UpMeansReached, RelayCounts, DeviceKeys, DeviceCounts, BindingsSound, BindingsDistinct;
    DeviceAddedCounts(db.devices, db.keys, id, row);
    DeviceAddedKeys(db.devices, id, row);
    DeviceAddedBindings(db.bindings, db.relays, db.devices, id, row);
  }

  lemma ActivateInv(db: Db, i: Activation, t: Db, r: Result<string, Error>)
    requires Inv(db) && Activated(db, i, t, r)
    ensures Inv(t)
  {
    if r.Ok? {
      var id := r.value;
      var row := if id in db.devices then db.devices[id].(fingerprint := i.fingerprint)
                 else DeviceRow(i.keyHash, i.pubkey, i.fingerprint);
      hide Inv;
      hide Bound;
      DeviceAdded(db, id, row);
      BoundInv(WithDevice(db, id, row), id, t);
    }
  }

  lemma RelayDeletedRows(prior: map<string, RelayRow>, id: string)
    requires RelayKeys(prior) && UpMeansReached(prior)
    ensures RelayKeys(prior - {id}) && UpMeansReached(prior - {id}) && SameRelays(prior, prior - {id})
  {
  }

  lemma FewerBindings(db: Db, t: Db)
    requires BindingsSound(db.bindings, db.relays, db.devices) && BindingsDistinct(db.bindings)
    requires forall k :: k in t.bindings ==>
      && k in db.bindings && t.bindings[k] == db.bindings[k]
      && (k.0 in db.devices ==> k.0 in t.devices)
      && (k.1 in db.relays ==> k.1 in t.relays && t.relays[k.1] == db.relays[k.1])
    ensures BindingsSound(t.bindings, t.relays, t.devices) && BindingsDistinct(t.bindings)
  {
  }

  lemma RelayDeletedInv(db: Db, id: string)
    requires Inv(db)
    ensures Inv(RelayDeleted(db, id))
  {
    hide Subnets, RelayKeys, UpMeansReached, RelayCounts, DeviceKeys, DeviceCounts, BindingsSound, BindingsDistinct;
    RelayDeletedRows(db.relays, id);
    SubnetsKept(db.relays, db.relays - {id}, db.issued, db.lastOctet);
    CountsKept(db.relays, db.relays - {id});
    FewerBindings(db, RelayDeleted(db, id));
  }

  lemma DeviceDeletedRows(prior: map<string, DeviceRow>, keys: map<string, KeyRow>, id: string)
    requires DeviceKeys(prior) && DeviceCounts(prior, keys)
    ensures DeviceKeys(prior - {id}) && DeviceCounts(prior - {id}, keys)
  {
    forall k | k in keys ensures |DevicesOf(prior - {id}, k)| <= keys[k].maxDevices {
      SubsetCount(DevicesOf(prior - {id}, k), DevicesOf(prior, k));
    }
  }

  lemma DeviceDeletedInv(db: Db, id: string)
    requires Inv(db)
    ensures Inv(DeviceDeleted(db, id))
  {
    hide Subnets, RelayKeys, UpMeansReached, RelayCounts, DeviceKeys, DeviceCounts, BindingsSound, BindingsDistinct;
    DeviceDeletedRows(db.devices, db.keys, id);
    FewerBindings(db, DeviceDeleted(db, id));
  }

  lemma KeysInv(db: Db, k: string)
    requires Inv(db)
    ensures Inv(KeyCreated(db, k)) && Inv(KeyRevoked(db, k))
  {
    hide Subnets, RelayCounts, RelayKeys, UpMeansReached, DeviceKeys, BindingsSound, BindingsDistinct;
    if k !in db.keys {
      assert DevicesOf(db.devices, k) == {};
    }
  }

  /** Reports change only status, sightings and reachability. */
  lemma ReportedRows(prior: map<string, RelayRow>, relays: map<string, RelayRow>)
    requires RelayKeys(prior) && relays.Keys == prior.Keys
    requires forall id :: id in prior ==>
      relays[id] == prior[id].(status := relays[id].status, lastSeen := relays[id].lastSeen,
                               reachableAt := relays[id].reachableAt)
    ensures RelayKeys(relays) && SameRelays(prior, relays)
  {
  }

  lemma ReportedInv(db: Db, relays: map<string, RelayRow>)
    requires Inv(db) && relays.Keys == db.relays.Keys
    requires forall id :: id in db.relays ==>
      && relays[id] == db.relays[id].(status := relays[id].status, lastSeen := relays[id].lastSeen,
                                      reachableAt := relays[id].reachableAt)
      && (relays[id].status != Up || relays[id].reachableAt.Some? ||
          (db.relays[id].status == Up && relays[id].reachableAt == db.relays[id].reachableAt))
    ensures Inv(db.(relays := relays))
  {
    ReportedRows(db.relays, relays);
    assert UpMeansReached(relays);
    hide Inv;
    RowsUpdatedInv(db, relays);
  }

  lemma NextInv(db: Db, op: Op, t: Db)
    requires Inv(db) && Next(db, op, t)
    ensures Inv(t)
  {
    hide Inv;
    hide Registered;
    hide Activated;
    match op
    case CreateKey(k) => KeysInv(db, k);
    case RevokeKey(k) => KeysInv(db, k);
    case DeleteRelay(id) => RelayDeletedInv(db, id);
    case Register(i) =>
      var r :| Registered(db, i, t, r);
      RegisterInv(db, i, t, r);
    case Activate(i) =>
      var r :| Activated(db, i, t, r);
      ActivateInv(db, i, t, r);
    case Release(k, dev) => DeviceDeletedInv(db, dev);
    case ReportStatus(id, now) => ReportedInv(db, t.relays);
    case ReportReachability(k, p, ok, now) => ReportedInv(db, t.relays);
    case MarkStale(after, now) => ReportedInv(db, t.relays);
  }

  lemma {:induction false} HistoryInv(dbs: seq<Db>, ops: seq<Op>, n: nat)
    requires History(dbs, ops) && n < |dbs|
    ensures Inv(dbs[n])
    decreases n
  {
    hide Next;
    if n == 0 {
      assert forall k :: RelaysOf(map[], k) == {};
    } else {
      HistoryInv(dbs, ops, n - 1);
      NextInv(dbs[n - 1], ops[n - 1], dbs[n]);
    }
  }

  // ----- subnets

  lemma LogGrows(db: Db, op: Op, t: Db)
    requires Next(db, op, t)
    ensures db.issued <= t.issued
  {
    match op
    case Register(i) => var r :| Registered(db, i, t, r);
    case Activate(i) => var r :| Activated(db, i, t, r);
    case _ =>
  }

  lemma {:induction false} LogGrowsAlong(dbs: seq<Db>, ops: seq<Op>, n: nat, m: nat)
    requires History(dbs, ops) && n <= m < |dbs|
    ensures dbs[n].issued <= dbs[m].issued
    decreases m
  {
    hide Next;
    if n < m {
      LogGrowsAlong(dbs, ops, n, m - 1);
      LogGrows(dbs[m - 1], ops[m - 1], dbs[m]);
    }
  }

  /** No /16 is ever given to two relays: relays of any two moments that sit in the same
      one are the same relay, whatever was deleted or re-registered in between. */
  lemma SubnetNeverShared(dbs: seq<Db>, ops: seq<Op>, n: nat, m: nat, a: string, b: string)
    requires History(dbs, ops) && n <= m < |dbs|
    requires a in dbs[n].relays && b in dbs[m].relays && dbs[n].relays[a].octet == dbs[m].relays[b].octet
    ensures a == b
    ensures FIRST_OCTET <= dbs[n].relays[a].octet <= LAST_OCTET
  {
    hide Next;
    HistoryInv(dbs, ops, n);
    HistoryInv(dbs, ops, m);
    LogGrowsAlong(dbs, ops, n, m);
    var log := dbs[m].issued;
    var i :| 0 <= i < |dbs[n].issued| && dbs[n].issued[i] == (a, dbs[n].relays[a].octet);
    var j :| 0 <= j < |log| && log[j] == (b, dbs[m].relays[b].octet);
    assert log[i] == dbs[n].issued[i];
  }

  // ----- addresses

  /** In every reachable state each address lies in its relay's /16, is nobody else's on
      that relay, is not the relay's own .0.1, and ends in neither .0 nor .255. */
  lemma AddressesAreSound(dbs: seq<Db>, ops: seq<Op>, n: nat, k: Binding)
    requires History(dbs, ops) && n < |dbs| && k in dbs[n].bindings
    ensures var (db, ip) := (dbs[n], dbs[n].bindings[k]);
      && k.0 in db.devices && k.1 in db.relays
      && ip.Slash32? && ip.a == 10 && ip.b == db.relays[k.1].octet
      && 0 <= ip.c <= 255 && 1 <= ip.d <= 254 && (ip.c, ip.d) != (0, 1)
      && forall l :: l in db.bindings && l.1 == k.1 && l != k ==> db.bindings[l] != ip
  {
    hide Next;
    HistoryInv(dbs, ops, n);
    hide Subnets, RelayKeys, UpMeansReached, RelayCounts, DeviceKeys, DeviceCounts;
    var octet := dbs[n].relays[k.1].octet;
    var i :| 1 <= i <= POOL && dbs[n].bindings[k] == HostAddress(octet, i);
    HostAddressesAreSound(octet, i, i);
  }

  /** Which steps may take an address away. */
  predicate Removes(op: Op, k: Binding) {
    (op.Release? && op.deviceId == k.0) || (op.DeleteRelay? && op.relayId == k.1)
  }

  lemma AddressKept(db: Db, op: Op, t: Db, k: Binding)
    requires Next(db, op, t) && k in db.bindings && !Removes(op, k)
    ensures k in t.bindings && t.bindings[k] == db.bindings[k]
  {
    match op
    case Register(i) => var r :| Registered(db, i, t, r);
    case Activate(i) => var r :| Activated(db, i, t, r);
    case _ =>
  }

  /** Re-activation, re-registration and everything else leave a device its addresses. */
  lemma {:induction false} AddressKeptAlong(dbs: seq<Db>, ops: seq<Op>, n: nat, m: nat, k: Binding)
    requires History(dbs, ops) && n <= m < |dbs| && k in dbs[n].bindings
    requires forall i :: n <= i < m ==> !Removes(ops[i], k)
    ensures k in dbs[m].bindings && dbs[m].bindings[k] == dbs[n].bindings[k]
    decreases m
  {
    hide Next;
    if n < m {
      AddressKeptAlong(dbs, ops, n, m - 1, k);
      AddressKept(dbs[m - 1], ops[m - 1], dbs[m], k);
    }
  }

  // ----- whose relay it is

  /** The contributor key an operation is made with, if it is made with one. */
  function ActingKey(op: Op): Option<string> {
    match op
    case Register(i) => Some(i.keyHash)
    case Activate(i) => Some(i.keyHash)
    case Release(k, _) => Some(k)
    case ReportReachability(k, _, _, _) => Some(k)
    case _ => None
  }

  /** Nobody can touch another contributor's relay: not its token, endpoint or status. */
  lemma OthersRelaysUntouched(db: Db, op: Op, t: Db, id: string)
    requires Next(db, op, t) && id in db.relays
    requires ActingKey(op).Some? && ActingKey(op) != Some(db.relays[id].keyHash)
    ensures id in t.relays && t.relays[id] == db.relays[id]
  {
    match op
    case Register(i) => var r :| Registered(db, i, t, r);
    case Activate(i) => var r :| Activated(db, i, t, r);
    case _ =>
  }

  lemma RegisterKeepsIdentity(db: Db, i: Registration, t: Db, r: Result<(string, int), Error>, id: string)
    requires Registered(db, i, t, r) && id in t.relays
    ensures id in db.relays ==> SameRow(db.relays[id], t.relays[id]) && t.relays[id].reachableAt == db.relays[id].reachableAt
    ensures id !in db.relays ==> t.relays[id] == NewRelay(i, t.lastOctet)
  {
  }

  /** A relay keeps its owner, key, subnet and trust date for life, and a new one waits
      the whole trust window. */
  lemma RelayIdentityKept(db: Db, op: Op, t: Db, id: string)
    requires Next(db, op, t) && id in t.relays
    ensures id in db.relays ==> SameRow(db.relays[id], t.relays[id])
    ensures id !in db.relays ==> op.Register? && t.relays[id] == NewRelay(op.r, t.lastOctet)
  {
    hide Registered;
    match op
    case Register(i) =>
      var r :| Registered(db, i, t, r);
      RegisterKeepsIdentity(db, i, t, r, id);
    case Activate(i) => var r :| Activated(db, i, t, r);
    case _ =>
  }

  /** However faithfully a relay syncs, only its owner's report of a handshake from outside
      makes it reached; and only a reached relay is ever up. */
  lemma ReachedOnlyByItsOwnersReport(dbs: seq<Db>, ops: seq<Op>, n: nat, id: string)
    requires History(dbs, ops) && n < |ops| && id in dbs[n + 1].relays
    requires dbs[n + 1].relays[id].reachableAt.Some?
    requires id !in dbs[n].relays || dbs[n].relays[id].reachableAt.None?
    ensures ops[n].ReportReachability? && ops[n].ok
    ensures id in dbs[n].relays && ops[n].pubkey == dbs[n].relays[id].pubkey
    ensures ops[n].keyHash == dbs[n].relays[id].keyHash && KeyActive(dbs[n], ops[n].keyHash)
  {
    assert Next(dbs[n], ops[n], dbs[n + 1]);
    ReachedStep(dbs[n], ops[n], dbs[n + 1], id);
  }

  lemma ReachedStep(db: Db, op: Op, t: Db, id: string)
    requires Next(db, op, t) && id in t.relays && t.relays[id].reachableAt.Some?
    requires id !in db.relays || db.relays[id].reachableAt.None?
    ensures op.ReportReachability? && op.ok && id in db.relays && MayReport(db, id, op.keyHash, op.pubkey)
  {
    if !op.ReportReachability? { UnreportedStaysUnreached(db, op, t, id); }
  }

  lemma UnreportedStaysUnreached(db: Db, op: Op, t: Db, id: string)
    requires Next(db, op, t) && id in t.relays && !op.ReportReachability?
    ensures t.relays[id].reachableAt.Some? ==> id in db.relays && db.relays[id].reachableAt.Some?
  {
    hide Registered;
    match op
    case Register(i) =>
      var r :| Registered(db, i, t, r);
      RegisterKeepsIdentity(db, i, t, r, id);
    case Activate(i) => var r :| Activated(db, i, t, r);
    case _ =>
  }

  // ----- offers and peers

  /** A relay offers itself to a device exactly when it serves the device as a peer, is up
      and past its trust wait; then it was reached from outside, both keys are active,
      and the address offered is the one the peer list holds. */
  lemma OfferedIffServed(dbs: seq<Db>, ops: seq<Op>, n: nat, dev: string, id: string, now: int)
    requires History(dbs, ops) && n < |dbs| && dev in dbs[n].devices && id in dbs[n].relays
    ensures var db := dbs[n];
      var (d, r) := (db.devices[dev], db.relays[id]);
      var s := SessionOf(db, d.keyHash, d.pubkey, now);
      && ((s.Ok? && exists o :: o in s.value && o.relayId == id) <==>
            (exists p :: p in DesiredPeers(db, id) && p.publicKey == d.pubkey) && r.status == Up && r.trustedAfter <= now)
      && (s.Ok? ==> forall o :: o in s.value && o.relayId == id ==>
            && Peer(d.pubkey, o.innerIP) in DesiredPeers(db, id) && o.publicKey == r.pubkey
            && r.reachableAt.Some? && KeyActive(db, d.keyHash) && KeyActive(db, r.keyHash))
  {
    hide Next;
    HistoryInv(dbs, ops, n);
    SessionOffers(dbs[n], dev, id, now);
  }

  lemma SessionOffers(db: Db, dev: string, id: string, now: int)
    requires Inv(db) && dev in db.devices && id in db.relays
    ensures var (d, r) := (db.devices[dev], db.relays[id]);
      var s := SessionOf(db, d.keyHash, d.pubkey, now);
      && ((s.Ok? && exists o :: o in s.value && o.relayId == id) <==>
            (exists p :: p in DesiredPeers(db, id) && p.publicKey == d.pubkey) && r.status == Up && r.trustedAfter <= now)
      && (s.Ok? ==> forall o :: o in s.value && o.relayId == id ==>
            && Peer(d.pubkey, o.innerIP) in DesiredPeers(db, id) && o.publicKey == r.pubkey
            && r.reachableAt.Some? && KeyActive(db, d.keyHash) && KeyActive(db, r.keyHash))
  {
    hide Subnets, RelayKeys, RelayCounts, DeviceCounts, BindingsSound, BindingsDistinct, SessionOf, DesiredPeers;
    var d, r := db.devices[dev], db.relays[id];
    var s := SessionOf(db, d.keyHash, d.pubkey, now);
    if s.Ok? {
      forall o | o in s.value && o.relayId == id
        ensures Peer(d.pubkey, o.innerIP) in DesiredPeers(db, id) && o.publicKey == r.pubkey && Offered(db, dev, id, now)
        ensures KeyActive(db, d.keyHash)
      {
        OfferMeans(db, dev, id, now, o);
      }
      if o :| o in s.value && o.relayId == id { assert Peer(d.pubkey, o.innerIP) in DesiredPeers(db, id); }
    }
    if p :| p in DesiredPeers(db, id) && p.publicKey == d.pubkey {
      PeerMeans(db, dev, id, p);
      if r.status == Up && r.trustedAfter <= now { OfferMade(db, dev, id, now); }
    }
  }

  lemma OfferMeans(db: Db, dev: string, id: string, now: int, o: Offer)
    requires DeviceKeys(db.devices) && dev in db.devices && id in db.relays && o.relayId == id
    requires var s := SessionOf(db, db.devices[dev].keyHash, db.devices[dev].pubkey, now); s.Ok? && o in s.value
    ensures Offered(db, dev, id, now) && KeyActive(db, db.devices[dev].keyHash)
    ensures o.publicKey == db.relays[id].pubkey
    ensures Peer(db.devices[dev].pubkey, o.innerIP) in DesiredPeers(db, id)
  {
    assert OwnsDevice(db, dev, db.devices[dev].keyHash, db.devices[dev].pubkey);
    assert Served(db, (dev, id), id);
    assert o.innerIP == db.bindings[(dev, id)];
    assert PeerAt(db, (dev, id)) in DesiredPeers(db, id);
  }

  lemma PeerMeans(db: Db, dev: string, id: string, p: Peer)
    requires DeviceKeys(db.devices) && dev in db.devices && p in DesiredPeers(db, id)
    requires p.publicKey == db.devices[dev].pubkey
    ensures Served(db, (dev, id), id) && p == PeerAt(db, (dev, id))
  {
    var k :| k in db.bindings && Served(db, k, id) && p == PeerAt(db, k);
    assert k == (dev, id);
  }

  lemma OfferMade(db: Db, dev: string, id: string, now: int)
    requires dev in db.devices && id in db.relays && Offered(db, dev, id, now)
    requires KeyActive(db, db.devices[dev].keyHash)
    ensures var s := SessionOf(db, db.devices[dev].keyHash, db.devices[dev].pubkey, now);
      s.Ok? && exists o :: o in s.value && o.relayId == id
  {
    var d, r := db.devices[dev], db.relays[id];
    assert OwnsDevice(db, dev, d.keyHash, d.pubkey);
    var o := Offer(id, r.endpoint, r.pubkey, db.bindings[(dev, id)]);
    assert o in SessionOf(db, d.keyHash, d.pubkey, now).value;
  }

  /** A peer list names no key and no address twice, and only single addresses. */
  lemma PeersAreDistinct(db: Db, id: string, p: Peer, q: Peer)
    requires Inv(db) && p in DesiredPeers(db, id) && q in DesiredPeers(db, id)
    ensures p.innerIP.Slash32?
    ensures p.publicKey == q.publicKey || p.innerIP == q.innerIP ==> p == q
  {
    hide Subnets, RelayKeys, UpMeansReached, RelayCounts, DeviceCounts;
    var k :| k in db.bindings && Served(db, k, id) && p == Peer(db.devices[k.0].pubkey, db.bindings[k]);
    var l :| l in db.bindings && Served(db, l, id) && q == Peer(db.devices[l.0].pubkey, db.bindings[l]);
    assert InPool(db.relays[k.1].octet, db.bindings[k]);
  }

  // ----- revocation

  predicate Revoked(db: Db, k: string) {
    k in db.keys && !db.keys[k].active
  }

  /** No operation makes a revoked key active again, nor gives it a relay or a device. */
  lemma RevokedStays(db: Db, op: Op, t: Db, k: string)
    requires Next(db, op, t) && Revoked(db, k)
    ensures Revoked(t, k)
    ensures RelaysOf(t.relays, k) <= RelaysOf(db.relays, k) && DevicesOf(t.devices, k) <= DevicesOf(db.devices, k)
  {
    match op
    case Register(i) =>
      var r :| Registered(db, i, t, r);
    case Activate(i) =>
      var r :| Activated(db, i, t, r);
      ActivateAddsForOwner(db, i, t, r);
    case _ =>
  }

  lemma ActivateAddsForOwner(db: Db, i: Activation, t: Db, r: Result<string, Error>)
    requires Activated(db, i, t, r)
    ensures t.keys == db.keys && t.relays == db.relays
    ensures forall d :: d in t.devices && t.devices[d].keyHash != i.keyHash ==>
      d in db.devices && db.devices[d].keyHash == t.devices[d].keyHash
    ensures t != db ==> KeyActive(db, i.keyHash)
  {
  }

  lemma {:induction false} RevokedForGood(dbs: seq<Db>, ops: seq<Op>, n: nat, m: nat, k: string)
    requires History(dbs, ops) && n <= m < |dbs| && Revoked(dbs[n], k)
    ensures Revoked(dbs[m], k)
    ensures RelaysOf(dbs[m].relays, k) <= RelaysOf(dbs[n].relays, k)
    ensures DevicesOf(dbs[m].devices, k) <= DevicesOf(dbs[n].devices, k)
    decreases m - n
  {
    hide Next, RelaysOf, DevicesOf;
    if n < m {
      RevokedForGood(dbs, ops, n, m - 1, k);
      RevokedStays(dbs[m - 1], ops[m - 1], dbs[m], k);
    }
  }

  /** In every state of a history from a revocation on, the key has no session, no relay
      and no device it did not have before, its devices are nobody's peers, and its relays
      serve nobody and are offered to nobody. */
  lemma RevocationReachesEverything(dbs: seq<Db>, ops: seq<Op>, n: nat, m: nat, k: string, pubkey: string, id: string, now: int)
    requires History(dbs, ops) && n < |ops| && ops[n] == RevokeKey(k) && k in dbs[n].keys && n < m < |dbs|
    ensures var t := dbs[m];
      && SessionOf(t, k, pubkey, now) == Err(UnknownKey)
      && RelaysOf(t.relays, k) <= RelaysOf(dbs[n].relays, k) && DevicesOf(t.devices, k) <= DevicesOf(dbs[n].devices, k)
      && (forall dev :: dev in t.devices && t.devices[dev].keyHash == k ==>
            forall p :: p in DesiredPeers(t, id) ==> p.publicKey != t.devices[dev].pubkey)
      && (id in t.relays && t.relays[id].keyHash == k ==>
            && DesiredPeers(t, id) == {}
            && forall j :: SessionOf(t, j, pubkey, now).Ok? ==>
                 forall o :: o in SessionOf(t, j, pubkey, now).value ==> o.relayId != id)
  {
    hide Inv, RelaysOf, DevicesOf, SessionOf, DesiredPeers;
    HistoryInv(dbs, ops, m);
    assert Next(dbs[n], ops[n], dbs[n + 1]);
    RevokedForGood(dbs, ops, n + 1, m, k);
    RevokedReaches(dbs[m], k, pubkey, id, now);
  }

  lemma RevokedReaches(t: Db, k: string, pubkey: string, id: string, now: int)
    requires Inv(t) && Revoked(t, k)
    ensures SessionOf(t, k, pubkey, now) == Err(UnknownKey)
    ensures forall dev :: dev in t.devices && t.devices[dev].keyHash == k ==>
      forall p :: p in DesiredPeers(t, id) ==> p.publicKey != t.devices[dev].pubkey
    ensures id in t.relays && t.relays[id].keyHash == k ==>
      && DesiredPeers(t, id) == {}
      && forall j :: SessionOf(t, j, pubkey, now).Ok? ==>
           forall o :: o in SessionOf(t, j, pubkey, now).value ==> o.relayId != id
  {
    hide Subnets, RelayKeys, UpMeansReached, RelayCounts, DeviceCounts, BindingsSound, BindingsDistinct;
    forall dev, p | dev in t.devices && t.devices[dev].keyHash == k && p in DesiredPeers(t, id)
      ensures p.publicKey != t.devices[dev].pubkey
    {
      var b :| b in t.bindings && Served(t, b, id) && p == Peer(t.devices[b.0].pubkey, t.bindings[b]);
    }
  }
}
