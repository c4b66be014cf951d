/** Live vehicle tracking: the `VehicleLocation` table (one row per vehicle,
    upserted by `update_vehicle_location`), the WebSocket connection registry
    (`ConnectionManager`), and the fan-out of each position update to every
    registered connection. */
module Tracking {
  import opened Common

  /** A coordinate; it is stored and echoed, never computed on. */
  type Coord(==)

  /** An accepted WebSocket connection. */
  type Socket(==)

  // ---------------------------------------------------------------------
  // The position table
  // ---------------------------------------------------------------------

  /** One row of the `VehicleLocation` table. The surrogate `id` column is
      assigned by the database and read by nobody, so it is not modelled. */
  datatype VehicleLocation = VehicleLocation(vehicleId: string, latitude: Coord, longitude: Coord, timestamp: Instant)

  /** The `VehicleLocation` table, rows in storage order. */
  type PositionTable = seq<VehicleLocation>

  /** The unique index on `vehicle_id`. */
  predicate UniqueVehicles(db: PositionTable)
  {
    forall a, b :: 0 <= a < b < |db| ==> db[a].vehicleId != db[b].vehicleId
  }

  /** `select(VehicleLocation).where(VehicleLocation.vehicle_id == v).first()`. */
  function FindVehicle(db: PositionTable, v: string): Option<nat>
  {
    First(db, (row: VehicleLocation) => row.vehicleId == v)
  }

  /** The stored row for vehicle `v`, if any. */
  function Position(db: PositionTable, v: string): Option<VehicleLocation>
  {
    match FindVehicle(db, v)
    case None => None
    case Some(k) => Some(db[k])
  }

  /** The persistence half of `update_vehicle_location`: overwrite the row of
      vehicle `v` in place, or append a new one. Afterwards `v`'s row holds the
      new coordinates and time, rows of other vehicles are untouched, and the
      table grows by one row exactly when `v` had none. */
  function Upsert(db: PositionTable, v: string, latitude: Coord, longitude: Coord, now: Instant): (r: PositionTable)
    ensures |r| == |db| + (if FindVehicle(db, v).None? then 1 else 0)
    ensures forall k :: 0 <= k < |db| && db[k].vehicleId != v ==> r[k] == db[k]
    ensures forall k :: 0 <= k < |db| ==> r[k].vehicleId == db[k].vehicleId
    ensures Position(r, v) == Some(VehicleLocation(v, latitude, longitude, now))
    ensures forall w :: w != v ==> Position(r, w) == Position(db, w)
    ensures UniqueVehicles(db) ==> UniqueVehicles(r)
  {
    var f := (row: VehicleLocation) => row.vehicleId == v;
    match FindVehicle(db, v)
    case Some(k) =>
      var r := db[k := db[k].(latitude := latitude, longitude := longitude, timestamp := now)];
      assert f(r[k]);
      assert forall m :: 0 <= m < k ==> r[m] == db[m];
      SameIdsSamePositions(db, r);
      r
    case None =>
      var r := db + [VehicleLocation(v, latitude, longitude, now)];
      assert f(r[|db|]);
      assert forall m :: 0 <= m < |db| ==> r[m] == db[m];
      AppendKeepsOtherPositions(db, VehicleLocation(v, latitude, longitude, now));
      r
  }

  /** Rewriting rows without changing their vehicle ids leaves every
      vehicle's row where it was. */
  lemma SameIdsSamePositions(db: PositionTable, r: PositionTable)
    requires |r| == |db|
    requires forall k :: 0 <= k < |db| ==> r[k].vehicleId == db[k].vehicleId
    ensures forall w :: FindVehicle(r, w) == FindVehicle(db, w)
  {
  }

  lemma AppendKeepsOtherPositions(db: PositionTable, row: VehicleLocation)
    ensures forall w :: w != row.vehicleId ==> Position(db + [row], w) == Position(db, w)
  {
    forall w | w != row.vehicleId
      ensures Position(db + [row], w) == Position(db, w)
    {
      var r := db + [row];
      var f := (x: VehicleLocation) => x.vehicleId == w;
      assert forall k :: 0 <= k < |db| ==> r[k] == db[k];
      assert !f(r[|db|]);
      var a, b := FindVehicle(r, w), FindVehicle(db, w);
      if a.Some? { assert f(db[a.value]); }
      if b.Some? { assert f(r[b.value]); }
    }
  }

  /** One position report: vehicle, coordinates, and the server time at which
      it was processed. */
  datatype LocationUpdate = LocationUpdate(vehicleId: string, latitude: Coord, longitude: Coord, at: Instant)

  /** The table after processing `updates` in order. */
  function ApplyAll(db: PositionTable, updates: seq<LocationUpdate>): PositionTable
  {
    if |updates| == 0 then db
    else
      var u := updates[|updates| - 1];
      Upsert(ApplyAll(db, updates[..|updates| - 1]), u.vehicleId, u.latitude, u.longitude, u.at)
  }

  /** The last report for vehicle `v` in `updates`, if any. */
  function LastFor(updates: seq<LocationUpdate>, v: string): (r: Option<LocationUpdate>)
    ensures r.Some? ==> r.value in updates && r.value.vehicleId == v
  {
    if |updates| == 0 then None
    else if updates[|updates| - 1].vehicleId == v then Some(updates[|updates| - 1])
    else LastFor(updates[..|updates| - 1], v)
  }

  /** Last write wins: after any sequence of reports, a vehicle's row holds
      its last report, and a vehicle with no report keeps its old row. The
      table keeps one row per vehicle throughout. */
  lemma {:induction false} LastWriteWins(db: PositionTable, updates: seq<LocationUpdate>, v: string)
    requires UniqueVehicles(db)
    ensures UniqueVehicles(ApplyAll(db, updates))
    ensures Position(ApplyAll(db, updates), v)
         == match LastFor(updates, v)
            case Some(u) => Some(VehicleLocation(v, u.latitude, u.longitude, u.at))
            case None => Position(db, v)
  {
    if |updates| > 0 {
      LastWriteWins(db, updates[..|updates| - 1], v);
    }
  }

  // ---------------------------------------------------------------------
  // The connection registry
  // ---------------------------------------------------------------------

  /** One entry of `active_connections`. */
  datatype Entry = Entry(vehicleId: string, socket: Socket)

  predicate DistinctKeys(s: seq<Entry>)
  {
    forall a, b :: 0 <= a < b < |s| ==> s[a].vehicleId != s[b].vehicleId
  }

  /** `active_connections: Dict[str, WebSocket]`: a Python dict, which keeps
      its keys unique and iterates in insertion order. */
  type Registry = s: seq<Entry> | DistinctKeys(s)

  function Slot(reg: Registry, v: string): Option<nat>
  {
    First(reg, (e: Entry) => e.vehicleId == v)
  }

  /** `active_connections.get(v)`. */
  function Lookup(reg: Registry, v: string): Option<Socket>
  {
    match Slot(reg, v)
    case None => None
    case Some(k) => Some(reg[k].socket)
  }

  /** Lookup agrees with the entries: `v` is bound to `s` exactly when the
      entry `(v, s)` is in the registry. */
  lemma LookupMeansEntry(reg: Registry, v: string, s: Socket)
    ensures Lookup(reg, v) == Some(s) <==> Entry(v, s) in reg
  {
  }

  /** `ConnectionManager.connect` after the handshake: bind `v` to `ws`,
      replacing any earlier socket in its slot (the dict keeps the key's
      position), or append a new entry. Other bindings are unchanged. */
  function Connect(reg: Registry, ws: Socket, v: string): (r: Registry)
    ensures Lookup(r, v) == Some(ws)
    ensures forall w :: w != v ==> Lookup(r, w) == Lookup(reg, w)
    ensures |r| == |reg| + (if Lookup(reg, v).None? then 1 else 0)
    ensures forall k :: 0 <= k < |reg| ==> r[k].vehicleId == reg[k].vehicleId
  {
    match Slot(reg, v)
    case Some(k) =>
      var r: Registry := reg[k := Entry(v, ws)];
      ConnectLookups(reg, r, ws, v);
      r
    case None =>
      var s := reg + [Entry(v, ws)];
      assert forall m :: 0 <= m < |reg| ==> s[m] == reg[m];
      assert DistinctKeys(s);
      var r: Registry := s;
      ConnectLookups(reg, r, ws, v);
      r
  }

  /** The entry in slot `k` is what its key looks up. */
  lemma LookupAt(reg: Registry, k: nat)
    requires k < |reg|
    ensures Lookup(reg, reg[k].vehicleId) == Some(reg[k].socket)
  {
  }

  /** Binding `v` in place or at the end looks `v` up as `ws` and leaves
      every other key bound as before. */
  lemma ConnectLookups(reg: Registry, r: Registry, ws: Socket, v: string)
    requires r == (match Slot(reg, v) case Some(k) => reg[k := Entry(v, ws)] case None => reg + [Entry(v, ws)])
    ensures Lookup(r, v) == Some(ws)
    ensures forall w :: w != v ==> Lookup(r, w) == Lookup(reg, w)
  {
    var slot := if Slot(reg, v).Some? then Slot(reg, v).value else |reg|;
    assert r[slot] == Entry(v, ws);
    assert forall m :: 0 <= m < |r| && m != slot ==> r[m] == reg[m];
    LookupAt(r, slot);
    forall w | w != v
      ensures Lookup(r, w) == Lookup(reg, w)
    {
      match Slot(reg, w)
      case Some(m) =>
        assert r[m] == reg[m];
        LookupAt(r, m);
      case None =>
        assert forall n :: 0 <= n < |r| ==> r[n].vehicleId != w;
    }
  }

  /** The `KeyError` that `del` raises for an absent key. */
  datatype KeyError = KeyError(vehicleId: string)

  /** The registry without the entry in slot `k`; later entries move up one
      place and keep their order. */
  function RemoveSlot(reg: Registry, k: nat): (r: Registry)
    requires k < |reg|
    ensures |r| == |reg| - 1
    ensures forall m :: 0 <= m < |r| ==> r[m] == (if m < k then reg[m] else reg[m + 1])
  {
    var s := reg[..k] + reg[k + 1..];
    assert forall m :: 0 <= m < |s| ==> s[m] == (if m < k then reg[m] else reg[m + 1]);
    assert DistinctKeys(s);
    s
  }

  /** Removing the slot of `v` unbinds `v` and leaves every other key bound
      as before. */
  lemma RemoveSlotLookups(reg: Registry, v: string, k: nat)
    requires Slot(reg, v) == Some(k)
    ensures Lookup(RemoveSlot(reg, k), v).None?
    ensures forall w :: w != v ==> Lookup(RemoveSlot(reg, k), w) == Lookup(reg, w)
  {
    var r := RemoveSlot(reg, k);
    assert forall n :: 0 <= n < |r| ==> r[n].vehicleId != v;
    forall w | w != v
      ensures Lookup(r, w) == Lookup(reg, w)
    {
      match Slot(reg, w)
      case Some(m) =>
        var n := if m < k then m else m - 1;
        assert r[n] == reg[m];
        LookupAt(r, n);
      case None =>
        assert forall n :: 0 <= n < |r| ==> r[n].vehicleId != w;
    }
  }

  /** `ConnectionManager.disconnect`: `del active_connections[v]`. Removes the
      binding of `v` and nothing else when there is one; raises `KeyError`
      otherwise, so it is not idempotent. The remaining entries keep their
      order. */
  function Disconnect(reg: Registry, v: string): (r: Result<Registry, KeyError>)
    ensures r.Err? <==> Lookup(reg, v).None?
    ensures r.Err? ==> r.error == KeyError(v)
    ensures r.Ok? ==> Lookup(r.value, v).None?
    ensures r.Ok? ==> forall w :: w != v ==> Lookup(r.value, w) == Lookup(reg, w)
    ensures r.Ok? ==> |r.value| == |reg| - 1
    ensures r.Ok? ==> forall k :: 0 <= k < |r.value| ==>
              r.value[k] == (if k < Slot(reg, v).value then reg[k] else reg[k + 1])
  {
    match Slot(reg, v)
    case None => Err(KeyError(v))
    case Some(k) =>
      var r := RemoveSlot(reg, k);
      RemoveSlotLookups(reg, v, k);
      Ok(r)
  }

  // ---------------------------------------------------------------------
  // Fan-out
  // ---------------------------------------------------------------------

  /** One `send_text` of a message on a socket. */
  datatype Delivery<M> = Delivery(socket: Socket, message: M)

  /** `ConnectionManager.broadcast`: send the message on every registered
      socket, in registry order, whatever vehicle it is registered under.
      `sendFails` says which sockets raise on `send_text` (a peer that went
      away without its binding being removed). Nothing catches that error, so
      the first failing send ends the loop: the sockets before it have the
      message, the failing one and those after it do not, and the error is
      reported as the failing slot. */
  method Broadcast<M>(reg: Registry, message: M, sendFails: Socket -> bool)
    returns (sent: seq<Delivery<M>>, failedAt: Option<nat>)
    ensures failedAt.None? <==> forall k :: 0 <= k < |reg| ==> !sendFails(reg[k].socket)
    ensures failedAt.Some? ==>
              && failedAt.value < |reg| && sendFails(reg[failedAt.value].socket)
              && forall k :: 0 <= k < failedAt.value ==> !sendFails(reg[k].socket)
    ensures |sent| == (if failedAt.Some? then failedAt.value else |reg|)
    ensures forall k :: 0 <= k < |sent| ==> sent[k] == Delivery(reg[k].socket, message)
    ensures failedAt.None? ==>
              forall w :: Lookup(reg, w).Some? ==> Delivery(Lookup(reg, w).value, message) in sent
  {
    sent := [];
    var i := 0;
    while i < |reg|
      invariant 0 <= i <= |reg|
      invariant |sent| == i
      invariant forall k :: 0 <= k < i ==> sent[k] == Delivery(reg[k].socket, message)
      invariant forall k :: 0 <= k < i ==> !sendFails(reg[k].socket)
    {
      if sendFails(reg[i].socket) {
        return sent, Some(i);
      }
      sent := sent + [Delivery(reg[i].socket, message)];
      i := i + 1;
    }
    failedAt := None;
    forall w | Lookup(reg, w).Some?
      ensures Delivery(Lookup(reg, w).value, message) in sent
    {
      var ws := Lookup(reg, w).value;
      LookupMeansEntry(reg, w, ws);
      var k :| 0 <= k < |reg| && reg[k] == Entry(w, ws);
      assert sent[k] == Delivery(ws, message);
    }
  }

  /** The JSON pushed to subscribers: the stored row. */
  datatype PositionMessage = PositionMessage(vehicleId: string, latitude: Coord, longitude: Coord, timestamp: Instant)

  /** The JSON answer of `POST /track/update`. */
  datatype TrackReply = TrackReply(message: string, vehicleId: string, latitude: Coord, longitude: Coord)

  /** What the server answers when a handler raises an uncaught exception. */
  const ServerError := HttpError(500, "Internal Server Error")

  /** `update_vehicle_location`: upsert and commit the row, then broadcast it
      to every registered connection (not only the subscriber of this
      vehicle), then answer with the stored coordinates. A send that raises
      turns the answer into a 500, but the row is already committed. */
  method UpdateVehicleLocation(db: PositionTable, reg: Registry, vehicleId: string,
                               latitude: Coord, longitude: Coord, now: Instant, sendFails: Socket -> bool)
    returns (db': PositionTable, sent: seq<Delivery<PositionMessage>>, reply: Result<TrackReply, HttpError>)
    ensures db' == Upsert(db, vehicleId, latitude, longitude, now)
    ensures Position(db', vehicleId) == Some(VehicleLocation(vehicleId, latitude, longitude, now))
    ensures forall w :: w != vehicleId ==> Position(db', w) == Position(db, w)
    ensures |db'| == |db| + (if Position(db, vehicleId).None? then 1 else 0)
    ensures UniqueVehicles(db) ==> UniqueVehicles(db')
    ensures reply.Ok? <==> forall k :: 0 <= k < |reg| ==> !sendFails(reg[k].socket)
    ensures reply.Err? ==> reply.error == ServerError
    ensures reply.Ok? ==> reply.value == TrackReply("Position du véhicule mise à jour", vehicleId, latitude, longitude)
    ensures reply.Ok? ==> |sent| == |reg|
    ensures reply.Err? ==> |sent| < |reg| && sendFails(reg[|sent|].socket)
    ensures forall k :: 0 <= k < |sent| ==>
              && !sendFails(reg[k].socket)
              && sent[k] == Delivery(reg[k].socket, PositionMessage(vehicleId, latitude, longitude, now))
    ensures reply.Ok? ==> forall w :: Lookup(reg, w).Some? ==>
              Delivery(Lookup(reg, w).value, PositionMessage(vehicleId, latitude, longitude, now)) in sent
  {
    db' := Upsert(db, vehicleId, latitude, longitude, now);
    var row := Position(db', vehicleId).value;
    var failedAt;
    sent, failedAt := Broadcast(reg, PositionMessage(row.vehicleId, row.latitude, row.longitude, row.timestamp), sendFails);
    if failedAt.Some? {
      reply := Err(ServerError);
    } else {
      reply := Ok(TrackReply("Position du véhicule mise à jour", row.vehicleId, row.latitude, row.longitude));
    }
  }

  /** Two subscriptions to the same vehicle: the second `connect` takes over
      the slot; when the first connection closes, its `disconnect` removes the
      binding that now holds the second socket, so the second stops receiving
      updates, and when the second closes, its `disconnect` raises `KeyError`. */
  lemma StaleDisconnectDropsNewerSubscriber(reg: Registry, first: Socket, second: Socket, v: string)
    ensures var both := Connect(Connect(reg, first, v), second, v);
            && Lookup(both, v) == Some(second)
            && Disconnect(both, v).Ok?
            && Lookup(Disconnect(both, v).value, v).None?
            && Disconnect(Disconnect(both, v).value, v) == Err(KeyError(v))
  {
  }
}
