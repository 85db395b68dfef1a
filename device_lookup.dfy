/**
 * The read paths of the TTL-only device table: `getDevicebyDeviceId`
 * (devices/getDevicebyDeviceId.ts, repeated as `getByDeviceId` in
 * devices/publicDevicesRepo.ts), `getById` (devices/getById.ts and the
 * repository's own `getById`) and `getDeviceId` (devices/getDeviceId.ts).
 * None of them writes; the table is a value here.
 */
module DeviceLookup {
  import opened Wrappers
  import opened Strings
  import opened DeviceRecords
  import opened IdIndex

  /** A record under `key` that has not expired at `clock` and has a known model. */
  predicate Live(table: map<string, DeviceRecord>, catalogue: set<string>, key: string, clock: int) {
    key in table && !TtlPassed(table[key].ttl, clock) && table[key].model in catalogue
  }

  /**
   * Looks `deviceId` up under its lower-case form and checks, in this order:
   * not_found, confirmation_expired, unsupported_model. There is no
   * not_confirmed in this generation.
   */
  function GetDevicebyDeviceId(table: map<string, DeviceRecord>, catalogue: set<string>, deviceId: string, clock: int)
    : (r: Result<DeviceRecord, LookupError>)
    ensures r == Failure(NotFound) <==> Lower(deviceId) !in table
    ensures r == Failure(ConfirmationExpired)
        <==> Lower(deviceId) in table && TtlPassed(table[Lower(deviceId)].ttl, clock)
    ensures r == Failure(UnsupportedModel)
        <==> Lower(deviceId) in table && !TtlPassed(table[Lower(deviceId)].ttl, clock)
             && table[Lower(deviceId)].model !in catalogue
    ensures r.Success? <==> Live(table, catalogue, Lower(deviceId), clock)
    ensures r.Success? ==> r.value == table[Lower(deviceId)]
    ensures r != Failure(NotConfirmed)
  {
    var key := Lower(deviceId);
    if key !in table then Failure(NotFound)
    else
      var device := table[key];
      if TtlPassed(device.ttl, clock) then Failure(ConfirmationExpired)
      else if device.model !in catalogue then Failure(UnsupportedModel)
      else Success(device)
  }

  /**
   * Resolves a public id through the first index item and then reads the
   * table by that item's `deviceId`.
   */
  function GetById(index: seq<IndexEntry>, table: map<string, DeviceRecord>, catalogue: set<string>, id: string, clock: int)
    : (r: Result<DeviceRecord, LookupError>)
    ensures (forall e :: e in index ==> e.id != id) ==> r == Failure(NotFound)
    ensures forall k :: FirstMatch(index, id, k) ==> r == GetDevicebyDeviceId(table, catalogue, index[k].deviceId, clock)
  {
    match First(index, id)
    case None => Failure(NotFound)
    case Some(entry) => GetDevicebyDeviceId(table, catalogue, entry.deviceId, clock)
  }

  /**
   * Resolves a public id to the internal `deviceId` of the first index item,
   * without reading the table: no TTL and no model check.
   */
  function GetDeviceId(index: seq<IndexEntry>, id: string): (r: Result<string, LookupError>)
    ensures r.Failure? <==> forall e :: e in index ==> e.id != id
    ensures r.Failure? ==> r.error == NotFound
    ensures forall k :: FirstMatch(index, id, k) ==> r == Success(index[k].deviceId)
  {
    match First(index, id)
    case None => Failure(NotFound)
    case Some(entry) => Success(entry.deviceId)
  }

  // ------------------------------------------------------------ properties

  /** A record whose `ttl` is exactly now is still valid; one millisecond later it has expired. */
  lemma ExpiryIsStrict(table: map<string, DeviceRecord>, catalogue: set<string>, deviceId: string, clock: int)
    requires Lower(deviceId) in table && table[Lower(deviceId)].model in catalogue
    requires table[Lower(deviceId)].ttl * 1000 == clock
    ensures GetDevicebyDeviceId(table, catalogue, deviceId, clock).Success?
    ensures GetDevicebyDeviceId(table, catalogue, deviceId, clock + 1) == Failure(ConfirmationExpired)
  {
  }

  /** Reading later can only turn a valid record into an expired one. */
  lemma LookupOverTime(table: map<string, DeviceRecord>, catalogue: set<string>, deviceId: string, t1: int, t2: int)
    requires t1 <= t2
    ensures GetDevicebyDeviceId(table, catalogue, deviceId, t2).Success?
        ==> GetDevicebyDeviceId(table, catalogue, deviceId, t1) == GetDevicebyDeviceId(table, catalogue, deviceId, t2)
    ensures GetDevicebyDeviceId(table, catalogue, deviceId, t1) == Failure(ConfirmationExpired)
        ==> GetDevicebyDeviceId(table, catalogue, deviceId, t2) == Failure(ConfirmationExpired)
  {
  }

  /** An index item whose device is gone from the table surfaces as not_found. */
  lemma DanglingEntry(index: seq<IndexEntry>, table: map<string, DeviceRecord>, catalogue: set<string>, id: string, clock: int, k: int)
    requires FirstMatch(index, id, k) && Lower(index[k].deviceId) !in table
    ensures GetById(index, table, catalogue, id, clock) == Failure(NotFound)
  {
  }

  /**
   * An expired record that is still stored resolves through `getDeviceId`
   * while `getById` reports it as expired.
   */
  lemma ExpiredStillResolves(index: seq<IndexEntry>, table: map<string, DeviceRecord>, catalogue: set<string>, id: string, clock: int, k: int)
    requires FirstMatch(index, id, k)
    requires Lower(index[k].deviceId) in table && TtlPassed(table[Lower(index[k].deviceId)].ttl, clock)
    ensures GetDeviceId(index, id) == Success(index[k].deviceId)
    ensures GetById(index, table, catalogue, id, clock) == Failure(ConfirmationExpired)
  {
  }

  /** Only the first item counts: later items for the same id are never read. */
  lemma OnlyFirstItem(index: seq<IndexEntry>, later: seq<IndexEntry>, table: map<string, DeviceRecord>, catalogue: set<string>, id: string, clock: int, k: int)
    requires FirstMatch(index, id, k)
    ensures FirstMatch(index + later, id, k)
    ensures GetById(index + later, table, catalogue, id, clock) == GetById(index, table, catalogue, id, clock)
    ensures GetDeviceId(index + later, id) == GetDeviceId(index, id)
  {
    assert (index + later)[k] == index[k];
    assert forall j :: 0 <= j < k ==> (index + later)[j] == index[j];
  }
}
