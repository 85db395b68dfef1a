/**
 * The handler `h` of lambda/extendDeviceSharing.ts: it resolves a public id
 * through `getDeviceId` and sets the `ttl` of the record in the TTL-only
 * device table to thirty days after now. It needs a valid user token (the
 * `withUser` middleware) but never compares that user with the record's
 * owner, and it makes no TTL or model check: an expired record that is still
 * stored is revived.
 */
module ExtendSharing {
  import opened Wrappers
  import opened Strings
  import opened Consent
  import opened DeviceRecords
  import opened IdIndex
  import opened DeviceLookup
  import opened DevicesRepo
  import opened Problems

  /** `30 * 24 * 60 * 60`: the extension, in seconds. */
  const ExtensionSeconds: int := 30 * 24 * 60 * 60

  /** `Math.floor(Date.now() / 1000 + 30 * 24 * 60 * 60)`. */
  function ExtendedTtl(clock: int): (ttl: int)
    ensures ttl * 1000 <= clock + ExtensionSeconds * 1000 < ttl * 1000 + 1000
  {
    FloorSeconds(clock) + ExtensionSeconds
  }

  /**
   * The table after the update of `deviceId`'s `ttl` at `clock`. Only a key
   * that is present is updated (see README, "Left out").
   */
  function Extended(table: map<string, DeviceRecord>, deviceId: string, clock: int): (t: map<string, DeviceRecord>)
    ensures t.Keys == table.Keys
    ensures forall k :: k in table && k != deviceId ==> t[k] == table[k]
    ensures deviceId in table ==> t[deviceId] == table[deviceId].(ttl := ExtendedTtl(clock))
  {
    if deviceId in table then table[deviceId := table[deviceId].(ttl := ExtendedTtl(clock))] else table
  }

  /** The 404 problem for a public id `getDeviceId` could not resolve. */
  function NotShared(id: string, error: LookupError): (p: ProblemDetail)
    ensures p.status == StatusNotFound && p.detail.None?
    ensures p.title == "Device " + id + " not shared: " + ErrorCode(error)
  {
    ProblemDetail(StatusNotFound, "Device " + id + " not shared: " + ErrorCode(error), None)
  }

  /**
   * `h`, with `index` the public-id index of `repo`'s table and `clock` the
   * value of `Date.now()`. It answers 200 with no body, or throws the 404
   * problem without writing.
   */
  method Handle(repo: PublicDevicesRepo, index: seq<IndexEntry>, id: string, clock: int) returns (r: Result<nat, ProblemDetail>)
    modifies repo
    ensures (forall e :: e in index ==> e.id != id) ==>
      r == Failure(NotShared(id, NotFound)) && repo.table == old(repo.table)
    ensures forall k :: FirstMatch(index, id, k) ==>
      r == Success(StatusOk) && repo.table == Extended(old(repo.table), index[k].deviceId, clock)
  {
    var maybeDevice := GetDeviceId(index, id);
    if maybeDevice.Failure? {
      return Failure(NotShared(id, maybeDevice.error));
    }
    repo.table := Extended(repo.table, maybeDevice.value, clock);
    r := Success(StatusOk);
  }

  // ------------------------------------------------------------ properties

  /** Extending twice at the same time is extending once. */
  lemma ExtendIdempotent(table: map<string, DeviceRecord>, deviceId: string, clock: int)
    ensures Extended(Extended(table, deviceId, clock), deviceId, clock) == Extended(table, deviceId, clock)
  {
  }

  /** Only the `ttl` of the one record changes: its id, owner and model are kept. */
  lemma ExtendKeepsOwnership(table: map<string, DeviceRecord>, deviceId: string, clock: int)
    requires deviceId in table
    ensures var d := Extended(table, deviceId, clock)[deviceId];
      d.id == table[deviceId].id && d.deviceId == table[deviceId].deviceId
      && d.model == table[deviceId].model && d.ownerEmail == table[deviceId].ownerEmail
  {
  }

  /**
   * A stored record, expired or not, reads as valid for thirty days after an
   * extension (less the fraction of a second the flooring takes off), as
   * long as its model is supported.
   */
  lemma ExtendRevives(table: map<string, DeviceRecord>, catalogue: set<string>, deviceId: string, clock: int, later: int)
    requires deviceId in table && IsLower(deviceId) && table[deviceId].model in catalogue
    requires clock <= later <= clock + ExtensionSeconds * 1000 - 1000
    ensures GetDevicebyDeviceId(Extended(table, deviceId, clock), catalogue, deviceId, later).Success?
  {
    LowerOfLower(deviceId);
  }
}
