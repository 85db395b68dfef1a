/**
 * `publicDevicesRepo` of devices/publicDevicesRepo.ts, the TTL-only
 * generation of the device table: `share` is a put conditioned on the key
 * being absent, `remove` an unconditional delete. Its `getByDeviceId` and
 * `getById` are the read paths of the DeviceLookup module, read against
 * `table`.
 */
module DevicesRepo {
  import opened Wrappers
  import opened Strings
  import opened Consent
  import opened EmailNormalization
  import opened DeviceRecords
  import opened DeviceLookup

  /** A put rejected by `attribute_not_exists(deviceId)`. */
  datatype ShareError = ConditionalCheckFailed

  /** `Pick<PublicDeviceRecord, 'id' | 'deviceId' | 'model'>`. */
  datatype PublicView = PublicView(id: string, deviceId: string, model: string)

  /**
   * The item `share` puts at time `nowMs`: the lower-cased key, the public id,
   * the model as given, the normalised owner email and a `ttl` one consent
   * period after `nowMs` rounded to whole seconds.
   */
  function SharedRecord(deviceId: string, model: string, email: string, id: string, nowMs: int): (r: DeviceRecord)
    ensures r.deviceId == Lower(deviceId) && r.id == id && r.model == model
    ensures r.ownerEmail == NormalizeEmail(email)
    ensures nowMs + ConsentDurationMs - 500 < r.ttl * 1000 <= nowMs + ConsentDurationMs + 500
  {
    DeviceRecord(id, Lower(deviceId), model, NormalizeEmail(email), RoundSeconds(nowMs) + ConsentDurationSeconds)
  }

  /** `toPublic`: keeps `id`, `deviceId` and `model` and drops everything else. */
  function ToPublic(device: DeviceRecord): (p: PublicView)
    ensures p.id == device.id && p.deviceId == device.deviceId && p.model == device.model
  {
    PublicView(device.id, device.deviceId, device.model)
  }

  class PublicDevicesRepo {
    /** The table, keyed by `deviceId`. */
    var table: map<string, DeviceRecord>
    /** The `now` the repository was built with, if any (epoch milliseconds). */
    const injectedNow: Option<int>
    /** The names of the supported models. */
    const catalogue: set<string>

    constructor(table: map<string, DeviceRecord>, injectedNow: Option<int>, catalogue: set<string>)
      ensures this.table == table && this.injectedNow == injectedNow && this.catalogue == catalogue
    {
      this.table := table;
      this.injectedNow := injectedNow;
      this.catalogue := catalogue;
    }

    /**
     * `share`, with `id` the generated public id and `clock` the time used
     * when no `now` was injected. An existing record under the lower-cased
     * key is never overwritten.
     */
    method Share(deviceId: string, model: string, email: string, id: string, clock: int)
      returns (r: Result<string, ShareError>)
      modifies this
      ensures Lower(deviceId) in old(table) ==> r == Failure(ConditionalCheckFailed) && table == old(table)
      ensures Lower(deviceId) !in old(table) ==>
        && r == Success(id)
        && table == old(table)[Lower(deviceId) := SharedRecord(deviceId, model, email, id, injectedNow.GetOr(clock))]
      ensures WellKeyed(old(table)) ==> WellKeyed(table)
    {
      var key := Lower(deviceId);
      if key in table {
        return Failure(ConditionalCheckFailed);
      }
      table := table[key := SharedRecord(deviceId, model, email, id, injectedNow.GetOr(clock))];
      r := Success(id);
    }

    /** `remove`: deletes the key exactly as given, whether or not it is present. */
    method Remove(deviceId: string)
      modifies this
      ensures table == old(table) - {deviceId}
      ensures WellKeyed(old(table)) ==> WellKeyed(table)
    {
      table := table - {deviceId};
    }
  }

  // ------------------------------------------------------------ properties

  /**
   * A record just shared reads back as valid for one consent period (less
   * the half second rounding may take off) and as expired once that period
   * and the half second rounding may add have passed.
   */
  lemma SharedRecordLifetime(
    table: map<string, DeviceRecord>, catalogue: set<string>,
    deviceId: string, model: string, email: string, id: string, nowMs: int, clock: int)
    requires model in catalogue
    ensures var shared := table[Lower(deviceId) := SharedRecord(deviceId, model, email, id, nowMs)];
      && (clock <= nowMs + ConsentDurationMs - 500 ==>
            GetDevicebyDeviceId(shared, catalogue, deviceId, clock) == Success(SharedRecord(deviceId, model, email, id, nowMs)))
      && (clock > nowMs + ConsentDurationMs + 500 ==>
            GetDevicebyDeviceId(shared, catalogue, deviceId, clock) == Failure(ConfirmationExpired))
  {
  }

  /** The model is not checked when sharing, only when reading. */
  lemma UnsupportedModelSharedButUnreadable(
    table: map<string, DeviceRecord>, catalogue: set<string>,
    deviceId: string, model: string, email: string, id: string, nowMs: int, clock: int)
    requires model !in catalogue && clock <= nowMs + ConsentDurationMs - 500
    ensures var shared := table[Lower(deviceId) := SharedRecord(deviceId, model, email, id, nowMs)];
      GetDevicebyDeviceId(shared, catalogue, deviceId, clock) == Failure(UnsupportedModel)
  {
  }

  /** `remove` with a key that is not lower case leaves a well-keyed table as it is. */
  lemma RemoveMixedCaseIsNoOp(table: map<string, DeviceRecord>, deviceId: string)
    requires WellKeyed(table) && !IsLower(deviceId)
    ensures table - {deviceId} == table
  {
  }

  /** After `remove`, the removed id reads as not_found and every other key is untouched. */
  lemma RemoveThenLookup(table: map<string, DeviceRecord>, catalogue: set<string>, deviceId: string, other: string, clock: int)
    requires IsLower(deviceId) && Lower(other) != deviceId
    ensures GetDevicebyDeviceId(table - {deviceId}, catalogue, deviceId, clock) == Failure(NotFound)
    ensures GetDevicebyDeviceId(table - {deviceId}, catalogue, other, clock) == GetDevicebyDeviceId(table, catalogue, other, clock)
  {
    LowerOfLower(deviceId);
  }

  /** `toPublic` depends on nothing but the three public fields. */
  lemma ToPublicForgetsPrivate(a: DeviceRecord, b: DeviceRecord)
    ensures ToPublic(a) == ToPublic(b) <==> a.id == b.id && a.deviceId == b.deviceId && a.model == b.model
  {
  }
}
