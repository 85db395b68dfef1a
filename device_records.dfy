/**
 * The record of the TTL-only device table (devices/publicDevicesRepo.ts) and
 * the error codes every read path of both device tables reports.
 */
module DeviceRecords {
  import opened Strings

  /**
   * `PublicDeviceRecord`: `id` is the public id, `deviceId` the id the device
   * connects with (and the table's key), `ttl` the expiry in epoch seconds.
   */
  datatype DeviceRecord = DeviceRecord(
    id: string,
    deviceId: string,
    model: string,
    ownerEmail: string,
    ttl: int)

  /** `PublicDeviceRecordError`. */
  datatype LookupError = NotFound | NotConfirmed | ConfirmationExpired | UnsupportedModel

  /** The `error` string each variant is reported as. */
  function ErrorCode(e: LookupError): string {
    match e
    case NotFound => "not_found"
    case NotConfirmed => "not_confirmed"
    case ConfirmationExpired => "confirmation_expired"
    case UnsupportedModel => "unsupported_model"
  }

  /** `ttl * 1000 < Date.now()`: the consent has run out. */
  predicate TtlPassed(ttl: int, clock: int) {
    ttl * 1000 < clock
  }

  /**
   * Every record sits under its own `deviceId`, and `share` only ever writes
   * lower-case keys.
   */
  predicate WellKeyed(table: map<string, DeviceRecord>) {
    forall k :: k in table ==> table[k].deviceId == k && IsLower(k)
  }

  /** Each error code names exactly one error. */
  lemma ErrorCodeInjective(a: LookupError, b: LookupError)
    ensures ErrorCode(a) == ErrorCode(b) ==> a == b
  {
  }
}
