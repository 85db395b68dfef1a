/**
 * The handler `h` of lambda/listUserDevices.ts: the devices owned by the
 * authenticated user, as listed by `listDevicesByEmail`, without those of an
 * unknown model, each projected to `{id, deviceId, model, expires}`. It does
 * not filter by `ttl`, so `expires` may lie in the past.
 */
module ListUserDevices {
  import opened Sequences
  import opened EmailNormalization
  import opened DeviceRecords
  import opened DeviceLists
  import opened Problems
  import opened TokenVerification

  /** One item of the response; `expires` is `ttl * 1000` in epoch milliseconds (the source sends it as ISO text). */
  datatype UserDevice = UserDevice(id: string, deviceId: string, model: string, expiresMs: int)

  /** `Context.userDevices` of the protocol package, whose URL is not part of this model. */
  datatype UserDevicesContext = UserDevicesContext

  /** `aResponse(200, body, 60)`: the status, the body and the cache lifetime in seconds. */
  datatype UserDevicesResponse = UserDevicesResponse(
    status: nat, context: UserDevicesContext, devices: seq<UserDevice>, maxAgeSeconds: nat)

  /** `isModel`: the model is one of the catalogue's names. */
  predicate IsModel(catalogue: set<string>, model: string) {
    model in catalogue
  }

  /** The projection of one record. */
  function ToUserDevice(d: DeviceRecord): (u: UserDevice)
    ensures u.id == d.id && u.deviceId == d.deviceId && u.model == d.model && u.expiresMs == d.ttl * 1000
  {
    UserDevice(d.id, d.deviceId, d.model, d.ttl * 1000)
  }

  /** `devices.filter((d) => isModel(d.model)).map(...)`. */
  function Project(devices: seq<DeviceRecord>, catalogue: set<string>): (r: seq<UserDevice>)
    ensures |r| <= |devices|
    ensures forall u :: u in r <==> exists d :: d in devices && IsModel(catalogue, d.model) && u == ToUserDevice(d)
  {
    var kept := Filter(devices, (d: DeviceRecord) => IsModel(catalogue, d.model));
    var r := Map(kept, ToUserDevice);
    assert forall u :: u in r ==> exists d :: d in kept && u == ToUserDevice(d) by {
      forall u | u in r ensures exists d :: d in kept && u == ToUserDevice(d) {
        var i :| 0 <= i < |r| && r[i] == u;
        assert kept[i] in kept;
      }
    }
    assert forall d :: d in kept ==> ToUserDevice(d) in r by {
      forall d | d in kept ensures ToUserDevice(d) in r {
        var i :| 0 <= i < |kept| && kept[i] == d;
        assert r[i] == ToUserDevice(d);
      }
    }
    r
  }

  /** `h`, for the user `withUser` put in the context: their devices of a known model, cached for 60 seconds. */
  function Handle(ownerIndex: seq<DeviceRecord>, catalogue: set<string>, user: User): (r: UserDevicesResponse)
    ensures r.status == StatusOk && r.maxAgeSeconds == 60
    ensures forall u :: u in r.devices <==>
      exists d :: && d in ownerIndex && d.ownerEmail == NormalizeEmail(user.email)
                  && IsModel(catalogue, d.model) && u == ToUserDevice(d)
  {
    UserDevicesResponse(StatusOk, UserDevicesContext, Project(ListDevicesByEmail(ownerIndex, user.email), catalogue), 60)
  }

  // ------------------------------------------------------------ properties

  /** The projection keeps the listing's order. */
  lemma ProjectKeepsOrder(a: seq<DeviceRecord>, b: seq<DeviceRecord>, catalogue: set<string>)
    ensures Project(a + b, catalogue) == Project(a, catalogue) + Project(b, catalogue)
  {
    var p := (d: DeviceRecord) => IsModel(catalogue, d.model);
    FilterConcat(a, b, p);
    MapConcat(Filter(a, p), Filter(b, p), ToUserDevice);
  }

  /** A device of a known model is listed whatever its `ttl`, even one already past. */
  lemma ExpiredDeviceListed(d: DeviceRecord, catalogue: set<string>, clock: int)
    requires IsModel(catalogue, d.model) && TtlPassed(d.ttl, clock)
    ensures Project([d], catalogue) == [ToUserDevice(d)]
    ensures Project([d], catalogue)[0].expiresMs < clock
  {
    assert ToUserDevice(d) in Project([d], catalogue);
  }

  /** A device of an unknown model is never listed. */
  lemma UnknownModelDropped(devices: seq<DeviceRecord>, catalogue: set<string>, d: DeviceRecord)
    requires !IsModel(catalogue, d.model)
    ensures Project(devices + [d], catalogue) == Project(devices, catalogue)
  {
    ProjectKeepsOrder(devices, [d], catalogue);
    assert Project([d], catalogue) == [];
  }
}
