/**
 * `publicDevicesRepo` of sharing/publicDevicesRepo.ts, the generation of the
 * device table with explicit owner confirmation: a share either carries a
 * confirmation token that `confirmOwnership` must present, or is confirmed
 * at once for a super-user's address. Reads check the time of confirmation,
 * not the `ttl`.
 */
module SharingRepo {
  import opened Wrappers
  import opened Strings
  import opened Consent
  import opened DeviceRecords
  import opened IdIndex

  /**
   * The stored item. Times are epoch milliseconds (the source stores ISO
   * strings); a confirmed share has no token, an unconfirmed one no
   * `ownerConfirmed` yet.
   */
  datatype SharingRecord = SharingRecord(
    id: string,
    deviceId: string,
    model: string,
    ownerEmail: string,
    ownershipConfirmationToken: Option<string>,
    ownershipConfirmationTokenCreated: Option<int>,
    ownerConfirmed: Option<int>,
    ttl: int)

  /** `PublicDevice`: what may be shown of a device. */
  datatype PublicDevice = PublicDevice(id: string, model: string)

  /** What `share` returns on success. */
  datatype Shared = Shared(id: string, ownershipConfirmationToken: string)

  datatype ShareError =
    | OnlySuperUsers(message: string)   // thrown before any write
    | ConditionalCheckFailed            // the key is taken

  /** The domain when no `superUsersEmailDomain` is configured. */
  const DefaultSuperUsersDomain: string := "nordicsemi.no"

  predicate SharesKeyed(table: map<string, SharingRecord>) {
    forall k :: k in table ==> table[k].deviceId == k && IsLower(k)
  }

  /**
   * `getPrivateRecordByDeviceId`: looks the lower-cased id up and checks, in
   * this order, not_found, not_confirmed, confirmation_expired (confirmed more
   * than one consent period before `clock`) and unsupported_model.
   */
  function GetPrivateRecordByDeviceId(table: map<string, SharingRecord>, catalogue: set<string>, deviceId: string, clock: int)
    : (r: Result<SharingRecord, LookupError>)
    ensures r == Failure(NotFound) <==> Lower(deviceId) !in table
    ensures r == Failure(NotConfirmed) <==> Lower(deviceId) in table && table[Lower(deviceId)].ownerConfirmed.None?
    ensures r == Failure(ConfirmationExpired) <==>
      && Lower(deviceId) in table && table[Lower(deviceId)].ownerConfirmed.Some?
      && table[Lower(deviceId)].ownerConfirmed.value + ConsentDurationMs < clock
    ensures r.Success? <==>
      && Lower(deviceId) in table && table[Lower(deviceId)].ownerConfirmed.Some?
      && clock <= table[Lower(deviceId)].ownerConfirmed.value + ConsentDurationMs
      && table[Lower(deviceId)].model in catalogue
    ensures r.Success? ==> r.value == table[Lower(deviceId)]
  {
    var key := Lower(deviceId);
    if key !in table then Failure(NotFound)
    else
      var device := table[key];
      if device.ownerConfirmed.None? then Failure(NotConfirmed)
      else if device.ownerConfirmed.value + ConsentDurationMs < clock then Failure(ConfirmationExpired)
      else if device.model !in catalogue then Failure(UnsupportedModel)
      else Success(device)
  }

  /** `getByDeviceId`: the same checks, showing only `{id, model}`. */
  function GetByDeviceId(table: map<string, SharingRecord>, catalogue: set<string>, deviceId: string, clock: int)
    : (r: Result<PublicDevice, LookupError>)
    ensures r.Failure? <==> GetPrivateRecordByDeviceId(table, catalogue, deviceId, clock).Failure?
    ensures r.Failure? ==> r.error == GetPrivateRecordByDeviceId(table, catalogue, deviceId, clock).error
    ensures r.Success? ==> r.value.id == table[Lower(deviceId)].id && r.value.model == table[Lower(deviceId)].model
  {
    match GetPrivateRecordByDeviceId(table, catalogue, deviceId, clock)
    case Failure(e) => Failure(e)
    case Success(device) => Success(PublicDevice(device.id, device.model))
  }

  /**
   * `getDeviceById`: resolves a public id through the first index item and
   * hands its `secret__deviceId` to the `getByDeviceId` it was given.
   */
  function GetDeviceById(index: seq<IndexEntry>, getByDeviceId: string -> Result<PublicDevice, LookupError>, id: string)
    : (r: Result<PublicDevice, LookupError>)
    ensures (forall e :: e in index ==> e.id != id) ==> r == Failure(NotFound)
    ensures forall k :: FirstMatch(index, id, k) ==> r == getByDeviceId(index[k].deviceId)
  {
    match First(index, id)
    case None => Failure(NotFound)
    case Some(entry) => getByDeviceId(entry.deviceId)
  }

  /** The item `share` puts at time `nowMs`. */
  function ShareRecord(deviceId: string, model: string, email: string, id: string, token: string, confirmed: bool, nowMs: int)
    : (r: SharingRecord)
    ensures r.deviceId == Lower(deviceId) && r.id == id && r.model == model && r.ownerEmail == email
    ensures nowMs + ConsentDurationMs - 500 < r.ttl * 1000 <= nowMs + ConsentDurationMs + 500
    ensures confirmed ==> && r.ownerConfirmed == Some(nowMs) && r.ownershipConfirmationToken.None?
                          && r.ownershipConfirmationTokenCreated.None?
    ensures !confirmed ==> && r.ownerConfirmed.None? && r.ownershipConfirmationToken == Some(token)
                           && r.ownershipConfirmationTokenCreated == Some(nowMs)
  {
    var ttl := RoundSeconds(nowMs) + ConsentDurationSeconds;
    if confirmed then SharingRecord(id, Lower(deviceId), model, email, None, None, Some(nowMs), ttl)
    else SharingRecord(id, Lower(deviceId), model, email, Some(token), Some(nowMs), None, ttl)
  }

  /** The super-user check: the address must end in `@` and the configured domain. */
  predicate MayConfirmDirectly(email: string, superUsersEmailDomain: Option<string>) {
    EndsWith(email, "@" + superUsersEmailDomain.GetOr(DefaultSuperUsersDomain))
  }

  /** The condition `#token = :token` of `confirmOwnership`, on the key as given. */
  predicate Confirmable(table: map<string, SharingRecord>, deviceId: string, token: string) {
    deviceId in table && table[deviceId].ownershipConfirmationToken == Some(token)
  }

  class SharingRegistry {
    /** The table, keyed by `secret__deviceId`. */
    var table: map<string, SharingRecord>
    /** The `now` the repository was built with, if any (epoch milliseconds). */
    const injectedNow: Option<int>
    const superUsersEmailDomain: Option<string>
    /** The names of the supported models. */
    const catalogue: set<string>

    constructor(table: map<string, SharingRecord>, injectedNow: Option<int>, superUsersEmailDomain: Option<string>, catalogue: set<string>)
      ensures this.table == table && this.injectedNow == injectedNow
      ensures this.superUsersEmailDomain == superUsersEmailDomain && this.catalogue == catalogue
    {
      this.table := table;
      this.injectedNow := injectedNow;
      this.superUsersEmailDomain := superUsersEmailDomain;
      this.catalogue := catalogue;
    }

    /**
     * `share`, with `id` the generated public id and `generated` the
     * generated token before upper-casing. The token is returned even for a
     * confirmed share, which does not store it.
     */
    method Share(deviceId: string, model: string, email: string, id: string, generated: string, confirmed: bool, clock: int)
      returns (r: Result<Shared, ShareError>)
      modifies this
      ensures confirmed && !MayConfirmDirectly(email, superUsersEmailDomain) ==>
        && r == Failure(OnlySuperUsers("Only devices owned by " + superUsersEmailDomain.GetOr(DefaultSuperUsersDomain)
                                       + " can be shared without confirmation!"))
        && table == old(table)
      ensures (!confirmed || MayConfirmDirectly(email, superUsersEmailDomain)) && Lower(deviceId) in old(table) ==>
        r == Failure(ConditionalCheckFailed) && table == old(table)
      ensures (!confirmed || MayConfirmDirectly(email, superUsersEmailDomain)) && Lower(deviceId) !in old(table) ==>
        && r == Success(Shared(id, Upper(generated)))
        && table == old(table)[Lower(deviceId) := ShareRecord(deviceId, model, email, id, Upper(generated), confirmed, injectedNow.GetOr(clock))]
      ensures SharesKeyed(old(table)) ==> SharesKeyed(table)
    {
      var token := Upper(generated);
      var domain := superUsersEmailDomain.GetOr(DefaultSuperUsersDomain);
      if confirmed && !EndsWith(email, "@" + domain) {
        return Failure(OnlySuperUsers("Only devices owned by " + domain + " can be shared without confirmation!"));
      }
      var key := Lower(deviceId);
      if key in table {
        return Failure(ConditionalCheckFailed);
      }
      table := table[key := ShareRecord(deviceId, model, email, id, token, confirmed, injectedNow.GetOr(clock))];
      r := Success(Shared(id, token));
    }

    /**
     * `confirmOwnership`: an update of `ownerConfirmed` conditioned on the
     * stored token, on the key exactly as given. A missing record and a wrong
     * token fail alike.
     */
    method ConfirmOwnership(deviceId: string, token: string, clock: int) returns (r: Result<string, ShareError>)
      modifies this
      ensures !Confirmable(old(table), deviceId, token) ==> r == Failure(ConditionalCheckFailed) && table == old(table)
      ensures Confirmable(old(table), deviceId, token) ==>
        && r == Success(old(table)[deviceId].id)
        && table == old(table)[deviceId := old(table)[deviceId].(ownerConfirmed := Some(injectedNow.GetOr(clock)))]
      ensures SharesKeyed(old(table)) ==> SharesKeyed(table)
    {
      if !Confirmable(table, deviceId, token) {
        return Failure(ConditionalCheckFailed);
      }
      var device := table[deviceId];
      table := table[deviceId := device.(ownerConfirmed := Some(injectedNow.GetOr(clock)))];
      r := Success(device.id);
    }
  }

  // ------------------------------------------------------------ properties

  /** A share awaiting confirmation reads as not_confirmed, whatever the time. */
  lemma UnconfirmedShareNotReadable(
    table: map<string, SharingRecord>, catalogue: set<string>,
    deviceId: string, model: string, email: string, id: string, token: string, nowMs: int, clock: int)
    ensures var shared := table[Lower(deviceId) := ShareRecord(deviceId, model, email, id, token, false, nowMs)];
      GetPrivateRecordByDeviceId(shared, catalogue, deviceId, clock) == Failure(NotConfirmed)
  {
  }

  /**
   * Presenting the token a share stored confirms it; from then on the record
   * reads as valid for one consent period and as expired after it.
   */
  lemma ConfirmedShareLifetime(
    table: map<string, SharingRecord>, catalogue: set<string>,
    deviceId: string, model: string, email: string, id: string, token: string, sharedAt: int, confirmedAt: int, clock: int)
    requires model in catalogue
    ensures var key := Lower(deviceId);
      var shared := table[key := ShareRecord(deviceId, model, email, id, token, false, sharedAt)];
      var confirmed := shared[key := shared[key].(ownerConfirmed := Some(confirmedAt))];
      && Confirmable(shared, key, token)
      && (clock <= confirmedAt + ConsentDurationMs ==>
            GetPrivateRecordByDeviceId(confirmed, catalogue, deviceId, clock) == Success(confirmed[key]))
      && (clock > confirmedAt + ConsentDurationMs ==>
            GetPrivateRecordByDeviceId(confirmed, catalogue, deviceId, clock) == Failure(ConfirmationExpired))
  {
    LowerIdempotent(deviceId);
  }

  /** A confirmed share stores no token, so `confirmOwnership` never succeeds on it. */
  lemma DirectShareNotConfirmable(
    table: map<string, SharingRecord>,
    deviceId: string, model: string, email: string, id: string, token: string, nowMs: int, presented: string)
    ensures var shared := table[Lower(deviceId) := ShareRecord(deviceId, model, email, id, token, true, nowMs)];
      !Confirmable(shared, Lower(deviceId), presented)
  {
  }

  /**
   * `confirmOwnership` uses the key as given while `share` lower-cases it, so
   * an id that is not lower case can never be confirmed.
   */
  lemma MixedCaseNeverConfirmable(table: map<string, SharingRecord>, deviceId: string, token: string)
    requires SharesKeyed(table) && !IsLower(deviceId)
    ensures !Confirmable(table, deviceId, token)
  {
  }

  /** Confirmation keeps the token, so presenting it again succeeds again. */
  lemma ConfirmationKeepsToken(table: map<string, SharingRecord>, deviceId: string, token: string, nowMs: int)
    requires Confirmable(table, deviceId, token)
    ensures Confirmable(table[deviceId := table[deviceId].(ownerConfirmed := Some(nowMs))], deviceId, token)
  {
  }

  /** An expired confirmation is reported as such, never as a missing record. */
  lemma ExpiredIsNotMissing(table: map<string, SharingRecord>, catalogue: set<string>, deviceId: string, clock: int)
    requires Lower(deviceId) in table && table[Lower(deviceId)].ownerConfirmed.Some?
    requires table[Lower(deviceId)].ownerConfirmed.value + ConsentDurationMs < clock
    ensures GetByDeviceId(table, catalogue, deviceId, clock) == Failure(ConfirmationExpired)
  {
  }

  /** The super-user check is on the raw address and is case-sensitive. */
  lemma SuperUserCheckIsCaseSensitive(email: string)
    requires email == "alex@NORDICSEMI.NO"
    ensures !MayConfirmDirectly(email, None)
  {
    assert email[|email| - |"@nordicsemi.no"|..][1] == 'N';
  }
}
