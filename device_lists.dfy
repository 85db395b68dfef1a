/**
 * The two listings of the TTL-only device table: `listDevicesByEmail`
 * (devices/listDevicesByEmail.ts), a query of the owner-email index, and
 * `listExpiringDevices` (devices/listExpiringDevices.ts), a filtered scan.
 * Both are read-only and return the records as stored. The index and the
 * scan are given as their items in the order DynamoDB yields them; a
 * response without `Items` yields the empty list, the same as an empty one.
 */
module DeviceLists {
  import opened Strings
  import opened Sequences
  import opened EmailNormalization
  import opened DeviceRecords
  import opened Consent

  /** The owner-email index query `#ownerEmail = :email` for an already normalised key. */
  function OwnedBy(ownerIndex: seq<DeviceRecord>, key: string): (r: seq<DeviceRecord>)
    ensures forall d :: d in r <==> d in ownerIndex && d.ownerEmail == key
  {
    Filter(ownerIndex, (d: DeviceRecord) => d.ownerEmail == key)
  }

  /** `listDevicesByEmail`: the records whose owner is `normalizeEmail(email)`. */
  function ListDevicesByEmail(ownerIndex: seq<DeviceRecord>, email: string): (r: seq<DeviceRecord>)
    ensures forall d :: d in r <==> d in ownerIndex && d.ownerEmail == NormalizeEmail(email)
    ensures |r| <= |ownerIndex|
  {
    OwnedBy(ownerIndex, NormalizeEmail(email))
  }

  /**
   * `listExpiringDevices`: the records with `ttl < expiresUntil / 1000`,
   * compared against the exact, unrounded quotient.
   */
  function ListExpiringDevices(scan: seq<DeviceRecord>, expiresUntilMs: int): (r: seq<DeviceRecord>)
    ensures forall d :: d in r <==> d in scan && (d.ttl as real) < (expiresUntilMs as real) / 1000.0
    ensures |r| <= |scan|
  {
    Filter(scan, (d: DeviceRecord) => d.ttl * 1000 < expiresUntilMs)
  }

  // ------------------------------------------------------------ properties

  /** Addresses differing only in letter case list the same devices. */
  lemma ListByEmailIgnoresCase(ownerIndex: seq<DeviceRecord>, a: string, b: string)
    requires Lower(a) == Lower(b)
    ensures ListDevicesByEmail(ownerIndex, a) == ListDevicesByEmail(ownerIndex, b)
  {
    NormalizeIgnoresCase(a, b);
  }

  /** An address with a `+tag` lists the same devices as the untagged one. */
  lemma ListByEmailIgnoresTag(ownerIndex: seq<DeviceRecord>, user: string, tag: string, domain: string)
    requires '@' !in user && '+' !in user && '@' !in tag
    ensures ListDevicesByEmail(ownerIndex, user + "+" + tag + "@" + domain)
         == ListDevicesByEmail(ownerIndex, user + "@" + domain)
  {
    NormalizeDropsPlusTag(user, tag, domain);
  }

  /** The listing keeps the index order: it distributes over concatenation. */
  lemma ListByEmailKeepsOrder(a: seq<DeviceRecord>, b: seq<DeviceRecord>, email: string)
    ensures ListDevicesByEmail(a + b, email) == ListDevicesByEmail(a, email) + ListDevicesByEmail(b, email)
  {
    FilterConcat(a, b, (d: DeviceRecord) => d.ownerEmail == NormalizeEmail(email));
  }

  /** The scan keeps its order too. */
  lemma ListExpiringKeepsOrder(a: seq<DeviceRecord>, b: seq<DeviceRecord>, expiresUntilMs: int)
    ensures ListExpiringDevices(a + b, expiresUntilMs)
         == ListExpiringDevices(a, expiresUntilMs) + ListExpiringDevices(b, expiresUntilMs)
  {
    FilterConcat(a, b, (d: DeviceRecord) => d.ttl * 1000 < expiresUntilMs);
  }

  /**
   * The threshold is not rounded: a record whose `ttl` equals the threshold's
   * whole seconds is still listed when the threshold has a fraction.
   */
  lemma ThresholdNotRounded(d: DeviceRecord)
    requires d.ttl == 5
    ensures ListExpiringDevices([d], 5500) == [d]
    ensures d.ttl == FloorSeconds(5500)
  {
    assert d in ListExpiringDevices([d], 5500);
  }
}
