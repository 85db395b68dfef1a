/**
 * The handler `h` of lambda/notifyAboutExpiringDevices.ts: it lists the
 * devices whose sharing expires within three days, groups their public ids
 * by owner email with a `reduce` into a record of arrays, and sends one email
 * per owner unless running as a test. Sending is modelled as the list of
 * notifications sent; the device table is only read.
 */
module NotifyExpiring {
  import opened Sequences
  import opened DeviceRecords
  import opened DeviceLists

  /** `1000 * 60 * 60 * 24 * 3`: three days, in milliseconds. */
  const NoticeMs: int := 1000 * 60 * 60 * 24 * 3

  /** One `sendEmail({ email, ids })`. */
  datatype Notification = Notification(email: string, ids: seq<string>)

  predicate Distinct(s: seq<string>) {
    forall i, j :: 0 <= i < j < |s| ==> s[i] != s[j]
  }

  /**
   * The keys of the accumulator in `Object.entries` order: the owner emails,
   * each once, in the order of their first device. (Insertion order is the
   * entries order for keys that are not array indices, as no address with an
   * `@` is.)
   */
  function Owners(devices: seq<DeviceRecord>): (r: seq<string>)
    ensures Distinct(r)
    ensures forall e :: e in r <==> exists d :: d in devices && d.ownerEmail == e
  {
    if devices == [] then []
    else
      var init := devices[..|devices| - 1];
      var last := devices[|devices| - 1];
      var owners := Owners(init);
      assert devices == init + [last];
      if last.ownerEmail in owners then owners else owners + [last.ownerEmail]
  }

  /** The array under `email` in the accumulator: the ids of that owner's devices, in scan order. */
  function IdsOwnedBy(devices: seq<DeviceRecord>, email: string): (r: seq<string>)
    ensures |r| <= |devices|
  {
    if devices == [] then []
    else
      var last := devices[|devices| - 1];
      IdsOwnedBy(devices[..|devices| - 1], email) + (if last.ownerEmail == email then [last.id] else [])
  }

  /** What `h` sends, one notification per owner, when not in test mode. */
  function Notifications(devices: seq<DeviceRecord>): (r: seq<Notification>)
    ensures |r| == |Owners(devices)|
    ensures forall i :: 0 <= i < |r| ==> r[i] == Notification(Owners(devices)[i], IdsOwnedBy(devices, Owners(devices)[i]))
  {
    Map(Owners(devices), (e: string) => Notification(e, IdsOwnedBy(devices, e)))
  }

  /** Adding a device adds its owner at the end, unless already there. */
  lemma OwnersSnoc(devices: seq<DeviceRecord>, d: DeviceRecord)
    ensures Owners(devices + [d])
         == if d.ownerEmail in Owners(devices) then Owners(devices) else Owners(devices) + [d.ownerEmail]
  {
    assert (devices + [d])[..|devices + [d]| - 1] == devices;
  }

  /** Adding a device adds its id to its owner's group only. */
  lemma IdsSnoc(devices: seq<DeviceRecord>, d: DeviceRecord, email: string)
    ensures IdsOwnedBy(devices + [d], email) == IdsOwnedBy(devices, email) + (if d.ownerEmail == email then [d.id] else [])
  {
    assert (devices + [d])[..|devices + [d]| - 1] == devices;
  }

  /** `groups` is the accumulator after `devices`, with `emails` its keys in insertion order. */
  ghost predicate Grouped(devices: seq<DeviceRecord>, emails: seq<string>, groups: map<string, seq<string>>) {
    && emails == Owners(devices)
    && (forall e :: e in groups <==> e in emails)
    && (forall e :: e in groups ==> groups[e] == IdsOwnedBy(devices, e))
  }

  /** One step of the `reduce` keeps the accumulator in step with the devices seen. */
  lemma GroupedSnoc(devices: seq<DeviceRecord>, d: DeviceRecord, devices': seq<DeviceRecord>,
                    emails: seq<string>, groups: map<string, seq<string>>,
                    emails': seq<string>, groups': map<string, seq<string>>)
    requires Grouped(devices, emails, groups)
    requires devices' == devices + [d]
    requires emails' == if d.ownerEmail in groups then emails else emails + [d.ownerEmail]
    requires groups' == groups[d.ownerEmail := (if d.ownerEmail in groups then groups[d.ownerEmail] else []) + [d.id]]
    ensures Grouped(devices', emails', groups')
  {
    OwnersSnoc(devices, d);
    GroupsSnoc(devices, d, groups, groups');
  }

  lemma GroupsSnoc(devices: seq<DeviceRecord>, d: DeviceRecord,
                   groups: map<string, seq<string>>, groups': map<string, seq<string>>)
    requires forall e :: e in groups ==> e in Owners(devices) && groups[e] == IdsOwnedBy(devices, e)
    requires d.ownerEmail in Owners(devices) ==> d.ownerEmail in groups
    requires groups' == groups[d.ownerEmail := (if d.ownerEmail in groups then groups[d.ownerEmail] else []) + [d.id]]
    ensures forall e :: e in groups' ==> groups'[e] == IdsOwnedBy(devices + [d], e)
  {
    if d.ownerEmail !in groups {
      NoIdsForStrangers(devices, d.ownerEmail);
    }
    forall e | e in groups'
      ensures groups'[e] == IdsOwnedBy(devices + [d], e)
    {
      IdsSnoc(devices, d, e);
    }
  }

  /** The `reduce` callback: open the owner's array if missing, then push the id. */
  method Push(emails: seq<string>, groups: map<string, seq<string>>, d: DeviceRecord)
    returns (emails': seq<string>, groups': map<string, seq<string>>)
    ensures emails' == if d.ownerEmail in groups then emails else emails + [d.ownerEmail]
    ensures groups' == groups[d.ownerEmail := (if d.ownerEmail in groups then groups[d.ownerEmail] else []) + [d.id]]
  {
    emails', groups' := emails, groups;
    if d.ownerEmail !in groups' {
      emails' := emails' + [d.ownerEmail];
      groups' := groups'[d.ownerEmail := []];
    }
    groups' := groups'[d.ownerEmail := groups'[d.ownerEmail] + [d.id]];
  }

  /**
   * The `reduce`: the accumulator's keys in insertion order, and the
   * accumulator itself.
   */
  method GroupByOwner(devices: seq<DeviceRecord>) returns (emails: seq<string>, groups: map<string, seq<string>>)
    ensures emails == Owners(devices)
    ensures forall e :: e in groups <==> e in emails
    ensures forall e :: e in groups ==> groups[e] == IdsOwnedBy(devices, e)
  {
    emails := [];
    groups := map[];
    var i := 0;
    while i < |devices|
      invariant 0 <= i <= |devices|
      invariant Grouped(devices[..i], emails, groups)
    {
      var d := devices[i];
      var emails', groups' := Push(emails, groups, d);
      TakeOneMore(devices, i);
      GroupedSnoc(devices[..i], d, devices[..i + 1], emails, groups, emails', groups');
      emails, groups := emails', groups';
      i := i + 1;
    }
    assert devices[..i] == devices;
  }

  /**
   * `h` at `clock`: the notifications sent, in order. In test mode nothing is
   * sent.
   */
  method Handle(scan: seq<DeviceRecord>, clock: int, isTest: bool) returns (sent: seq<Notification>)
    ensures isTest ==> sent == []
    ensures !isTest ==> sent == Notifications(ListExpiringDevices(scan, clock + NoticeMs))
  {
    var devices := ListExpiringDevices(scan, clock + NoticeMs);
    var emails, groups := GroupByOwner(devices);
    sent := [];
    ghost var all := Notifications(devices);
    for j := 0 to |emails|
      invariant isTest ==> sent == []
      invariant !isTest ==> sent == all[..j]
    {
      if !isTest {
        TakeOneMore(all, j);
        sent := sent + [Notification(emails[j], groups[emails[j]])];
      }
    }
    assert all[..|emails|] == all;
  }

  // ------------------------------------------------------------ properties

  /** The grouping is the filter of the owner's devices, mapped to their ids. */
  lemma {:induction false} IdsOwnedByIsFilter(devices: seq<DeviceRecord>, email: string)
    ensures IdsOwnedBy(devices, email)
         == Map(Filter(devices, (d: DeviceRecord) => d.ownerEmail == email), (d: DeviceRecord) => d.id)
  {
    if devices != [] {
      var init := devices[..|devices| - 1];
      var last := devices[|devices| - 1];
      var p := (d: DeviceRecord) => d.ownerEmail == email;
      var id := (d: DeviceRecord) => d.id;
      calc {
        IdsOwnedBy(devices, email);
        IdsOwnedBy(init, email) + (if last.ownerEmail == email then [last.id] else []);
      == { IdsOwnedByIsFilter(init, email); }
        Map(Filter(init, p), id) + (if p(last) then [last.id] else []);
      == { assert Filter([last], p) == if p(last) then [last] else []; }
        Map(Filter(init, p), id) + Map(Filter([last], p), id);
      == { MapConcat(Filter(init, p), Filter([last], p), id); }
        Map(Filter(init, p) + Filter([last], p), id);
      == { FilterConcat(init, [last], p);
           assert devices == init + [last]; }
        Map(Filter(devices, p), id);
      }
    }
  }

  /** Ids under one owner keep the scan order: grouping distributes over concatenation. */
  lemma IdsKeepScanOrder(a: seq<DeviceRecord>, b: seq<DeviceRecord>, email: string)
    ensures IdsOwnedBy(a + b, email) == IdsOwnedBy(a, email) + IdsOwnedBy(b, email)
  {
    var p := (d: DeviceRecord) => d.ownerEmail == email;
    var id := (d: DeviceRecord) => d.id;
    IdsOwnedByIsFilter(a + b, email);
    IdsOwnedByIsFilter(a, email);
    IdsOwnedByIsFilter(b, email);
    FilterConcat(a, b, p);
    MapConcat(Filter(a, p), Filter(b, p), id);
  }

  /** Every device's id is listed under its own owner. */
  lemma {:induction false} DeviceListedUnderOwner(devices: seq<DeviceRecord>, d: DeviceRecord)
    requires d in devices
    ensures d.id in IdsOwnedBy(devices, d.ownerEmail)
  {
    var init := devices[..|devices| - 1];
    assert devices == init + [devices[|devices| - 1]];
    if devices[|devices| - 1] != d {
      DeviceListedUnderOwner(init, d);
    }
  }

  /** An address that owns none of the devices gets no ids. */
  lemma {:induction false} NoIdsForStrangers(devices: seq<DeviceRecord>, email: string)
    requires email !in Owners(devices)
    ensures IdsOwnedBy(devices, email) == []
  {
    if devices != [] {
      var init := devices[..|devices| - 1];
      assert devices == init + [devices[|devices| - 1]];
      NoIdsForStrangers(init, email);
    }
  }

  /** The number of ids grouped under the addresses `emails`. */
  function Total(devices: seq<DeviceRecord>, emails: seq<string>): nat {
    if emails == [] then 0 else |IdsOwnedBy(devices, emails[0])| + Total(devices, emails[1..])
  }

  lemma {:induction false} TotalStep(devices: seq<DeviceRecord>, d: DeviceRecord, emails: seq<string>)
    requires Distinct(emails)
    ensures Total(devices + [d], emails) == Total(devices, emails) + (if d.ownerEmail in emails then 1 else 0)
  {
    if emails != [] {
      assert (devices + [d])[..|devices + [d]| - 1] == devices;
      TotalStep(devices, d, emails[1..]);
      assert d.ownerEmail in emails <==> d.ownerEmail == emails[0] || d.ownerEmail in emails[1..];
      if d.ownerEmail == emails[0] {
        assert d.ownerEmail !in emails[1..];
      }
    }
  }

  lemma {:induction false} TotalAppend(devices: seq<DeviceRecord>, emails: seq<string>, email: string)
    ensures Total(devices, emails + [email]) == Total(devices, emails) + |IdsOwnedBy(devices, email)|
  {
    if emails != [] {
      assert (emails + [email])[1..] == emails[1..] + [email];
      TotalAppend(devices, emails[1..], email);
    }
  }

  /**
   * Each listed device is grouped exactly once: the groups hold as many ids
   * as there are devices.
   */
  lemma {:induction false} GroupsPartitionDevices(devices: seq<DeviceRecord>)
    ensures Total(devices, Owners(devices)) == |devices|
  {
    if devices != [] {
      var init := devices[..|devices| - 1];
      var d := devices[|devices| - 1];
      assert devices == init + [d];
      GroupsPartitionDevices(init);
      TotalStep(init, d, Owners(init));
      if d.ownerEmail !in Owners(init) {
        TotalAppend(devices, Owners(init), d.ownerEmail);
        NoIdsForStrangers(init, d.ownerEmail);
      }
    }
  }

  /**
   * One notification per distinct owner, each to a different address, and
   * every device's id is sent to its owner.
   */
  lemma EveryDeviceNotified(devices: seq<DeviceRecord>, d: DeviceRecord)
    requires d in devices
    ensures exists i :: 0 <= i < |Notifications(devices)| &&
                        Notifications(devices)[i].email == d.ownerEmail && d.id in Notifications(devices)[i].ids
  {
    var os := Owners(devices);
    assert d.ownerEmail in os;
    var i :| 0 <= i < |os| && os[i] == d.ownerEmail;
    DeviceListedUnderOwner(devices, d);
    assert Notifications(devices)[i].email == d.ownerEmail;
  }

  /** No address is notified twice. */
  lemma NoOwnerNotifiedTwice(devices: seq<DeviceRecord>)
    ensures forall i, j :: 0 <= i < j < |Notifications(devices)| ==>
      Notifications(devices)[i].email != Notifications(devices)[j].email
  {
  }
}
