# hello.nrfcloud.com/map backend: consent registry and user trust, in Dafny

This project models the part of the hello.nrfcloud.com/map backend that
decides which devices are public and who may act on them.

- **The public-device registry, in two generations side by side.**
  - `SharingRepo` models the table with explicit owner confirmation: a share stores a confirmation token that `confirmOwnership` must present.
  - `DevicesRepo`, `DeviceLookup` and `DeviceLists` model the TTL-only table: a share is valid until its `ttl` passes, and owners are stored by normalised address.
  - Each generation has a conditional put (`share`), reads that run the ordered chain not_found → not_confirmed → confirmation_expired → unsupported_model, and the public-id index that the `getById` lookups go through.
- **The handlers built on the TTL-only table.**
  - Extending a share by thirty days.
  - Listing a user's devices.
  - Grouping expiring devices by owner to notify them.
- **The email login-code table** (`EmailTokens`): requesting a code is one update guarded by a cooldown; verifying a code is an exact-match read.
- **The string logic.** This covers `normalizeEmail` and the `Email` acceptance pattern, built on models of JavaScript's `trim`, `toLowerCase`, `toUpperCase`, `split`, `indexOf` and `endsWith`.
- **The JWT trust layer.**
  - The header and claims of device and user tokens: `alg` per section 3.4 of RFC 7518; `aud`, `exp` and `iat` per section 4.1 of RFC 7519; `kid` per section 4.1.4 of RFC 7515.
  - The `verifyUserToken` decision chain.
  - The `withUser` middleware.
  - The JWK Set document (section 5 of RFC 7517).

Conventions:

- **Tables.** Each DynamoDB table is a `map` from its key to a record. A repository that writes holds the map in a class field, and each write is a method whose `ensures` gives the whole new map. Reads are functions over the map.
- **Index queries and scans.** These are sequences of items in the order DynamoDB yields them, taken from the first page of a single response, since the source never follows `LastEvaluatedKey`. A response without `Items` behaves like an empty one.
- **Time.** `Date.now()` is an explicit `clock` in epoch milliseconds. A `now` injected into a repository is the class constant `injectedNow`.
- **Randomness.** The outputs of `randomWords` and `generateCode` are parameters.
- **Models.** The catalogue of models is a `set<string>`.
- **Signatures.** Signing, decoding, signature checking and payload validation are uninterpreted function parameters.

## Model

| member | source | states |
|---|---|---|
| SharingRepo.GetPrivateRecordByDeviceId | sharing/publicDevicesRepo.ts:105-128 | Looks up the lower-cased id. Each error holds exactly when the earlier checks pass and its own fails: not_found, then not_confirmed (no `ownerConfirmed`), then confirmation_expired (`ownerConfirmed + consentDurationMS < clock`), then unsupported_model. Otherwise it returns the stored record. |
| SharingRepo.GetByDeviceId | sharing/publicDevicesRepo.ts:132-141 | Fails exactly when the private read fails, with the same error; otherwise returns only the record's `id` and `model`. |
| SharingRepo.GetDeviceById | sharing/publicDevicesRepo.ts:238-275 | not_found when the index has no item for the id; otherwise exactly the given `getByDeviceId` applied to the first item's device id. |
| SharingRepo.ShareRecord | sharing/publicDevicesRepo.ts:161-180 | The stored item: key `lowercase(deviceId)`, the raw email, `ttl` within half a second of `now + consent period`. A confirmed item has `ownerConfirmed = now`, no token and no token creation time. An unconfirmed one has the token and its creation time, and no `ownerConfirmed`. |
| SharingRepo.SharingRegistry.Share | sharing/publicDevicesRepo.ts:142-200 | A confirmed share for an address not ending in `@` + (domain or `nordicsemi.no`) fails with the fixed message before any write. An occupied lower-cased key fails with the table unchanged. Otherwise it puts `ShareRecord` with the upper-cased generated token and returns the id and that token. It keeps the table well keyed. |
| SharingRepo.SharingRegistry.ConfirmOwnership | sharing/publicDevicesRepo.ts:201-234 | Succeeds iff the raw key holds a record whose token equals the one given. It then sets only `ownerConfirmed := now` and returns the record id. A missing record and a wrong token give the same error and leave the table unchanged. |
| SharingRepo.UnconfirmedShareNotReadable | sharing/publicDevicesRepo.ts:118-119 | A share awaiting confirmation reads as not_confirmed at any time. |
| SharingRepo.ConfirmedShareLifetime | sharing/publicDevicesRepo.ts:121-127 | A fresh unconfirmed share can be confirmed with its token. Once confirmed, it reads as valid for one consent period after confirmation and as expired after that. |
| SharingRepo.DirectShareNotConfirmable | sharing/publicDevicesRepo.ts:170-179 | A share confirmed at creation stores no token, so no token confirms it. |
| SharingRepo.MixedCaseNeverConfirmable | sharing/publicDevicesRepo.ts:207 | `confirmOwnership` uses the raw key while `share` lower-cases it, so an id that is not lower case is never confirmable. |
| SharingRepo.ConfirmationKeepsToken | sharing/publicDevicesRepo.ts:209 | Confirming keeps the token, so presenting it again succeeds again. |
| SharingRepo.ExpiredIsNotMissing | sharing/publicDevicesRepo.ts:121-122 | An expired confirmation is reported as confirmation_expired through `getByDeviceId`. |
| SharingRepo.SuperUserCheckIsCaseSensitive | sharing/publicDevicesRepo.ts:150 | The super-user check compares the raw address, so `alex@NORDICSEMI.NO` may not share without confirmation. |
| DevicesRepo.SharedRecord | devices/publicDevicesRepo.ts:134-143 | The stored item: key `lowercase(deviceId)`, owner `normalizeEmail(email)`, the model unchecked, `ttl` within half a second of `now + consent period`. |
| DevicesRepo.ToPublic | devices/publicDevicesRepo.ts:183-189 | Keeps `id`, `deviceId` and `model` exactly. |
| DevicesRepo.PublicDevicesRepo.Share | devices/publicDevicesRepo.ts:127-162 | An occupied lower-cased key fails with the table unchanged. Otherwise it puts `SharedRecord` at the injected or current time and returns the generated id. It keeps the table well keyed. |
| DevicesRepo.PublicDevicesRepo.Remove | devices/publicDevicesRepo.ts:163-179 | Deletes exactly the raw key, whether present or not, and nothing else. |
| DevicesRepo.SharedRecordLifetime | devices/publicDevicesRepo.ts:136-140 | A fresh share reads back as valid until one consent period, less half a second, has passed, and as expired after one consent period plus half a second. |
| DevicesRepo.UnsupportedModelSharedButUnreadable | devices/publicDevicesRepo.ts:141 | The model is not checked on share; a share of an unknown model reads as unsupported_model. |
| DevicesRepo.RemoveMixedCaseIsNoOp | devices/publicDevicesRepo.ts:168-170 | Removing with an id that is not lower case leaves a well-keyed table as it is. |
| DevicesRepo.RemoveThenLookup | devices/publicDevicesRepo.ts:163-175 | After `remove`, the id reads as not_found and every other lookup is unchanged. |
| DevicesRepo.ToPublicForgetsPrivate | devices/publicDevicesRepo.ts:183-189 | Two records have the same public view iff they agree on `id`, `deviceId` and `model`. |
| DeviceLookup.GetDevicebyDeviceId | devices/getDevicebyDeviceId.ts:9-30 | Looks up the lower-cased id. not_found iff the key is absent; confirmation_expired iff present with `ttl*1000 < clock`; unsupported_model iff present, valid and of an unknown model. Otherwise it returns the record unchanged. It never reports not_confirmed. The same chain is devices/publicDevicesRepo.ts:82-101. |
| DeviceLookup.GetById | devices/getById.ts:19-40 | not_found when the index has no item for the id; otherwise exactly `getDevicebyDeviceId` of the first item's device id. The repository's own `getById` (devices/publicDevicesRepo.ts:104-125) is the same. |
| DeviceLookup.GetDeviceId | devices/getDeviceId.ts:20-43 | Fails, with not_found, iff no index item has the id; otherwise returns the first item's device id. |
| DeviceLookup.ExpiryIsStrict | devices/getDevicebyDeviceId.ts:24 | A record whose `ttl*1000` equals the clock is still valid; one millisecond later it is expired. |
| DeviceLookup.LookupOverTime | devices/getDevicebyDeviceId.ts:24 | A later read can only turn a valid record into an expired one, never the reverse. |
| DeviceLookup.DanglingEntry | devices/getById.ts:39 | An index item whose record is gone yields not_found, not a crash. |
| DeviceLookup.ExpiredStillResolves | devices/getDeviceId.ts:38-42 | An expired but stored record still resolves through `getDeviceId`, while `getById` reports it expired. |
| DeviceLookup.OnlyFirstItem | devices/getById.ts:37 | Items after the first match never change `getById` or `getDeviceId`. |
| IdIndex.Query | devices/getById.ts:20-36 | The index query returns exactly the items whose id equals the given one, with no case folding. |
| IdIndex.First | devices/getDeviceId.ts:38 | `(Items ?? [])[0]`: nothing iff no item matches; otherwise the first matching item. |
| DeviceRecords.ErrorCodeInjective | devices/PublicDeviceRecordError.ts:1-7 | The four error codes are pairwise distinct. |
| DeviceLists.ListDevicesByEmail | devices/listDevicesByEmail.ts:17-35 | Returns exactly the records of the given query page whose owner is `normalizeEmail(email)`, unchanged. |
| DeviceLists.ListExpiringDevices | devices/listExpiringDevices.ts:8-25 | Returns exactly the records of the given scan page with `ttl < expiresUntil/1000`, using the exact quotient. |
| DeviceLists.ListByEmailIgnoresCase | devices/listDevicesByEmail.ts:28 | Addresses equal up to letter case list the same devices. |
| DeviceLists.ListByEmailIgnoresTag | devices/listDevicesByEmail.ts:28 | `user+tag@domain` lists the same devices as `user@domain`. |
| DeviceLists.ListByEmailKeepsOrder | devices/listDevicesByEmail.ts:34 | The listing keeps the index order (it distributes over concatenation). |
| DeviceLists.ListExpiringKeepsOrder | devices/listExpiringDevices.ts:24 | The scan result keeps the scan order. |
| DeviceLists.ThresholdNotRounded | devices/listExpiringDevices.ts:18 | A record with `ttl` 5 is listed for a threshold of 5500 ms, though 5 is the floor of the threshold in seconds. |
| ExtendSharing.ExtendedTtl | lambda/extendDeviceSharing.ts:74 | The new `ttl` is the whole second at or before `now + 30 days`. |
| ExtendSharing.Extended | lambda/extendDeviceSharing.ts:64-78 | Keeps the set of keys; changes only the `ttl` of the one record. |
| ExtendSharing.NotShared | lambda/extendDeviceSharing.ts:57-62 | Status 404 with title `Device <id> not shared: <error>`. |
| ExtendSharing.Handle | lambda/extendDeviceSharing.ts:51-81 | An unresolvable public id throws the 404 problem without writing. Otherwise it sets the new `ttl` on the first index item's device id and answers 200. |
| ExtendSharing.ExtendIdempotent | lambda/extendDeviceSharing.ts:64-78 | Extending twice at the same time equals extending once. |
| ExtendSharing.ExtendKeepsOwnership | lambda/extendDeviceSharing.ts:67-68 | The record keeps its id, device id, model and owner. |
| ExtendSharing.ExtendRevives | lambda/extendDeviceSharing.ts:55-78 | A stored record of a known model, expired or not, reads as valid for 30 days, less one second, after an extension. |
| ListUserDevices.ToUserDevice | lambda/listUserDevices.ts:58-63 | Each item is the record's `id`, `deviceId`, `model` and `expires = ttl*1000`. |
| ListUserDevices.Project | lambda/listUserDevices.ts:55-63 | The items are exactly the projections of the records of a known model. |
| ListUserDevices.Handle | lambda/listUserDevices.ts:47-74 | Status 200, cached 60 s. The items are exactly the projections of the records owned by `normalizeEmail(user.email)` whose model is known. |
| ListUserDevices.ProjectKeepsOrder | lambda/listUserDevices.ts:55-63 | The projection keeps the listing's order. |
| ListUserDevices.ExpiredDeviceListed | lambda/listUserDevices.ts:51-63 | An expired record of a known model is listed, with `expires` in the past. |
| ListUserDevices.UnknownModelDropped | lambda/listUserDevices.ts:55-57 | A record of an unknown model is not listed. |
| NotifyExpiring.Owners | lambda/notifyAboutExpiringDevices.ts:33-44 | The accumulator's keys: distinct, and exactly the owner emails of the listed devices. |
| NotifyExpiring.GroupByOwner | lambda/notifyAboutExpiringDevices.ts:33-42 | The `reduce` yields the owners in first-seen order and maps each to `IdsOwnedBy`. |
| NotifyExpiring.Notifications | lambda/notifyAboutExpiringDevices.ts:44-52 | One notification per owner, in accumulator order, with that owner's ids. |
| NotifyExpiring.Handle | lambda/notifyAboutExpiringDevices.ts:30-53 | Nothing is sent in test mode. Otherwise it sends exactly `Notifications` of the scan page's devices expiring before `now + 3 days`. The table is not written. |
| NotifyExpiring.IdsOwnedByIsFilter | lambda/notifyAboutExpiringDevices.ts:35-38 | An owner's group equals the ids of the devices filtered by that owner. |
| NotifyExpiring.IdsKeepScanOrder | lambda/notifyAboutExpiringDevices.ts:38 | Ids under one owner keep the scan order. |
| NotifyExpiring.DeviceListedUnderOwner | lambda/notifyAboutExpiringDevices.ts:35-38 | Every device's id is in its own owner's group. |
| NotifyExpiring.NoIdsForStrangers | lambda/notifyAboutExpiringDevices.ts:35-38 | An address that owns none of the devices has an empty group. |
| NotifyExpiring.GroupsPartitionDevices | lambda/notifyAboutExpiringDevices.ts:33-42 | The groups hold as many ids as there are devices: each device is grouped exactly once. |
| NotifyExpiring.EveryDeviceNotified | lambda/notifyAboutExpiringDevices.ts:44-52 | Every device listed from the scan page has its id sent to its owner. |
| NotifyExpiring.NoOwnerNotifiedTwice | lambda/notifyAboutExpiringDevices.ts:44 | No address is notified twice. |
| EmailTokens.TokenKey | users/emailConfirmationTokensRepo.ts:126 | The key is lower case and no longer than the address, and an address already lower case and trimmed is its own key, so two different such addresses never share a key. |
| EmailTokens.Issued | users/emailConfirmationTokensRepo.ts:49-79 | Without an injected now, `ttl` is `floor((now + 5 min)/1000)` and `rerequestAfter` is `floor((now + 1 min)/1000)`. With one, both are `floor(now/1000)`. |
| EmailTokens.VerifyToken | users/emailConfirmationTokensRepo.ts:99-122 | Succeeds, with the stored `ttl`, iff a record exists under the key and its code equals the token exactly. Otherwise it fails with "Token mismatch". |
| EmailTokens.TokenStore.RequestToken | users/emailConfirmationTokensRepo.ts:44-98 | When there is no record, or its `ttl` or `rerequestAfter` is strictly before now in seconds, it writes `Issued` with the upper-cased code and returns the address and the code. Otherwise it fails with the table unchanged. |
| EmailTokens.IssuedTokenVerifies | users/emailConfirmationTokensRepo.ts:92-116 | The code just issued verifies for any address with the same key. |
| EmailTokens.VerifyIgnoresExpiry | users/emailConfirmationTokensRepo.ts:107-116 | Verification does not look at `ttl`, so an expired matching code still verifies. |
| EmailTokens.CooldownIsOneMinute | users/emailConfirmationTokensRepo.ts:52-64 | Without an injected now, another request within a minute of the last is refused; from a minute and a second on it is allowed. |
| EmailTokens.InjectedNowBlocksRerequest | users/emailConfirmationTokensRepo.ts:50-64 | With an injected now, a second request is always refused. |
| EmailTokens.TokenKeyIgnoresCaseAndPadding | users/emailConfirmationTokensRepo.ts:126 | Surrounding whitespace and letter case do not change the key. |
| EmailTokens.TokenKeyKeepsPlus | users/emailConfirmationTokensRepo.ts:126 | A `+` stays in the key, while `normalizeEmail` removes it from the local part. |
| EmailNormalization.NormalizeEmail | users/normalizeEmail.ts:1-5 | The result is lower case, contains `@`, and has no `+` before its first `@`. |
| EmailNormalization.NormalizeIgnoresPadding | users/normalizeEmail.ts:2 | Surrounding whitespace does not change the result. |
| EmailNormalization.NormalizeIgnoresCase | users/normalizeEmail.ts:2 | Addresses equal up to letter case normalise alike. |
| EmailNormalization.NormalizeDropsPlusTag | users/normalizeEmail.ts:4 | `user+tag@domain` normalises like `user@domain`. |
| EmailNormalization.NormalizeWithoutAt | users/normalizeEmail.ts:3-4 | Without `@`, the domain becomes the text `undefined`. |
| EmailNormalization.NormalizeKeepsFirstTwoParts | users/normalizeEmail.ts:3 | Anything after a second `@` is dropped, provided the domain part does not end in whitespace (otherwise `trim` could not reach past the second `@` in the one input and would in the other). |
| EmailNormalization.NormalizeAt | users/normalizeEmail.ts:1-5 | For `local@domain`, the result is the lower-cased local part, trimmed at its start and cut at `+`, then `@`, then the lower-cased domain trimmed at its end. |
| EmailNormalization.NormalizeIdempotent | users/normalizeEmail.ts:1-5 | For an address with exactly one `@`, normalising twice equals normalising once. |
| EmailNormalization.NormalizePlain | users/normalizeEmail.ts:1-5 | An address without padding or tag is only lower-cased. |
| EmailNormalization.NormalizeExample | users/normalizeEmail.spec.ts:6-8 | `Alex@Example.Com` becomes `alex@example.com`. |
| EmailNormalization.NormalizeTaggedExample | users/normalizeEmail.spec.ts:10-15 | `Alex+Extension@Example.Com` becomes `alex@example.com`. |
| EmailValidation.Matches | util/validation/email.ts:3-7 | The recogniser splits at the first `@`. |
| EmailValidation.MatchesIsEmail | util/validation/email.ts:3-7 | The recogniser accepts exactly the strings `L@D` with 1 ≤ \|L\| ≤ 256, 3 ≤ \|D\| ≤ 253, and no `@`, `;`, `"` or space in L or D. |
| EmailValidation.AcceptedShape | util/validation/email.ts:5 | An accepted string has exactly one `@` and 5 to 510 characters. |
| EmailValidation.MatchesIgnoresCase | util/validation/email.ts:6 | Lower- or upper-casing does not change acceptance. |
| EmailValidation.AcceptedExample | util/validation/email.spec.ts:10-17 | `alex@example.com` is accepted. |
| EmailValidation.AcceptedShortExample | util/validation/email.spec.ts:10-17 | `a@a.no`, whose local part is one character, is accepted. |
| EmailValidation.RejectedExample | util/validation/email.ts:5 | A domain shorter than three characters, an empty local part and a space are refused. |
| Jwt.Registered | jwt/deviceJWT.ts:24-29 | `aud` is `hello.nrfcloud.com`, `iat` is the current whole second, `exp - iat` is the lifetime. |
| Jwt.DeviceJWT | jwt/deviceJWT.ts:6-30 | Header `{ES512, keyId}`; the device-JWT context; the payload copies `id`, `deviceId` and `model`; `exp = iat + 3600`; signed with the private key only. |
| Jwt.UserJWT | jwt/userJWT.ts:5-27 | Header `{ES512, keyId}`; the user-JWT context; the payload is the address unchanged; `exp = iat + 86400`. |
| Jwt.DeviceTokenLifetime | jwt/deviceJWT.ts:26 | A device token expires between 3599 and 3600 seconds after the clock reading it was issued at. |
| Jwt.TokenKindsDistinct | jwt/userJWT.ts:15-26 | Device and user tokens share header, audience and `iat`, differ in context and claims, and expire 23 hours apart. |
| TokenVerification.VerifyUserToken | jwt/verifyUserToken.ts:11-56 | The checks run in a fixed order: no token, then no key id (also when decoding fails), then unknown key id, then the thrown signature or audience error, returned as `Rejected` with the thrown message, then the payload check, returned as `Invalid` with its error. Each of the five errors holds iff the earlier checks pass and its own check fails, so the signature is checked before the payload. Success iff all pass, with the validated user. |
| TokenVerification.IssuedTokenVerifies | jwt/verifyUserToken.ts:33-52 | A `userJWT` token under a known key, whose signature passes and whose payload validates, yields its user. |
| TokenVerification.KeyIdCheckedFirst | jwt/verifyUserToken.ts:30-31 | A token without a key id fails the same way for every key set. |
| TokenVerification.UnknownKeyNotVerified | jwt/verifyUserToken.ts:33-37 | For an unknown key id, the signature check is never consulted. |
| TokenVerification.MessagesDistinct | jwt/verifyUserToken.ts:23-37 | The three fixed messages are distinct. |
| WithUser.BearerToken | lambda/middleware/withUser.ts:21-23 | A missing header, or one without a space, gives `''`. The token never holds a space. |
| WithUser.Unauthorized | lambda/middleware/withUser.ts:26-30 | Status 400, title `Failed to validate JWT!`, detail the error message. |
| WithUser.RequestContext.constructor | lambda/middleware/withUser.ts:37-39 | A fresh context has no user. |
| WithUser.Before | lambda/middleware/withUser.ts:20-34 | On a verification error it throws the 400 problem and leaves `context.user` as it was. Otherwise it sets `context.user` to the verified user and throws nothing. |
| WithUser.BearerTokenOfHeader | lambda/middleware/withUser.ts:22 | `<scheme> <token>` yields the token. |
| WithUser.NeverNoToken | lambda/middleware/withUser.ts:21-23 | Through the middleware, `verifyUserToken` never reports a missing token. |
| WithUser.MissingHeaderDetail | lambda/middleware/withUser.ts:21-29 | Without a header, the problem detail is the missing key id message, given that the empty string does not decode. |
| Jwks.Handle | lambda/jwks.ts:17-36 | Status 200; JSON content type; `Cache-Control: public, max-age=600`; `@context` is the RFC 7517 URL; exactly one key `{ES512, keyId, sig, publicKey}`. |
| Jwks.VerifierKeys | lambda/extendDeviceSharing.ts:90-92 | The verifiers' key map holds exactly `keyId ↦ publicKey`. |
| Jwks.PublishedKeysAreVerifierKeys | lambda/jwks.ts:26-33 | Every published key is the verifiers' key under its `kid`, with the signing algorithm. Every key id the verifiers know is published. |
| Consent.RoundSeconds | devices/publicDevicesRepo.ts:139 | `Math.round(ms/1000)` lies within half a second of `ms`. |
| Consent.FloorSeconds | lambda/extendDeviceSharing.ts:74 | `Math.floor(ms/1000)` is the whole second at or before `ms`. |
| Strings.TrimPadding | users/normalizeEmail.ts:2 | `trim` ignores whitespace added around a string. |
| Strings.TrimKeeps | users/emailConfirmationTokensRepo.ts:126 | `trim` keeps every non-whitespace character. |
| Strings.SplitJoin | users/normalizeEmail.ts:3 | Splitting on a character and joining with it gives the string back. |

## Left out

- **Infrastructure.** The DynamoDB, SES and SSM clients, their failures (a thrown SDK error other than a failed condition), marshalling, and the ISO-8601, base64 and JSON encodings. Console logging is left out everywhere, including the `console.error` of `WithUser.Before` when a token is refused. Each write is atomic per key, so no concurrency is modelled.
- **Times and catalogue.** Times stored as ISO text are epoch milliseconds here. `consentDuration.ts` is not part of this model: the consent period is 30 days, and the millisecond constant is 1000 times the seconds constant. The `models` catalogue is an arbitrary set.
- **Letter case.** Only ASCII letters have a case. JavaScript's full Unicode case mapping, and lengths counted in UTF-16 code units rather than characters, are left out.
- **`getById.ts`.** It reads through `getByDeviceId.ts`, which is not part of this model. It is taken to behave as devices/getDevicebyDeviceId.ts.
- **devices/publicDevicesRepo.spec.ts.** The model follows the code, not this test. The test expects `share` to store an ownership token and calls `confirmOwnership` on the TTL-only repository. That repository has neither: both belong to sharing/publicDevicesRepo.ts.
- **ExtendSharing.Handle.** Models the update only for a key that is present. DynamoDB's `UpdateItem` on a missing key (an index item whose record is gone) would create an item holding only `deviceId` and `ttl`; the model leaves the table unchanged instead.
- **ExtendSharing.Handle.** The user check of the `withUser` middleware is modelled separately (`WithUser.Before`). The handler itself never compares the user with the owner.
- **EmailTokens.VerifyToken.** Returns the stored `ttl` as a number. The source passes it to `new Date(...)` as a numeric string of seconds; that date parsing is not modelled.
- **NotifyExpiring.GroupByOwner.** Models the accumulator's keys in insertion order. This is `Object.entries` order for keys that are not array indices (no address with an `@` is one) and not names of `Object.prototype` members. Console logging and the email body are left out; each email is the pair sent.
- **JWT.**
  - The compact serialisation, `typ` and other library-added header members are left out.
  - The ECDSA signature, decoding and verification are uninterpreted. Their agreement is an assumption of `TokenVerification.IssuedTokenVerifies`.
  - The URLs behind `Context.deviceJWT`, `Context.userJWT` and `Context.userDevices` belong to the protocol package and are named, not spelled out.
  - The `ValidationError` message text is the validator's.
- **Pagination.** `DeviceLists.ListDevicesByEmail`, `DeviceLists.ListExpiringDevices`, `NotifyExpiring.Handle`, `NotifyExpiring.EveryDeviceNotified` and `ListUserDevices.Handle` work on one page: each input sequence is the first page of a single Query or Scan response (at most 1 MB read before the filter applies). The source does not paginate, so on a large table devices past the first page are never listed or notified; the model says nothing about them.
- **SharingRepo.SharingRegistry.Share.** The super-user refusal is a thrown `Error` in the source, outside the `try` and outside the declared `{ error } | { publicDevice }` result. The model shows it as the separate `Failure(OnlySuperUsers(..))` constructor, so a caller that only inspects `error` in the result would, in the source, see an exception instead.
- **DeviceRecords.DeviceRecord.** `ttl` is always present here. A stored item without `ttl` gives `undefined * 1000 < Date.now()`, which is false, so the source treats it as never expired; the model cannot represent such an item.
- **Transport glue.** Input validation with TypeBox, the CORS, version-header and problem-response middlewares, and the HTTP handlers that only call a repository are left out.
