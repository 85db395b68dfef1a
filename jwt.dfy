/**
 * The token builders of jwt/deviceJWT.ts and jwt/userJWT.ts: the header
 * (`alg` per section 3.4 of RFC 7518, `kid` per section 4.1.4 of RFC 7515)
 * and the claims (`aud`, `exp` and `iat` per sections 4.1.3, 4.1.4 and
 * 4.1.6 of RFC 7519) that `jwt.sign` is given. The ECDSA signature is an
 * uninterpreted `sign` function of the header, the claims and the private
 * key; the compact serialisation is not part of this model.
 */
module Jwt {
  import opened Consent
  import opened DevicesRepo

  /** The only algorithm the backend signs with. */
  const Algorithm: string := "ES512"

  /** The audience of every token, and the one `verifyUserToken` expects. */
  const Audience: string := "hello.nrfcloud.com"

  /** `expiresIn: '1h'`. */
  const DeviceTokenLifetimeSeconds: int := 60 * 60

  /** `expiresIn: '24h'`. */
  const UserTokenLifetimeSeconds: int := 24 * 60 * 60

  /** The entries of `Context` of the protocol package; their URLs are not part of this model. */
  datatype JwtContext = DeviceJwtContext | UserJwtContext

  datatype Header = Header(alg: string, kid: string)

  /** The payload given to `jwt.sign`. */
  datatype Payload =
    | DevicePayload(id: string, deviceId: string, model: string)
    | UserPayload(email: string)

  /** The payload and the registered claims `jwt.sign` adds from its options. */
  datatype Claims = Claims(context: JwtContext, payload: Payload, aud: string, iat: int, exp: int)

  datatype Token = Token(header: Header, claims: Claims, signature: string)

  /** The header for a key: `{alg: ES512, kid: keyId}`. */
  function HeaderFor(keyId: string): (h: Header)
    ensures h.alg == Algorithm && h.kid == keyId
  {
    Header(Algorithm, keyId)
  }

  /**
   * The registered claims `jwt.sign` adds at `clock`: `iat` is the current
   * time in whole seconds, `exp` lies `lifetime` seconds after it.
   */
  function Registered(context: JwtContext, payload: Payload, lifetime: int, clock: int): (c: Claims)
    ensures c.context == context && c.payload == payload && c.aud == Audience
    ensures c.iat * 1000 <= clock < c.iat * 1000 + 1000
    ensures c.exp - c.iat == lifetime
  {
    var iat := FloorSeconds(clock);
    Claims(context, payload, Audience, iat, iat + lifetime)
  }

  /** `deviceJWT`: the record's `id`, `deviceId` and `model`, for one hour. */
  function DeviceJWT(device: PublicView, privateKey: string, keyId: string,
                     sign: (Header, Claims, string) -> string, clock: int): (t: Token)
    ensures t.header == HeaderFor(keyId)
    ensures t.claims.context == DeviceJwtContext && t.claims.aud == Audience
    ensures t.claims.payload == DevicePayload(device.id, device.deviceId, device.model)
    ensures t.claims.exp == t.claims.iat + DeviceTokenLifetimeSeconds
    ensures t.claims.iat == FloorSeconds(clock)
    ensures t.signature == sign(t.header, t.claims, privateKey)
  {
    var header := HeaderFor(keyId);
    var claims := Registered(DeviceJwtContext, DevicePayload(device.id, device.deviceId, device.model), DeviceTokenLifetimeSeconds, clock);
    Token(header, claims, sign(header, claims, privateKey))
  }

  /** `userJWT`: the address exactly as given, for 24 hours. */
  function UserJWT(email: string, privateKey: string, keyId: string,
                   sign: (Header, Claims, string) -> string, clock: int): (t: Token)
    ensures t.header == HeaderFor(keyId)
    ensures t.claims.context == UserJwtContext && t.claims.aud == Audience
    ensures t.claims.payload == UserPayload(email)
    ensures t.claims.exp == t.claims.iat + UserTokenLifetimeSeconds
    ensures t.claims.iat == FloorSeconds(clock)
    ensures t.signature == sign(t.header, t.claims, privateKey)
  {
    var header := HeaderFor(keyId);
    var claims := Registered(UserJwtContext, UserPayload(email), UserTokenLifetimeSeconds, clock);
    Token(header, claims, sign(header, claims, privateKey))
  }

  // ------------------------------------------------------------ properties

  /** A device token is still valid one hour after it was issued and no longer. */
  lemma DeviceTokenLifetime(device: PublicView, privateKey: string, keyId: string,
                            sign: (Header, Claims, string) -> string, clock: int)
    ensures var t := DeviceJWT(device, privateKey, keyId, sign, clock);
      clock + 3600 * 1000 - 1000 < t.claims.exp * 1000 <= clock + 3600 * 1000
  {
  }

  /**
   * Device and user tokens differ in payload and context, so one is never
   * mistaken for the other, while header and audience are the same.
   */
  lemma TokenKindsDistinct(device: PublicView, email: string, privateKey: string, keyId: string,
                           sign: (Header, Claims, string) -> string, clock: int)
    ensures var d := DeviceJWT(device, privateKey, keyId, sign, clock);
      var u := UserJWT(email, privateKey, keyId, sign, clock);
      && d.header == u.header && d.claims.aud == u.claims.aud && d.claims.iat == u.claims.iat
      && d.claims.context != u.claims.context && d.claims != u.claims
      && u.claims.exp - d.claims.exp == UserTokenLifetimeSeconds - DeviceTokenLifetimeSeconds
  {
  }
}
