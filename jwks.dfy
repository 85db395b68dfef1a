/**
 * The handler `h` of lambda/jwks.ts: the JWK Set (section 5 of RFC 7517)
 * that publishes the backend's one signing key. Each key names its `alg`
 * (section 4.4), `use` (section 4.2) and `kid` (section 4.5), and carries
 * the PEM text of the public key as a non-standard `key` member instead of
 * the key-type members of section 4. The JSON text of the body is not part
 * of this model.
 */
module Jwks {
  import opened Jwt
  import opened Problems

  /** The JWT settings read at start-up (settings/jwt.ts is not part of this model). */
  datatype JwtSettings = JwtSettings(keyId: string, publicKey: string)

  datatype JsonWebKey = JsonWebKey(alg: string, kid: string, use: string, key: string)

  datatype JwkSet = JwkSet(context: string, keys: seq<JsonWebKey>)

  datatype JwksResponse = JwksResponse(statusCode: nat, headers: map<string, string>, body: JwkSet)

  const Rfc7517: string := "https://datatracker.ietf.org/doc/html/rfc7517"

  /** `h`: the same response for every request. */
  function Handle(settings: JwtSettings): (r: JwksResponse)
    ensures r.statusCode == StatusOk
    ensures r.headers.Keys == {"content-type", "Cache-Control"}
    ensures r.headers["content-type"] == "application/json"
    ensures r.headers["Cache-Control"] == "public, max-age=600"
    ensures r.body.context == Rfc7517
    ensures |r.body.keys| == 1
    ensures r.body.keys[0] == JsonWebKey(Algorithm, settings.keyId, "sig", settings.publicKey)
  {
    JwksResponse(
      StatusOk,
      map["content-type" := "application/json", "Cache-Control" := "public, max-age=600"],
      JwkSet(Rfc7517, [JsonWebKey(Algorithm, settings.keyId, "sig", settings.publicKey)]))
  }

  /** The key map the handlers verify user tokens with: `new Map([[keyId, publicKey]])`. */
  function VerifierKeys(settings: JwtSettings): (keys: map<string, string>)
    ensures keys.Keys == {settings.keyId} && keys[settings.keyId] == settings.publicKey
  {
    map[settings.keyId := settings.publicKey]
  }

  // ------------------------------------------------------------ properties

  /**
   * The published set and the verifiers' key map hold the same keys: each
   * published key is found under its `kid`, and every key id the verifiers
   * know is published.
   */
  lemma PublishedKeysAreVerifierKeys(settings: JwtSettings)
    ensures forall k :: k in Handle(settings).body.keys ==>
      k.kid in VerifierKeys(settings) && VerifierKeys(settings)[k.kid] == k.key && k.alg == HeaderFor(k.kid).alg
    ensures forall kid :: kid in VerifierKeys(settings) ==>
      exists k :: k in Handle(settings).body.keys && k.kid == kid
  {
    assert Handle(settings).body.keys[0] in Handle(settings).body.keys;
  }
}
