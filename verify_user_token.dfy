/**
 * `verifyUserToken` of jwt/verifyUserToken.ts: the decision chain that turns
 * a bearer token into a user. Decoding, signature and audience checking and
 * payload validation are foreign code and appear as the functions `decode`,
 * `verify` and `validate`; the chain itself, the order of its checks and the
 * errors it returns are modelled. It never throws: whatever `jwt.verify`
 * throws is returned as the error.
 */
module TokenVerification {
  import opened Wrappers
  import opened Jwt

  /** `{ email }`, the validated `UserJWTPayload`. */
  datatype User = User(email: string)

  /** The header and payload `jwt.decode(token, { complete: true })` yields, when it yields anything. */
  datatype Decoded<P> = Decoded(kid: Option<string>, payload: P)

  /** The errors returned, in the order the checks are made. */
  datatype VerifyError =
    | NoToken
    | NoKeyId
    | NoPublicKey(kid: string)
    | Rejected(message: string)      // thrown by `jwt.verify`: bad signature, wrong audience, expired
    | Invalid(message: string)       // the `ValidationError` of the payload check

  /** The `message` of each error. */
  function Message(e: VerifyError): string {
    match e
    case NoToken => "No token provided"
    case NoKeyId => "No key ID found in JWT header"
    case NoPublicKey(kid) => "No public key found for key ID " + kid
    case Rejected(m) => m
    case Invalid(m) => m
  }

  /**
   * `verifyUserToken(publicKeys)(token)`. `verify(token, publicKey, audience)`
   * is the message `jwt.verify` throws, if it throws; `validate` checks the
   * decoded (not the verified) payload.
   */
  function VerifyUserToken<P>(
    publicKeys: map<string, string>,
    decode: string -> Option<Decoded<P>>,
    verify: (string, string, string) -> Option<string>,
    validate: P -> Result<User, string>,
    token: Option<string>)
    : (r: Result<User, VerifyError>)
    ensures token.None? <==> r == Failure(NoToken)
    ensures r == Failure(NoKeyId) <==>
      token.Some? && (decode(token.value).None? || decode(token.value).value.kid.None?)
    ensures r.Failure? && r.error.NoPublicKey? <==>
      && token.Some? && decode(token.value).Some? && decode(token.value).value.kid.Some?
      && decode(token.value).value.kid.value !in publicKeys
    ensures r.Failure? && r.error.NoPublicKey? ==> r.error.kid == decode(token.value).value.kid.value
    ensures r.Success? <==>
      && token.Some? && decode(token.value).Some? && decode(token.value).value.kid.Some?
      && decode(token.value).value.kid.value in publicKeys
      && verify(token.value, publicKeys[decode(token.value).value.kid.value], Audience).None?
      && validate(decode(token.value).value.payload).Success?
    ensures r.Success? ==> r.value == validate(decode(token.value).value.payload).value
    ensures r.Failure? && r.error.Rejected? <==>
      && token.Some? && decode(token.value).Some? && decode(token.value).value.kid.Some?
      && decode(token.value).value.kid.value in publicKeys
      && verify(token.value, publicKeys[decode(token.value).value.kid.value], Audience).Some?
    ensures r.Failure? && r.error.Rejected? ==>
      r.error.message == verify(token.value, publicKeys[decode(token.value).value.kid.value], Audience).value
    ensures r.Failure? && r.error.Invalid? <==>
      && token.Some? && decode(token.value).Some? && decode(token.value).value.kid.Some?
      && decode(token.value).value.kid.value in publicKeys
      && verify(token.value, publicKeys[decode(token.value).value.kid.value], Audience).None?
      && validate(decode(token.value).value.payload).Failure?
    ensures r.Failure? && r.error.Invalid? ==> r.error.message == validate(decode(token.value).value.payload).error
  {
    if token.None? then Failure(NoToken)
    else
      var decoded := decode(token.value);
      if decoded.None? || decoded.value.kid.None? then Failure(NoKeyId)
      else
        var kid := decoded.value.kid.value;
        if kid !in publicKeys then Failure(NoPublicKey(kid))
        else match verify(token.value, publicKeys[kid], Audience)
          case Some(thrown) => Failure(Rejected(thrown))
          case None =>
            match validate(decoded.value.payload)
            case Failure(errors) => Failure(Invalid(errors))
            case Success(user) => Success(user)
  }

  // ------------------------------------------------------------ properties

  /**
   * A token built by `userJWT` with a key the verifier knows, whose signature
   * and audience pass and whose payload validates, yields its user.
   */
  lemma IssuedTokenVerifies(
    email: string, privateKey: string, publicKey: string, keyId: string,
    sign: (Header, Claims, string) -> string, clock: int,
    publicKeys: map<string, string>,
    decode: string -> Option<Decoded<Claims>>,
    verify: (string, string, string) -> Option<string>,
    validate: Claims -> Result<User, string>,
    token: string)
    requires keyId in publicKeys && publicKeys[keyId] == publicKey
    requires var t := UserJWT(email, privateKey, keyId, sign, clock);
      decode(token) == Some(Decoded(Some(t.header.kid), t.claims))
    requires verify(token, publicKey, Audience).None?
    requires validate(UserJWT(email, privateKey, keyId, sign, clock).claims) == Success(User(email))
    ensures VerifyUserToken(publicKeys, decode, verify, validate, Some(token)) == Success(User(email))
  {
  }

  /** The key set is never consulted for a token without a key id: the answer is the same for every key set. */
  lemma KeyIdCheckedFirst<P>(
    keysA: map<string, string>, keysB: map<string, string>,
    decode: string -> Option<Decoded<P>>,
    verify: (string, string, string) -> Option<string>,
    validate: P -> Result<User, string>,
    token: string)
    requires decode(token).None? || decode(token).value.kid.None?
    ensures VerifyUserToken(keysA, decode, verify, validate, Some(token))
         == VerifyUserToken(keysB, decode, verify, validate, Some(token))
         == Failure(NoKeyId)
  {
  }

  /** Signature and payload are never checked for an unknown key id. */
  lemma UnknownKeyNotVerified<P>(
    publicKeys: map<string, string>,
    decode: string -> Option<Decoded<P>>,
    verifyA: (string, string, string) -> Option<string>,
    verifyB: (string, string, string) -> Option<string>,
    validate: P -> Result<User, string>,
    token: string, kid: string)
    requires decode(token).Some? && decode(token).value.kid == Some(kid) && kid !in publicKeys
    ensures VerifyUserToken(publicKeys, decode, verifyA, validate, Some(token))
         == VerifyUserToken(publicKeys, decode, verifyB, validate, Some(token))
         == Failure(NoPublicKey(kid))
  {
  }

  /** The messages tell the fixed errors apart. */
  lemma MessagesDistinct(kid: string)
    ensures Message(NoToken) != Message(NoKeyId)
    ensures Message(NoKeyId) != Message(NoPublicKey(kid))
    ensures Message(NoToken) != Message(NoPublicKey(kid))
  {
    assert Message(NoToken)[1] == 'o' && Message(NoKeyId)[1] == 'o';
    assert Message(NoToken)[3] == 't' && Message(NoKeyId)[3] == 'k';
    assert Message(NoPublicKey(kid))[3] == 'p';
  }
}
