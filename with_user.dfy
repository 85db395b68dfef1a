/**
 * The `before` hook of `withUser` (lambda/middleware/withUser.ts): it takes
 * the second space-separated word of the `authorization` header, verifies
 * it, and either sets `context.user` or throws a 400 problem.
 */
module WithUser {
  import opened Wrappers
  import opened Strings
  import opened Jwt
  import opened TokenVerification
  import opened Problems

  /** `authorization?.split(' ')[1] ?? ''`: never undefined. */
  function BearerToken(authorization: Option<string>): (t: string)
    ensures authorization.None? ==> t == ""
    ensures authorization.Some? && ' ' !in authorization.value ==> t == ""
    ensures authorization.Some? ==> ' ' !in t
  {
    match authorization
    case None => ""
    case Some(header) =>
      var parts := Split(header, ' ');
      if |parts| >= 2 then parts[1] else ""
  }

  /** The problem thrown for a token that does not verify. */
  function Unauthorized(e: VerifyError): (p: ProblemDetail)
    ensures p.status == StatusBadRequest && p.title == "Failed to validate JWT!" && p.detail == Some(Message(e))
  {
    ProblemDetail(StatusBadRequest, "Failed to validate JWT!", Some(Message(e)))
  }

  /** The part of the Lambda context the middleware writes. */
  class RequestContext {
    var user: Option<User>

    constructor()
      ensures user.None?
    {
      user := None;
    }
  }

  /**
   * `before`, with `verify` the verifier the handler was wired with. On
   * success it sets `context.user` and returns nothing; on failure it throws
   * and leaves `context.user` as it was.
   */
  method Before(context: RequestContext, authorization: Option<string>, verify: Option<string> -> Result<User, VerifyError>)
    returns (thrown: Option<ProblemDetail>)
    modifies context
    ensures verify(Some(BearerToken(authorization))).Failure? ==>
      thrown == Some(Unauthorized(verify(Some(BearerToken(authorization))).error)) && context.user == old(context.user)
    ensures verify(Some(BearerToken(authorization))).Success? ==>
      thrown.None? && context.user == Some(verify(Some(BearerToken(authorization))).value)
  {
    var maybeValidJWT := verify(Some(BearerToken(authorization)));
    if maybeValidJWT.Failure? {
      return Some(Unauthorized(maybeValidJWT.error));
    }
    context.user := Some(maybeValidJWT.value);
    thrown := None;
  }

  // ------------------------------------------------------------ properties

  /** `Bearer <token>` yields the token. */
  lemma BearerTokenOfHeader(scheme: string, token: string)
    requires ' ' !in scheme && ' ' !in token
    ensures BearerToken(Some(scheme + " " + token)) == token
  {
    SplitWithout(token, ' ');
    SplitConcat(scheme, token, ' ');
    SplitWithout(scheme, ' ');
    assert scheme + " " + token == scheme + [' '] + token;
  }

  /**
   * Since the hook always passes a string, `verifyUserToken` never reports a
   * missing token through it: a missing header or one without a space is
   * checked as the empty token.
   */
  lemma NeverNoToken<P>(
    publicKeys: map<string, string>,
    decode: string -> Option<Decoded<P>>,
    verify: (string, string, string) -> Option<string>,
    validate: P -> Result<User, string>,
    authorization: Option<string>)
    ensures VerifyUserToken(publicKeys, decode, verify, validate, Some(BearerToken(authorization))) != Failure(NoToken)
  {
  }

  /**
   * Without a header, the problem's detail is the missing key id, as long as
   * the empty string decodes to nothing.
   */
  lemma MissingHeaderDetail<P>(
    publicKeys: map<string, string>,
    decode: string -> Option<Decoded<P>>,
    verify: (string, string, string) -> Option<string>,
    validate: P -> Result<User, string>)
    requires decode("").None?
    ensures var r := VerifyUserToken(publicKeys, decode, verify, validate, Some(BearerToken(None)));
      r.Failure? && Unauthorized(r.error).detail == Some("No key ID found in JWT header")
  {
  }
}
