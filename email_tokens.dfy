/**
 * `emailConfirmationTokensRepo` of users/emailConfirmationTokensRepo.ts: the
 * table of one-time login codes, keyed by the trimmed, lower-cased address.
 * `requestToken` is a single update conditioned on the record being absent,
 * expired, or past its re-request time; `verifyToken` is an exact-match
 * read that neither consumes the code nor checks its expiry.
 */
module EmailTokens {
  import opened Wrappers
  import opened Strings
  import opened Consent
  import opened EmailNormalization

  /** The stored item; `ttl` and `rerequestAfter` are epoch seconds. */
  datatype TokenRecord = TokenRecord(confirmationToken: string, ttl: int, rerequestAfter: int)

  /** What `requestToken` returns: the address as given and the code. */
  datatype TokenRequest = TokenRequest(email: string, confirmationToken: string)

  /** The update's condition failed: a code was issued too recently. */
  datatype RequestError = ConditionalCheckFailed

  /** How long a code is valid, and how long before another may be requested. */
  const ExpiresInMs: int := 5 * 60 * 1000
  const RerequestAfterMs: int := 1 * 60 * 1000

  /** The local `normalize`: `email.trim().toLowerCase()`, keeping any `+tag`. */
  function TokenKey(email: string): (key: string)
    ensures IsLower(key)
    ensures |key| <= |email|
    ensures IsLower(email) && Trim(email) == email ==> key == email
  {
    var key := Lower(Trim(email));
    assert IsLower(email) && Trim(email) == email ==> key == email by {
      if IsLower(email) && Trim(email) == email {
        LowerOfLower(email);
      }
    }
    key
  }

  /** `attribute_not_exists(email) OR #ttl < :now OR #rerequestAfter < :now`, with `:now` in seconds. */
  predicate RequestAllowed(table: map<string, TokenRecord>, key: string, nowSeconds: int) {
    key !in table || table[key].ttl < nowSeconds || table[key].rerequestAfter < nowSeconds
  }

  /**
   * The item written when the update goes through. `now?.getTime() ?? Date.now() + offset`
   * reads as `now ?? (Date.now() + offset)`, so with an injected `now` both
   * times are `now` itself.
   */
  function Issued(token: string, injectedNow: Option<int>, clock: int): (r: TokenRecord)
    ensures r.confirmationToken == token
    ensures injectedNow.None? ==> r.ttl == FloorSeconds(clock + ExpiresInMs) && r.rerequestAfter == FloorSeconds(clock + RerequestAfterMs)
    ensures injectedNow.Some? ==> r.ttl == r.rerequestAfter == FloorSeconds(injectedNow.value)
  {
    TokenRecord(token, FloorSeconds(injectedNow.GetOr(clock + ExpiresInMs)), FloorSeconds(injectedNow.GetOr(clock + RerequestAfterMs)))
  }

  /**
   * `verifyToken`: succeeds with the stored `ttl` when the stored code equals
   * `token` exactly; a missing record is a mismatch too.
   */
  function VerifyToken(table: map<string, TokenRecord>, email: string, token: string): (r: Result<int, string>)
    ensures r.Success? <==> TokenKey(email) in table && table[TokenKey(email)].confirmationToken == token
    ensures r.Failure? ==> r.error == "Token mismatch"
    ensures r.Success? ==> r.value == table[TokenKey(email)].ttl
  {
    var key := TokenKey(email);
    if key !in table || table[key].confirmationToken != token then Failure("Token mismatch")
    else Success(table[key].ttl)
  }

  class TokenStore {
    /** The table, keyed by the normalised address. */
    var table: map<string, TokenRecord>
    /** The `now` the repository was built with, if any (epoch milliseconds). */
    const injectedNow: Option<int>

    constructor(table: map<string, TokenRecord>, injectedNow: Option<int>)
      ensures this.table == table && this.injectedNow == injectedNow
    {
      this.table := table;
      this.injectedNow := injectedNow;
    }

    /**
     * `requestToken`, with `generated` the code before upper-casing and
     * `clock` the value of `Date.now()`.
     */
    method RequestToken(email: string, generated: string, clock: int) returns (r: Result<TokenRequest, RequestError>)
      modifies this
      ensures RequestAllowed(old(table), TokenKey(email), FloorSeconds(injectedNow.GetOr(clock))) ==>
        && r == Success(TokenRequest(email, Upper(generated)))
        && table == old(table)[TokenKey(email) := Issued(Upper(generated), injectedNow, clock)]
      ensures !RequestAllowed(old(table), TokenKey(email), FloorSeconds(injectedNow.GetOr(clock))) ==>
        r == Failure(ConditionalCheckFailed) && table == old(table)
    {
      var confirmationToken := Upper(generated);
      var key := TokenKey(email);
      var nowSeconds := FloorSeconds(injectedNow.GetOr(clock));
      if !RequestAllowed(table, key, nowSeconds) {
        return Failure(ConditionalCheckFailed);
      }
      table := table[key := Issued(confirmationToken, injectedNow, clock)];
      r := Success(TokenRequest(email, confirmationToken));
    }
  }

  // ------------------------------------------------------------ properties

  /** The code just issued verifies, for any spelling of the address with the same key. */
  lemma IssuedTokenVerifies(table: map<string, TokenRecord>, email: string, other: string, token: string, injectedNow: Option<int>, clock: int)
    requires TokenKey(other) == TokenKey(email)
    ensures var t := table[TokenKey(email) := Issued(token, injectedNow, clock)];
      VerifyToken(t, other, token) == Success(Issued(token, injectedNow, clock).ttl)
  {
  }

  /** Verifying is a read: repeating it gives the same answer, also after the code has expired. */
  lemma VerifyIgnoresExpiry(table: map<string, TokenRecord>, email: string, token: string)
    requires TokenKey(email) in table && table[TokenKey(email)].confirmationToken == token
    ensures VerifyToken(table, email, token).Success?
  {
  }

  /**
   * Without an injected `now`, another code cannot be had within a minute of
   * the last one (the record is still valid and its re-request time not
   * passed), and can after a minute and a second.
   */
  lemma CooldownIsOneMinute(table: map<string, TokenRecord>, email: string, token: string, issuedAt: int, clock: int)
    requires issuedAt <= clock
    ensures var t := table[TokenKey(email) := Issued(token, None, issuedAt)];
      && (clock <= issuedAt + RerequestAfterMs ==> !RequestAllowed(t, TokenKey(email), FloorSeconds(clock)))
      && (clock >= issuedAt + RerequestAfterMs + 1000 ==> RequestAllowed(t, TokenKey(email), FloorSeconds(clock)))
  {
    if clock <= issuedAt + RerequestAfterMs {
      FloorSecondsMonotone(clock, issuedAt + RerequestAfterMs);
      FloorSecondsMonotone(issuedAt + RerequestAfterMs, issuedAt + ExpiresInMs);
    }
  }

  /**
   * With an injected `now`, both times of the record are `now` itself, which
   * is never strictly before `now`: a second request is always refused.
   */
  lemma InjectedNowBlocksRerequest(table: map<string, TokenRecord>, email: string, token: string, now: int, clock: int)
    ensures var t := table[TokenKey(email) := Issued(token, Some(now), clock)];
      !RequestAllowed(t, TokenKey(email), FloorSeconds(Some(now).GetOr(clock)))
  {
  }

  /** The key ignores surrounding whitespace and letter case. */
  lemma TokenKeyIgnoresCaseAndPadding(pre: string, email: string, post: string)
    requires AllSpace(pre) && AllSpace(post)
    ensures TokenKey(pre + Upper(email) + post) == TokenKey(email)
  {
    TrimPadding(pre, Upper(email), post);
    TrimLower(Upper(email));
    LowerUpper(email);
    TrimLower(email);
  }

  /**
   * Unlike `normalizeEmail`, the key keeps a `+tag`: a `+` in the address is
   * in the key, while it is never in the local part of the normalised address.
   */
  lemma TokenKeyKeepsPlus(email: string)
    requires '+' in email
    ensures '+' in TokenKey(email)
    ensures '+' !in Before(NormalizeEmail(email), '@')
  {
    TrimKeeps(email, '+');
    LowerKeepsUncased(Trim(email), '+');
  }
}
