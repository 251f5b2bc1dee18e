/** The authentication middleware: reads a bearer token from the
    `Authorization` header, has it verified, and either lets the request
    through (as a user or anonymously) or answers 401. The verifier is a
    parameter: what it accepts is the identity provider's business. */
module Auth {
  import opened Common

  /** What the verifier says of a token: verified, with the payload's `sub`
      (absent when the payload has none), or rejected with a reason. */
  datatype Verification = Verified(sub: Option<string>) | Failed(reason: string)

  /** Exactly one of: hand the request on with `req.auth` set to this user
      (or to null), or answer 401 without calling `next`. */
  datatype AuthOutcome =
    | Proceed(auth: Option<string>)
    | Reject(status: nat, message: string, error: string)

  const Scheme: string := "Bearer "

  /** The token of the header: the text after `Bearer `, when the header
      starts with it and something follows. */
  function BearerToken(header: Option<string>): (t: Option<string>)
    ensures t.Some? <==> header.Some? && Scheme <= header.value && |header.value| > |Scheme|
    ensures t.Some? ==> header.value == Scheme + t.value
  {
    if !Given(header) || !(Scheme <= header.value) then None
    else
      var token := ReplaceFirst(header.value, Scheme, "");
      ReplacePrefix(header.value, Scheme);
      if token == "" then None else Some(token)
  }

  /** A header built from a token gives the token back; `Bearer ` alone gives
      none. */
  lemma BearerTokenRoundTrip(t: string)
    ensures BearerToken(Some(Scheme + t)) == if t == "" then None else Some(t)
  {
    var h := Scheme + t;
    assert Scheme <= h;
    ReplacePrefix(h, Scheme);
    assert h[|Scheme|..] == t;
  }

  const InvalidTokenMessage: string := "Unauthorized: Invalid or expired token."

  /** The middleware. No token: through, anonymously, without asking the
      verifier. A verified token with a non-empty `sub`: through as that
      user; without one: through anonymously. A rejected token: 401. */
  function Authenticate(header: Option<string>, verify: string -> Verification): (r: AuthOutcome)
    ensures r.Reject? <==> BearerToken(header).Some? && verify(BearerToken(header).value).Failed?
    ensures r.Reject? ==> r == Reject(401, InvalidTokenMessage, verify(BearerToken(header).value).reason)
    ensures r.Proceed? && r.auth.Some? <==>
              && BearerToken(header).Some?
              && verify(BearerToken(header).value).Verified?
              && Given(verify(BearerToken(header).value).sub)
    ensures r.Proceed? && r.auth.Some? ==> r.auth == verify(BearerToken(header).value).sub
  {
    match BearerToken(header)
    case None => Proceed(None)
    case Some(token) =>
      match verify(token)
      case Failed(reason) => Reject(401, InvalidTokenMessage, reason)
      case Verified(sub) => if Given(sub) then Proceed(sub) else Proceed(None)
  }

  /** Without a bearer token the verifier's opinion plays no part: any two
      verifiers let the request through anonymously. */
  lemma NoTokenIgnoresVerifier(header: Option<string>, v1: string -> Verification, v2: string -> Verification)
    requires header.None? || !(Scheme <= header.value) || header.value == Scheme
    ensures Authenticate(header, v1) == Authenticate(header, v2) == Proceed(None)
  {
  }

  /** A token that fails verification is never let through, not even
      anonymously. */
  lemma FailureNeverDowngrades(token: string, verify: string -> Verification)
    requires token != "" && verify(token).Failed?
    ensures Authenticate(Some(Scheme + token), verify).Reject?
    ensures Authenticate(Some(Scheme + token), verify).status == 401
  {
    BearerTokenRoundTrip(token);
  }

  /** A user reaches the handlers as themselves only by presenting a token
      the verifier accepts for them. */
  lemma UserOnlyByVerifiedToken(header: Option<string>, verify: string -> Verification, user: string)
    requires Authenticate(header, verify) == Proceed(Some(user))
    ensures exists t :: header == Some(Scheme + t) && t != "" && verify(t) == Verified(Some(user))
  {
    var t := BearerToken(header).value;
    assert header == Some(Scheme + t);
  }
}
