/** Session tokens and the bearer-token middleware (appointment-scheduler/server.js,
    `jwt.sign` in `/login` and `authenticateToken`). The signed JSON Web Token is
    abstract: `Sign` builds its claims record, and turning a header string back into
    a record whose signature checks out is the `decode` parameter. */
module Sessions {
  import opened Options
  import opened Text

  /** The claims the login route signs: `{ id, email }`. */
  datatype Claims = Claims(id: nat, email: string)

  /** A signed token's payload: the claims with `iat` and `exp` in whole seconds. */
  datatype SessionToken = SessionToken(claims: Claims, issuedAt: int, expiresAt: int)

  /** `expiresIn: '24h'`, in seconds. */
  const Lifetime: int := 86400

  /** `jwt.sign(claims, secret, { expiresIn: '24h' })` at `nowMs` milliseconds. */
  function Sign(c: Claims, nowMs: nat): (t: SessionToken)
    ensures t.claims == c
    ensures t.expiresAt == t.issuedAt + Lifetime
    ensures t.issuedAt * 1000 <= nowMs < t.issuedAt * 1000 + 1000
  {
    SessionToken(c, nowMs / 1000, nowMs / 1000 + Lifetime)
  }

  /** `jwt.verify(token, secret)` at `nowMs`: the signature must check out (`decode`)
      and the token must not have reached its `exp`. */
  function Verify(token: string, decode: string -> Option<SessionToken>, nowMs: nat): (r: Option<Claims>)
    ensures r.Some? <==> decode(token).Some? && nowMs / 1000 < decode(token).value.expiresAt
    ensures r.Some? ==> r.value == decode(token).value.claims
  {
    match decode(token)
    case None => None
    case Some(t) => if nowMs / 1000 >= t.expiresAt then None else Some(t.claims)
  }

  /** A token signed at `signedAt` verifies for the first 86399 seconds after it is
      issued and never again from 24 hours on. */
  lemma SignedTokenLifetime(token: string, decode: string -> Option<SessionToken>, c: Claims, signedAt: nat, nowMs: nat)
    requires decode(token) == Some(Sign(c, signedAt))
    requires signedAt <= nowMs
    ensures nowMs <= signedAt + 86399000 ==> Verify(token, decode, nowMs) == Some(c)
    ensures nowMs >= signedAt + 86400000 ==> Verify(token, decode, nowMs) == None
  {
    var iat := signedAt / 1000;
    assert iat * 1000 <= signedAt < iat * 1000 + 1000;
    if nowMs <= signedAt + 86399000 {
      assert nowMs < (iat + Lifetime) * 1000;
      DivBelow(nowMs, iat + Lifetime);
    }
    if nowMs >= signedAt + 86400000 {
      assert nowMs >= (iat + Lifetime) * 1000;
      DivAtLeast(nowMs, iat + Lifetime);
    }
  }

  lemma DivBelow(n: nat, k: int)
    requires n < k * 1000
    ensures n / 1000 < k
  {
  }

  lemma DivAtLeast(n: nat, k: int)
    requires n >= k * 1000
    ensures n / 1000 >= k
  {
  }

  /** `authHeader && authHeader.split(' ')[1]`: `None` is a token that is `undefined`.
      An empty header is falsy and is itself passed on as the token; otherwise the token
      is the text between the first space and the next one (or the end). */
  function BearerToken(header: Option<string>): (token: Option<string>)
    ensures header.None? ==> token.None?
    ensures header == Some("") ==> token == Some("")
    ensures header.Some? && header.value != "" ==>
      token == (if ' ' in header.value then Some(Before(After(header.value, ' '), ' ')) else None)
  {
    match header
    case None => None
    case Some(h) =>
      if h == "" then Some("")
      else
        var parts := Split(h, ' ');
        SplitFirst(h, ' ');
        if |parts| > 1 then
          SplitSecond(h, ' ');
          Some(parts[1])
        else None
  }

  /** What `authenticateToken` decides. */
  datatype AuthOutcome = MissingToken | RejectedToken | Authenticated(claims: Claims)

  /** No token is a 401; a token that does not verify is a 403; otherwise the request
      proceeds with the token's claims as `req.user`. */
  function Authenticate(header: Option<string>, decode: string -> Option<SessionToken>, nowMs: nat): (a: AuthOutcome)
    ensures a == MissingToken <==> BearerToken(header).None?
    ensures a == RejectedToken <==> BearerToken(header).Some? && Verify(BearerToken(header).value, decode, nowMs).None?
    ensures a.Authenticated? ==> Verify(BearerToken(header).value, decode, nowMs) == Some(a.claims)
  {
    match BearerToken(header)
    case None => MissingToken
    case Some(t) =>
      match Verify(t, decode, nowMs)
      case None => RejectedToken
      case Some(c) => Authenticated(c)
  }

  /** An empty Authorization header is not reported as a missing token: it reaches the
      verifier as the token "" and is answered 403 when that does not verify. */
  lemma EmptyHeaderIsNotMissing(decode: string -> Option<SessionToken>, nowMs: nat)
    requires decode("").None?
    ensures Authenticate(Some(""), decode, nowMs) == RejectedToken
  {
  }
}
