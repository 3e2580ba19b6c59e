/** The bearer-token middleware in front of every firm-side route. */
module Auth {
  import opened Common
  import opened Text

  /** The decoded token payload; the handlers read the subject as the firm user id. */
  datatype Claims = Claims(sub: string)

  /** The three ways the middleware ends: 401 and no `next`, 403 and no
      `next`, or `req.user` set to the payload and `next` called once. */
  datatype AuthOutcome = Unauthorized | Forbidden | Next(user: Claims)

  /** `authHeader && authHeader.split(" ")[1]`: a missing header gives no token;
      an empty header is falsy and is itself the token; otherwise the second
      space-separated field, if there is one. */
  function TokenOf(header: Option<string>): (token: Option<string>)
    ensures header.None? ==> token.None?
    ensures token.Some? && header.value != "" ==> ' ' !in token.value
  {
    match header
    case None => None
    case Some(h) =>
      if h == "" then Some("")
      else
        var fields := Split(h, ' ');
        if |fields| >= 2 then Some(fields[1]) else None
  }

  /** `authenticateToken`, with `jwt.verify` given as `verify` (none: the
      token is invalid or expired). */
  function Authenticate(header: Option<string>, verify: string -> Option<Claims>): (out: AuthOutcome)
    ensures out.Unauthorized? <==> TokenOf(header).None?
    ensures out.Forbidden? <==> TokenOf(header).Some? && verify(TokenOf(header).value).None?
    ensures out.Next? ==> out.user == verify(TokenOf(header).value).value
  {
    match TokenOf(header)
    case None => Unauthorized
    case Some(token) =>
      match verify(token)
      case None => Forbidden
      case Some(claims) => Next(claims)
  }

  /** The token is the field after the first space, whatever the scheme word
      before it says ("Bearer", "Basic" or anything else). */
  lemma TokenAfterAnyScheme(scheme: string, token: string)
    requires ' ' !in scheme && ' ' !in token
    ensures TokenOf(Some(scheme + " " + token)) == Some(token)
  {
    SplitWithoutSeparator(token, ' ');
    SplitAtSeparator(scheme, ' ', token);
  }

  /** Anything after a second space is ignored. */
  lemma TokenIgnoresLaterFields(scheme: string, token: string, rest: string)
    requires ' ' !in scheme && ' ' !in token
    ensures TokenOf(Some(scheme + " " + token + " " + rest)) == Some(token)
  {
    SplitAtSeparator(token, ' ', rest);
    assert scheme + " " + token + " " + rest == scheme + [' '] + (token + [' '] + rest);
    SplitAtSeparator(scheme, ' ', token + [' '] + rest);
  }

  /** A non-empty header with no space carries no token: 401, and the
      verifier is never asked. */
  lemma HeaderWithoutSpaceIsUnauthorized(h: string, verify: string -> Option<Claims>)
    requires h != "" && ' ' !in h
    ensures Authenticate(Some(h), verify) == Unauthorized
  {
    SplitWithoutSeparator(h, ' ');
  }

  /** A well-formed header reaches the verifier with exactly its token; the
      outcome is then 403 or `next` with the verifier's payload. */
  lemma WellFormedHeaderReachesVerifier(scheme: string, token: string, verify: string -> Option<Claims>)
    requires ' ' !in scheme && ' ' !in token
    ensures Authenticate(Some(scheme + " " + token), verify) ==
            (if verify(token).None? then Forbidden else Next(verify(token).value))
  {
    TokenAfterAnyScheme(scheme, token);
  }
}
