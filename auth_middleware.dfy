/**
 * `authenticateToken` (src/app/middleware/auth.middleware.ts): takes the
 * bearer token out of the `Authorization` header (the `Bearer <token>` form of
 * section 2.1 of RFC 6750, though the scheme word itself is never checked),
 * verifies it and, on success, attaches the decoded claims to the request and
 * passes control on.
 */
module AuthMiddleware {
  import opened Common
  import opened Http
  import Text

  /** The payload of a token: `{userId, role}`. */
  datatype Claims = Claims(userId: int, role: string)

  /** The secret the source passes to `jwt.verify` and `jwt.sign`. */
  const Secret := "tu_secreto"

  /**
   * `jwt.verify(token, secret)`, supplied by the caller: the decoded claims,
   * or None when verification fails (bad signature, expiry, malformed token).
   */
  type Verifier = (string, string) -> Option<Claims>

  /**
   * `authHeader && authHeader.split(" ")[1]`, read as the test `if (!token)`
   * reads it: None when the header is missing or empty, when it has no space,
   * or when the second piece is empty.
   */
  function BearerToken(header: Option<string>): Option<string>
  {
    if header.None? || header.value == "" then None
    else
      var parts := Text.Split(header.value, ' ');
      if |parts| < 2 || parts[1] == "" then None else Some(parts[1])
  }

  /** What the middleware does with a request. */
  datatype AuthOutcome = Denied(reply: Reply) | Authenticated(claims: Claims)

  const AccessDenied := Reply(401, Message("Access denied"))
  const InvalidToken := Reply(403, Message("Invalid token"))

  /** The decision `authenticateToken` takes for a header and a verifier. */
  function Authenticate(header: Option<string>, verify: Verifier): (o: AuthOutcome)
    ensures BearerToken(header).None? ==> o == Denied(AccessDenied)
    ensures BearerToken(header).Some? ==>
      o == (match verify(BearerToken(header).value, Secret)
            case None => Denied(InvalidToken)
            case Some(c) => Authenticated(c))
  {
    match BearerToken(header)
    case None => Denied(AccessDenied)
    case Some(token) =>
      match verify(token, Secret)
      case None => Denied(InvalidToken)
      case Some(c) => Authenticated(c)
  }

  /**
   * The token is the second space-separated word, whatever the first word
   * is: for a header `scheme + " " + token + rest`, where neither the scheme
   * nor the token contains a space and `rest` is empty or starts with a space,
   * the token read is `token` (or none, if `token` is empty).
   */
  lemma {:induction false} TokenIsSecondWord(scheme: string, token: string, rest: string)
    requires ' ' !in scheme && ' ' !in token
    requires rest == [] || rest[0] == ' '
    ensures BearerToken(Some(scheme + " " + token + rest)) == if token == "" then None else Some(token)
  {
    var h := scheme + " " + token + rest;
    assert h == scheme + [' '] + (token + rest);
    Text.SplitLeadingWord(scheme, ' ', token + rest);
    if rest == [] {
      assert token + rest == token;
      Text.SplitWithoutSeparator(token, ' ');
    } else {
      assert token + rest == token + [' '] + rest[1..];
      Text.SplitLeadingWord(token, ' ', rest[1..]);
    }
  }

  /** A header without any space carries no token. */
  lemma NoSpaceNoToken(header: string)
    requires ' ' !in header
    ensures BearerToken(Some(header)).None?
  {
    Text.SplitWithoutSeparator(header, ' ');
  }

  /** A token read from the header never contains a space. */
  lemma TokenHasNoSpace(header: Option<string>)
    requires BearerToken(header).Some?
    ensures BearerToken(header).value != "" && ' ' !in BearerToken(header).value
  {
    Text.SplitPiecesHaveNoSeparator(header.value, ' ');
  }

  /** Without a token the verifier is never consulted: any two verifiers give the same 401. */
  lemma MissingTokenIgnoresVerifier(header: Option<string>, v1: Verifier, v2: Verifier)
    requires BearerToken(header).None?
    ensures Authenticate(header, v1) == Authenticate(header, v2) == Denied(AccessDenied)
  {
  }

  /**
   * `req`, `res` and `next` of one request as the middleware sees them: the
   * header it reads, the `req.user` it may set, the response it may send and
   * how many times `next()` was called.
   */
  class Exchange {
    const authorization: Option<string>
    var user: Option<Claims>
    var reply: Option<Reply>
    var nextCalls: nat

    constructor (authorization: Option<string>)
      ensures this.authorization == authorization
      ensures user == None && reply == None && nextCalls == 0
    {
      this.authorization := authorization;
      user := None;
      reply := None;
      nextCalls := 0;
    }
  }

  /**
   * The middleware itself: on a missing token it sends 401 and on a failed
   * verification 403, in both cases without calling `next`; on success it sets
   * `req.user` to the decoded claims, sends nothing and calls `next` once.
   */
  method AuthenticateToken(ex: Exchange, verify: Verifier)
    modifies ex
    ensures match Authenticate(ex.authorization, verify)
      case Denied(r) =>
        ex.reply == Some(r) && ex.user == old(ex.user) && ex.nextCalls == old(ex.nextCalls)
      case Authenticated(c) =>
        ex.user == Some(c) && ex.reply == old(ex.reply) && ex.nextCalls == old(ex.nextCalls) + 1
  {
    var token := BearerToken(ex.authorization);
    if token.None? {
      ex.reply := Some(AccessDenied);
      return;
    }
    var decoded := verify(token.value, Secret);
    if decoded.None? {
      ex.reply := Some(InvalidToken);
      return;
    }
    ex.user := decoded;
    ex.nextCalls := ex.nextCalls + 1;
  }
}
