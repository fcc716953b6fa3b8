/**
 * The `auth(allowedRoles)` middleware (middlewares/auth.js): a bearer-header
 * check, token extraction, verification, the identity it attaches to the
 * request, and the role gate.
 */
module Auth {
  import opened Wrappers
  import opened Basics
  import opened Strings
  import opened Crypto
  import opened Http

  /** `req.user`: built from the token's claims alone. */
  datatype Identity = Identity(id: Id, role: string, email: Option<string>)

  const BEARER: string := "Bearer "

  /** A header is present and starts with exactly "Bearer ". */
  predicate WellFormed(header: Option<string>) {
    header.Some? && HasPrefix(header.value, BEARER)
  }

  /** `authHeader.split(' ')[1]`: the text after "Bearer " up to the next space. */
  function ExtractToken(header: string): (token: string)
    requires HasPrefix(header, BEARER)
    ensures ' ' !in token
    ensures HasPrefix(header[|BEARER|..], token)
    ensures |token| == |header| - |BEARER| || header[|BEARER| + |token|] == ' '
  {
    var rest := header[|BEARER|..];
    assert header == "Bearer" + [' '] + rest;
    SplitAfterHead("Bearer", ' ', rest);
    FirstPart(rest, ' ');
    Split(header, ' ')[1]
  }

  /** A token without spaces comes back out of "Bearer " + token unchanged. */
  lemma BearerRoundTrip(token: string)
    requires ' ' !in token
    ensures HasPrefix(BEARER + token, BEARER) && ExtractToken(BEARER + token) == token
  {
    var h := BEARER + token;
    assert h[..|BEARER|] == BEARER;
    assert h[|BEARER|..] == token;
  }

  /** A token is cut at the first space after it: whatever follows is dropped. */
  lemma TokenStopsAtSpace(token: string, tail: string)
    requires ' ' !in token
    ensures HasPrefix(BEARER + token + " " + tail, BEARER) && ExtractToken(BEARER + token + " " + tail) == token
  {
    var h := BEARER + token + " " + tail;
    assert h[..|BEARER|] == BEARER;
    assert h == "Bearer" + [' '] + (token + [' '] + tail);
    SplitAfterHead("Bearer", ' ', token + [' '] + tail);
    SplitAfterHead(token, ' ', tail);
  }

  /** Only the second segment is taken: "Bearer a b" gives "a", and "Bearer " gives "". */
  lemma SecondSegmentOnly()
    ensures HasPrefix("Bearer a b", BEARER) && ExtractToken("Bearer a b") == "a"
    ensures HasPrefix("Bearer ", BEARER) && ExtractToken("Bearer ") == ""
  {
    TokenStopsAtSpace("a", "b");
    assert BEARER + "a" + " " + "b" == "Bearer a b";
    BearerRoundTrip("");
    assert BEARER + "" == "Bearer ";
  }

  /** `{ id: decoded.id, role: decoded.role, email: decoded.email || null }`: an empty email becomes null. */
  function IdentityOf(claims: Claims): (user: Identity)
    ensures user.id == claims.id && user.role == claims.role
    ensures user.email.None? <==> claims.email.None? || claims.email == Some("")
    ensures user.email.Some? ==> user.email == claims.email
  {
    Identity(claims.id, claims.role, if claims.email == Some("") then None else claims.email)
  }

  /** `!allowedRoles.length || allowedRoles.includes(role)`: the empty list lets every role through. */
  predicate RoleAllowed(allowed: seq<string>, role: string) {
    |allowed| == 0 || role in allowed
  }

  /** The middleware's verdict; on `Denied` the identity has already been attached to the request. */
  datatype Gate = NoToken | InvalidToken | Denied(user: Identity) | Granted(user: Identity)

  /** The claims a well-formed header's token verifies to at `now`, if it does. */
  function HeaderClaims(header: Option<string>, c: Oracles, now: Time): Option<Claims>
    requires WellFormed(header)
  {
    Verify(c, ExtractToken(header.value), now)
  }

  /** `auth(allowed)` applied to a request with this `Authorization` header. */
  function Authenticate(header: Option<string>, c: Oracles, now: Time, allowed: seq<string>): (g: Gate)
    ensures g.NoToken? <==> !WellFormed(header)
    ensures g.InvalidToken? <==> WellFormed(header) && HeaderClaims(header, c, now).None?
    ensures g.Denied? || g.Granted? ==>
      WellFormed(header) && HeaderClaims(header, c, now).Some? && g.user == IdentityOf(HeaderClaims(header, c, now).value)
    ensures g.Granted? <==>
      WellFormed(header) && HeaderClaims(header, c, now).Some? && RoleAllowed(allowed, HeaderClaims(header, c, now).value.role)
  {
    if !WellFormed(header) then NoToken
    else match HeaderClaims(header, c, now)
      case None => InvalidToken
      case Some(claims) =>
        if RoleAllowed(allowed, claims.role) then Granted(IdentityOf(claims)) else Denied(IdentityOf(claims))
  }

  /** The response sent when the gate does not call `next`. */
  function Rejection(g: Gate): (r: Response)
    requires !g.Granted?
    ensures r.Reply? && r.body.Message?
    ensures r.status == (if g.Denied? then 403 else 401)
  {
    match g
    case NoToken => Reply(401, Message("No token provided"))
    case InvalidToken => Reply(401, Message("Invalid token"))
    case Denied(_) => Reply(403, Message("Access denied"))
  }

  /** Without a well-formed header the verifier and the clock play no part. */
  lemma NoTokenIgnoresVerifier(header: Option<string>, c1: Oracles, c2: Oracles, t1: Time, t2: Time,
                               allowed1: seq<string>, allowed2: seq<string>)
    requires !WellFormed(header)
    ensures Authenticate(header, c1, t1, allowed1) == Authenticate(header, c2, t2, allowed2) == NoToken
  {
  }

  /** The default `allowedRoles = []` lets every verified token through. */
  lemma EmptyListAdmitsEveryRole(header: Option<string>, c: Oracles, now: Time)
    requires WellFormed(header) && HeaderClaims(header, c, now).Some?
    ensures Authenticate(header, c, now, []).Granted?
  {
  }

  /**
   * End to end: a token issued here, sent as "Bearer <token>", is granted with
   * email null while it has not expired and its role is allowed, denied when the
   * role is not allowed, and invalid once two days have passed.
   */
  lemma IssuedTokenAuthenticates(c: Oracles, id: Id, role: string, issuedAt: Time, now: Time, allowed: seq<string>)
    requires Sound(c)
    ensures var g := Authenticate(Some(BEARER + Issue(c, id, role, issuedAt)), c, now, allowed);
      && (now >= issuedAt + TOKEN_LIFETIME ==> g == InvalidToken)
      && (now < issuedAt + TOKEN_LIFETIME && RoleAllowed(allowed, role) ==> g == Granted(Identity(id, role, None)))
      && (now < issuedAt + TOKEN_LIFETIME && !RoleAllowed(allowed, role) ==> g == Denied(Identity(id, role, None)))
  {
    var token := Issue(c, id, role, issuedAt);
    assert ' ' !in token && token != "" by {
      assert ' ' !in c.sign(Claims(id, role, None, issuedAt + TOKEN_LIFETIME));
    }
    BearerRoundTrip(token);
    IssuedTokenLifetime(c, id, role, issuedAt, now);
  }

  /** An incoming request: its `Authorization` header and the `req.user` slot the middleware fills. */
  class Request {
    const authorization: Option<string>
    var user: Option<Identity>

    constructor (authorization: Option<string>)
      ensures this.authorization == authorization && user == None
    {
      this.authorization := authorization;
      user := None;
    }
  }

  /**
   * The middleware run on `req`: it either calls `next` (and sends nothing) or
   * sends exactly one response. `req.user` is assigned as soon as the token
   * verifies, before the role gate.
   */
  method AuthMiddleware(req: Request, c: Oracles, now: Time, allowed: seq<string>)
    returns (next: bool, sent: Option<Response>)
    modifies req
    ensures var g := Authenticate(req.authorization, c, now, allowed);
      && (next <==> g.Granted?)
      && (next <==> sent.None?)
      && (!next ==> sent == Some(Rejection(g)))
      && req.user == (if g.Granted? || g.Denied? then Some(g.user) else old(req.user))
  {
    var header := req.authorization;
    if header.None? || !HasPrefix(header.value, BEARER) {
      return false, Some(Reply(401, Message("No token provided")));
    }
    var token := ExtractToken(header.value);
    var decoded := Verify(c, token, now);
    if decoded.None? {
      return false, Some(Reply(401, Message("Invalid token")));
    }
    req.user := Some(IdentityOf(decoded.value));
    if |allowed| > 0 && decoded.value.role !in allowed {
      return false, Some(Reply(403, Message("Access denied")));
    }
    next, sent := true, None;
  }
}
