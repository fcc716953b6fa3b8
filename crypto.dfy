/**
 * Password hashing (bcryptjs) and session tokens (jsonwebtoken) as oracles.
 * Only the properties the routes rely on are assumed, through `Sound`.
 */
module Crypto {
  import opened Wrappers
  import opened Basics

  /** The payload of a session token. Tokens issued here carry no `email`. */
  datatype Claims = Claims(id: Id, role: string, email: Option<string>, exp: Time)

  /**
   * `hash`    bcrypt.hash(password, 10), deterministic here (no per-call salt);
   * `compare` bcrypt.compare(password, stored);
   * `sign`    jwt.sign(claims, JWT_SECRET);
   * `decode`  the signature and format check of jwt.verify, without the expiry test.
   */
  datatype Oracles = Oracles(
    hash: string -> string,
    compare: (string, string) -> bool,
    sign: Claims -> string,
    decode: string -> Option<Claims>)

  /** The axioms: a password matches its own hash, and a signed payload decodes back to itself. */
  ghost predicate Sound(c: Oracles) {
    && (forall p :: c.compare(p, c.hash(p)))
    && (forall x :: c.decode(c.sign(x)) == Some(x))
    && (forall x :: c.sign(x) != "" && ' ' !in c.sign(x))
  }

  /** `expiresIn: '2d'`, in seconds. */
  const TOKEN_LIFETIME: int := 2 * 24 * 60 * 60

  /** `jwt.sign({ id, role }, secret, { expiresIn: '2d' })` at time `now`. */
  function Issue(c: Oracles, id: Id, role: string, now: Time): string {
    c.sign(Claims(id, role, None, now + TOKEN_LIFETIME))
  }

  /** `jwt.verify(token, secret)` at time `now`: an empty token, a bad signature or an expired payload fail. */
  function Verify(c: Oracles, token: string, now: Time): (r: Option<Claims>)
    ensures r.Some? <==> token != "" && c.decode(token).Some? && now < c.decode(token).value.exp
    ensures r.Some? ==> r == c.decode(token)
  {
    if token == "" then None
    else match c.decode(token)
      case None => None
      case Some(claims) => if now >= claims.exp then None else Some(claims)
  }

  /** A token issued at `issuedAt` verifies to its claims strictly before two days have passed, and never after. */
  lemma IssuedTokenLifetime(c: Oracles, id: Id, role: string, issuedAt: Time, now: Time)
    requires Sound(c)
    ensures Verify(c, Issue(c, id, role, issuedAt), now)
         == if now < issuedAt + TOKEN_LIFETIME then Some(Claims(id, role, None, issuedAt + TOKEN_LIFETIME)) else None
  {
    var x := Claims(id, role, None, issuedAt + TOKEN_LIFETIME);
    assert c.decode(c.sign(x)) == Some(x);
    assert c.sign(x) != "";
  }
}
