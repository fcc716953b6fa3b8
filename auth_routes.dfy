/** The `/register` and `/login` handlers (routes/authRoutes.js). */
module AuthRoutes {
  import opened Wrappers
  import opened Basics
  import opened Crypto
  import opened Http
  import opened UserModel

  /**
   * POST /register. A taken email answers 400 and writes nothing; otherwise the
   * user is stored with the hash of the password and the role exactly as sent,
   * and a two-day token with claims `{ id, role }` comes back with the public fields.
   */
  method Register(store: UserStore, email: string, password: string, role: string, c: Oracles, now: Time)
    returns (resp: Response)
    requires store.Valid()
    modifies store
    ensures store.Valid()
    ensures FindOneByEmail(old(store.users), email).Some? ==>
      resp == Reply(400, Message("Email already registered")) && store.users == old(store.users)
    ensures FindOneByEmail(old(store.users), email).None? ==>
      var id := old(store.nextId);
      && id !in old(store.users)
      && store.users == old(store.users)[id := User(email, c.hash(password), role, None)]
      && resp == Reply(201, Session("User registered", Issue(c, id, role, now), SessionUser(id, email, role)))
  {
    var existing := FindOneByEmail(store.users, email);
    if existing.Some? {
      return Reply(400, Message("Email already registered"));
    }
    var hashed := c.hash(password);
    var id := store.Insert(User(email, hashed, role, None));
    var token := c.sign(Claims(id, role, None, now + TOKEN_LIFETIME));
    resp := Reply(201, Session("User registered", token, SessionUser(id, email, role)));
  }

  /** The reply carries a session token. */
  predicate IssuesToken(resp: Response) {
    resp.Reply? && resp.body.Session?
  }

  /**
   * POST /login: 'User not found' and 'Invalid credentials' are both 401 and
   * issue no token; a match issues a two-day token with the stored id and role.
   */
  function Login(users: map<Id, User>, email: string, password: string, c: Oracles, now: Time): (resp: Response)
    ensures FindOneByEmail(users, email).None? ==> resp == Reply(401, Message("User not found"))
    ensures var found := FindOneByEmail(users, email);
      found.Some? && !c.compare(password, users[found.value].password) ==>
      resp == Reply(401, Message("Invalid credentials"))
    ensures IssuesToken(resp) <==>
      FindOneByEmail(users, email).Some? && c.compare(password, users[FindOneByEmail(users, email).value].password)
    ensures IssuesToken(resp) ==>
      var id := FindOneByEmail(users, email).value;
      resp == Reply(200, Session("Login successful", Issue(c, id, users[id].role, now),
                                 SessionUser(id, users[id].email, users[id].role)))
  {
    match FindOneByEmail(users, email)
    case None => Reply(401, Message("User not found"))
    case Some(id) =>
      var user := users[id];
      if !c.compare(password, user.password) then Reply(401, Message("Invalid credentials"))
      else Reply(200, Session("Login successful", Issue(c, id, user.role, now), SessionUser(id, user.email, user.role)))
  }

  /** Round trip: right after registering (email, password, role), logging in with them issues `{ id, role }`. */
  lemma RegisterThenLogin(users: map<Id, User>, id: Id, email: string, password: string, role: string,
                          c: Oracles, now: Time)
    requires Sound(c)
    requires id !in users && FindOneByEmail(users, email).None?
    ensures Login(users[id := User(email, c.hash(password), role, None)], email, password, c, now)
         == Reply(200, Session("Login successful", Issue(c, id, role, now), SessionUser(id, email, role)))
  {
    var after := users[id := User(email, c.hash(password), role, None)];
    FindsSoleHolder(after, id, email);
    assert c.compare(password, c.hash(password));
  }

  /** Once registered, the same email is refused a second time. */
  lemma SecondRegistrationRefused(users: map<Id, User>, id: Id, email: string, hashed: string, role: string)
    ensures FindOneByEmail(users[id := User(email, hashed, role, None)], email).Some?
  {
    var after := users[id := User(email, hashed, role, None)];
    assert after[id].email == email;
  }
}
