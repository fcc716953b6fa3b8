/**
 * The profile controller (controllers/userContoller.js): each handler acts on
 * the user named by the caller's verified token.
 */
module UserController {
  import opened Wrappers
  import opened Basics
  import opened Crypto
  import opened Http
  import opened Auth
  import opened UserModel
  import AuthRoutes

  /** `getProfile`: the caller's record without its password, or null once the account is gone. */
  function GetProfile(users: map<Id, User>, caller: Identity): (resp: Response)
    ensures resp.Reply? && resp.status == 200 && resp.body.Profile?
    ensures resp.body.profile.Some? <==> caller.id in users
    ensures resp.body.profile.Some? ==>
      var p := resp.body.profile.value.1;
      && resp.body.profile.value.0 == caller.id
      && p.email == users[caller.id].email && p.role == users[caller.id].role
      && p.isApproved == users[caller.id].isApproved
  {
    Reply(200, Profile(if caller.id in users then Some((caller.id, WithoutPassword(users[caller.id]))) else None))
  }

  /**
   * `updateProfile`: the whole body is applied to the caller's record, including
   * `role`, `isApproved` and `password` (stored as sent, not hashed); the reply
   * omits the password.
   */
  method UpdateProfile(store: UserStore, caller: Identity, body: UserDoc) returns (resp: Response)
    requires store.Valid()
    modifies store
    ensures store.Valid()
    ensures store.users == UserModel.Updated(old(store.users), caller.id, body)
    ensures caller.id in store.users ==> body.password.Some? ==> store.users[caller.id].password == body.password.value
    ensures resp == Reply(200, Profile(
      if caller.id in store.users then Some((caller.id, WithoutPassword(store.users[caller.id]))) else None))
  {
    var user := store.FindByIdAndUpdate(caller.id, body);
    resp := Reply(200, Profile(if user.Some? then Some((caller.id, WithoutPassword(user.value))) else None));
  }

  /** Changing records without changing any email leaves every `findOne({ email })` as it was. */
  lemma SameEmailsSameFind(a: map<Id, User>, b: map<Id, User>, email: string)
    requires a.Keys == b.Keys
    requires forall id :: id in a ==> a[id].email == b[id].email
    ensures FindOneByEmail(a, email) == FindOneByEmail(b, email)
  {
    var ra, rb := FindOneByEmail(a, email), FindOneByEmail(b, email);
    if ra.Some? {
      assert rb.Some? by {
        assert ra.value in b && b[ra.value].email == email;
      }
      assert ra.value <= rb.value by {
        assert rb.value in a && a[rb.value].email == email;
      }
      assert rb.value <= ra.value by {
        assert ra.value in b && b[ra.value].email == email;
      }
    }
  }

  /**
   * Privilege escalation: a user who sets `role` through `updateProfile` logs in
   * next time with that role, and the token it gets through passes every role gate
   * that lists the new role.
   */
  lemma RoleEscalation(users: map<Id, User>, id: Id, password: string, role: string,
                        c: Oracles, now: Time, allowed: seq<string>)
    requires Sound(c)
    requires id in users && FindOneByEmail(users, users[id].email) == Some(id)
    requires c.compare(password, users[id].password)
    requires role in allowed
    ensures var after := UserModel.Updated(users, id, UserDoc(None, None, Some(role), None));
      AuthRoutes.Login(after, users[id].email, password, c, now)
      == Reply(200, Session("Login successful", Issue(c, id, role, now), SessionUser(id, users[id].email, role)))
    ensures Authenticate(Some(BEARER + Issue(c, id, role, now)), c, now, allowed) == Granted(Identity(id, role, None))
  {
    var after := UserModel.Updated(users, id, UserDoc(None, None, Some(role), None));
    SameEmailsSameFind(users, after, users[id].email);
    IssuedTokenAuthenticates(c, id, role, now, now, allowed);
  }

  /** The body of a password change. */
  datatype PasswordChange = PasswordChange(currentPassword: string, newPassword: string)

  /**
   * `changePassword` as written: the hashing module is never imported, so once
   * the account is found the first call into it throws and nothing is sent.
   */
  function ChangePasswordAsWritten(users: map<Id, User>, caller: Identity, body: PasswordChange): (resp: Response)
    ensures caller.id !in users <==> resp == Reply(404, Error("User not found"))
    ensures caller.id in users <==> resp == Unhandled("ReferenceError: bcrypt is not defined")
  {
    if caller.id !in users then Reply(404, Error("User not found"))
    else Unhandled("ReferenceError: bcrypt is not defined")
  }

  /** As written, no request ever changes a password. */
  lemma ChangePasswordNeverSucceeds(users: map<Id, User>, caller: Identity, body: PasswordChange)
    ensures ChangePasswordAsWritten(users, caller, body) != Reply(200, Message("Password updated successfully"))
  {
  }

  /**
   * `changePassword` with the hashing module in scope: 404 for a missing account,
   * 401 for a wrong current password (nothing written), otherwise the hash of the
   * new password replaces the old one and nothing else changes.
   */
  method ChangePassword(store: UserStore, caller: Identity, body: PasswordChange, c: Oracles) returns (resp: Response)
    requires store.Valid()
    modifies store
    ensures store.Valid()
    ensures caller.id !in old(store.users) ==>
      resp == Reply(404, Error("User not found")) && store.users == old(store.users)
    ensures caller.id in old(store.users) && !c.compare(body.currentPassword, old(store.users)[caller.id].password) ==>
      resp == Reply(401, Error("Current password is incorrect")) && store.users == old(store.users)
    ensures caller.id in old(store.users) && c.compare(body.currentPassword, old(store.users)[caller.id].password) ==>
      && resp == Reply(200, Message("Password updated successfully"))
      && store.users == old(store.users)[caller.id := old(store.users)[caller.id].(password := c.hash(body.newPassword))]
  {
    if caller.id !in store.users {
      return Reply(404, Error("User not found"));
    }
    var user := store.users[caller.id];
    if !c.compare(body.currentPassword, user.password) {
      return Reply(401, Error("Current password is incorrect"));
    }
    store.Save(caller.id, user.(password := c.hash(body.newPassword)));
    resp := Reply(200, Message("Password updated successfully"));
  }

  /** After a successful change, the new password logs in with the same id and role. */
  lemma NewPasswordLogsIn(users: map<Id, User>, id: Id, newPassword: string, c: Oracles, now: Time)
    requires Sound(c)
    requires id in users && FindOneByEmail(users, users[id].email) == Some(id)
    ensures var after := users[id := users[id].(password := c.hash(newPassword))];
      AuthRoutes.Login(after, users[id].email, newPassword, c, now)
      == Reply(200, Session("Login successful", Issue(c, id, users[id].role, now),
                            SessionUser(id, users[id].email, users[id].role)))
  {
    var after := users[id := users[id].(password := c.hash(newPassword))];
    SameEmailsSameFind(users, after, users[id].email);
    assert c.compare(newPassword, after[id].password);
  }
}
