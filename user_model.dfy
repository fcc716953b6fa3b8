/**
 * The `User` collection. The user schema file is not part of this model, so a
 * user holds exactly the fields the handlers read and write.
 */
module UserModel {
  import opened Wrappers
  import opened Basics

  /** A stored user: `password` holds whatever was last written to it (a bcrypt hash when registered). */
  datatype User = User(email: string, password: string, role: string, isApproved: Option<bool>)

  /** An update body for a user: every field may be absent. */
  datatype UserDoc = UserDoc(email: Option<string>, password: Option<string>, role: Option<string>, isApproved: Option<bool>)

  /** The update `{ isApproved: true }`. */
  const Approval := UserDoc(None, None, None, Some(true))

  /** A user as sent back by `select("-password")`. */
  datatype PublicUser = PublicUser(email: string, role: string, isApproved: Option<bool>)

  /** The `user` object of the register and login replies. */
  datatype SessionUser = SessionUser(id: Id, email: string, role: string)

  function WithoutPassword(u: User): PublicUser {
    PublicUser(u.email, u.role, u.isApproved)
  }

  /** The selected profile is the same whatever password the record holds. */
  lemma ProfileHidesPassword(u: User, password: string)
    ensures WithoutPassword(u.(password := password)) == WithoutPassword(u)
  {
  }

  /** An update body applied to a user: every field the body holds overwrites the record's. */
  function ApplyPatch(u: User, d: UserDoc): User {
    User(d.email.GetOr(u.email), d.password.GetOr(u.password), d.role.GetOr(u.role),
         if d.isApproved.Some? then d.isApproved else u.isApproved)
  }

  /** `findByIdAndUpdate(id, d)` on the collection. */
  function Updated(users: map<Id, User>, id: Id, d: UserDoc): map<Id, User> {
    if id in users then users[id := ApplyPatch(users[id], d)] else users
  }

  /** `User.find({ role })`. */
  function WithRole(users: map<Id, User>, role: string): (r: map<Id, User>)
    ensures forall id :: id in r <==> id in users && users[id].role == role
    ensures forall id :: id in r ==> r[id] == users[id]
  {
    map id | id in users && users[id].role == role :: users[id]
  }

  /** A set of ids holding `x` has a least element: descend from `x` while something smaller is there. */
  lemma {:induction false} LeastExists(s: set<Id>, x: Id)
    requires x in s
    ensures exists k :: k in s && forall j :: j in s ==> k <= j
    decreases x
  {
    if y :| y in s && y < x {
      LeastExists(s, y);
    } else {
      assert forall j :: j in s ==> x <= j;
    }
  }

  /** `User.findOne({ email })`: the first matching user, in id (insertion) order. */
  function FindOneByEmail(users: map<Id, User>, email: string): (r: Option<Id>)
    ensures r.None? <==> forall id :: id in users ==> users[id].email != email
    ensures r.Some? ==> r.value in users && users[r.value].email == email
    ensures r.Some? ==> forall id :: id in users && users[id].email == email ==> r.value <= id
  {
    var hits := set id | id in users && users[id].email == email;
    if hits == {} then
      assert forall id :: id in users ==> users[id].email != email by {
        forall id | id in users ensures users[id].email != email {
          assert id in hits <==> users[id].email == email;
        }
      }
      None
    else
      var x :| x in hits;
      LeastExists(hits, x);
      var k :| k in hits && forall j :: j in hits ==> k <= j;
      assert forall id :: id in users && users[id].email == email ==> k <= id by {
        forall id | id in users && users[id].email == email ensures k <= id {
          assert id in hits;
        }
      }
      Some(k)
  }

  /** When exactly one user holds the email, `findOne` finds that user. */
  lemma FindsSoleHolder(users: map<Id, User>, id: Id, email: string)
    requires id in users && users[id].email == email
    requires forall j :: j in users && j != id ==> users[j].email != email
    ensures FindOneByEmail(users, email) == Some(id)
  {
  }

  /** The `User` collection: its records by id and the next id it will hand out. */
  class UserStore {
    var users: map<Id, User>
    var nextId: Id

    /** Every stored id was handed out earlier, so `nextId` is fresh. */
    ghost predicate Valid()
      reads this
    {
      forall id :: id in users ==> id < nextId
    }

    constructor ()
      ensures Valid() && users == map[] && nextId == 0
    {
      users := map[];
      nextId := 0;
    }

    /** `new User(u).save()`: insertion under a fresh id. */
    method Insert(u: User) returns (id: Id)
      requires Valid()
      modifies this
      ensures Valid()
      ensures id == old(nextId) && id !in old(users) && users == old(users)[id := u]
    {
      id := nextId;
      users := users[id := u];
      nextId := nextId + 1;
    }

    /** `user.save()` of a record read earlier: the stored record becomes `u`. */
    method Save(id: Id, u: User)
      requires Valid() && id in users
      modifies this
      ensures Valid() && nextId == old(nextId)
      ensures users == old(users)[id := u]
    {
      users := users[id := u];
    }

    /** `findByIdAndUpdate(id, d, { new: true })`: the updated user, or null. */
    method FindByIdAndUpdate(id: Id, d: UserDoc) returns (r: Option<User>)
      requires Valid()
      modifies this
      ensures Valid() && nextId == old(nextId)
      ensures users == Updated(old(users), id, d)
      ensures r == if id in old(users) then Some(ApplyPatch(old(users)[id], d)) else None
    {
      if id in users {
        var u := ApplyPatch(users[id], d);
        users := users[id := u];
        r := Some(u);
      } else {
        r := None;
      }
    }

    /** `findByIdAndDelete(id)`: the removed user, or null. */
    method FindByIdAndDelete(id: Id) returns (r: Option<User>)
      requires Valid()
      modifies this
      ensures Valid() && nextId == old(nextId)
      ensures users == old(users) - {id}
      ensures r == if id in old(users) then Some(old(users)[id]) else None
    {
      r := if id in users then Some(users[id]) else None;
      users := users - {id};
    }
  }
}
