/**
 * The admin controller (controllers/adminController.js). Every handler acts
 * on an id alone: no role of the target is checked and nothing cascades.
 */
module AdminController {
  import opened Wrappers
  import opened Basics
  import opened Http
  import opened ProductModel
  import opened UserModel

  /** `getAllVendors`: every user whose role is "vendor", password hashes included. */
  function GetAllVendors(users: map<Id, User>): (resp: Response)
    ensures resp.Reply? && resp.status == 200 && resp.body.Accounts?
    ensures forall id :: id in resp.body.accounts <==> id in users && users[id].role == "vendor"
    ensures forall id :: id in resp.body.accounts ==> resp.body.accounts[id] == users[id]
  {
    Reply(200, Accounts(WithRole(users, "vendor")))
  }

  /** `getAllUsers`: every user whose role is "user", password hashes included. */
  function GetAllUsers(users: map<Id, User>): (resp: Response)
    ensures resp.Reply? && resp.status == 200 && resp.body.Accounts?
    ensures forall id :: id in resp.body.accounts <==> id in users && users[id].role == "user"
    ensures forall id :: id in resp.body.accounts ==> resp.body.accounts[id] == users[id]
  {
    Reply(200, Accounts(WithRole(users, "user")))
  }

  /** No account is both a vendor and a user, so the two lists never overlap. */
  lemma AccountListsDisjoint(users: map<Id, User>)
    ensures GetAllVendors(users).body.accounts.Keys !! GetAllUsers(users).body.accounts.Keys
  {
  }

  /** An admin appears in neither list. */
  lemma AdminsListedNowhere(users: map<Id, User>, id: Id)
    requires id in users && users[id].role == "admin"
    ensures id !in GetAllVendors(users).body.accounts && id !in GetAllUsers(users).body.accounts
  {
  }

  /**
   * `approveVendor` as written: the update is applied, then the reply reads an
   * undefined variable, so the promise rejects and no response is sent.
   */
  method ApproveVendorAsWritten(store: UserStore, id: Id) returns (resp: Response)
    requires store.Valid()
    modifies store
    ensures store.Valid()
    ensures store.users == UserModel.Updated(old(store.users), id, UserModel.Approval)
    ensures resp == Unhandled("ReferenceError: vendors is not defined")
  {
    var _ := store.FindByIdAndUpdate(id, UserModel.Approval);
    resp := Unhandled("ReferenceError: vendors is not defined");
  }

  /** `approveVendor` replying with the updated user, as `vendor` was evidently meant. */
  method ApproveVendor(store: UserStore, id: Id) returns (resp: Response)
    requires store.Valid()
    modifies store
    ensures store.Valid()
    ensures store.users == UserModel.Updated(old(store.users), id, UserModel.Approval)
    ensures resp == Reply(200, Account(if id in store.users then Some((id, store.users[id])) else None))
    ensures id in store.users ==> store.users[id].isApproved == Some(true)
  {
    var vendor := store.FindByIdAndUpdate(id, UserModel.Approval);
    resp := Reply(200, Account(if vendor.Some? then Some((id, vendor.value)) else None));
  }

  /** Approving a user changes only its flag, and doing it twice equals doing it once. */
  lemma VendorApprovalOnlySetsFlag(users: map<Id, User>, id: Id)
    requires id in users
    ensures var after := UserModel.Updated(users, id, UserModel.Approval);
      && after.Keys == users.Keys
      && after[id] == users[id].(isApproved := Some(true))
      && (forall j :: j in users && j != id ==> after[j] == users[j])
      && UserModel.Updated(after, id, UserModel.Approval) == after
  {
  }

  /** `deleteVendor`: removes the user with that id, whatever its role; the same reply either way. */
  method DeleteVendor(store: UserStore, id: Id) returns (resp: Response)
    requires store.Valid()
    modifies store
    ensures store.Valid()
    ensures store.users == old(store.users) - {id}
    ensures resp == Reply(200, Message("Vendor deleted"))
  {
    var _ := store.FindByIdAndDelete(id);
    resp := Reply(200, Message("Vendor deleted"));
  }

  /** `deleteUser`: removes the user with that id, whatever its role; the same reply either way. */
  method DeleteUser(store: UserStore, id: Id) returns (resp: Response)
    requires store.Valid()
    modifies store
    ensures store.Valid()
    ensures store.users == old(store.users) - {id}
    ensures resp == Reply(200, Message("User deleted"))
  {
    var _ := store.FindByIdAndDelete(id);
    resp := Reply(200, Message("User deleted"));
  }

  /**
   * No cascade: `deleteVendor` touches the user collection only, so the vendor's
   * products stay in place, still naming it as their owner.
   */
  method DeleteVendorKeepsProducts(users: UserStore, products: ProductStore, id: Id) returns (resp: Response)
    requires users.Valid()
    modifies users
    ensures users.Valid()
    ensures users.users == old(users.users) - {id}
    ensures products.products == old(products.products) && products.nextId == old(products.nextId)
    ensures Find(products.products, VendorIdIs(id)) == Find(old(products.products), VendorIdIs(id))
    ensures resp == Reply(200, Message("Vendor deleted"))
  {
    resp := DeleteVendor(users, id);
  }

  /** `getPendingProducts`: exactly the products not yet approved. */
  function GetPendingProducts(m: map<Id, Product>): (resp: Response)
    ensures resp.Reply? && resp.status == 200 && resp.body.Products?
    ensures forall id :: id in resp.body.products <==> id in m && !m[id].isApproved
    ensures forall id :: id in resp.body.products ==> resp.body.products[id] == m[id]
  {
    Reply(200, Products(Find(m, ApprovedIs(false))))
  }

  /** `approveProduct`: the approved record, or null (and status 200) for an unknown id. */
  method ApproveProduct(store: ProductStore, id: Id) returns (resp: Response)
    requires store.Valid()
    modifies store
    ensures store.Valid()
    ensures store.products == ProductModel.Updated(old(store.products), ById(id), ProductModel.Approval)
    ensures resp == Reply(200, Document(if id in store.products then Some((id, store.products[id])) else None))
    ensures id in store.products ==> store.products[id].isApproved
    ensures NewlyApproved(old(store.products), store.products)
         == if id in old(store.products) && !old(store.products)[id].isApproved then {id} else {}
  {
    ghost var before := store.products;
    var product := store.FindOneAndUpdate(ById(id), ProductModel.Approval);
    UpdateApproves(before, ById(id), ProductModel.Approval);
    resp := Reply(200, Document(if product.Some? then Some((id, product.value)) else None));
  }

  /** `deleteProduct`: removes the record with that id if any; the same reply either way. */
  method DeleteProduct(store: ProductStore, id: Id) returns (resp: Response)
    requires store.Valid()
    modifies store
    ensures store.Valid()
    ensures store.products == old(store.products) - {id}
    ensures resp == Reply(200, Message("Product deleted"))
  {
    var _ := store.FindOneAndDelete(ById(id));
    resp := Reply(200, Message("Product deleted"));
  }
}
