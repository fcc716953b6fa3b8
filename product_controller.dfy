/** The product controller (controllers/productController.js): by-id operations without ownership checks. */
module ProductController {
  import opened Wrappers
  import opened Basics
  import opened Http
  import opened Auth
  import opened ProductModel

  /** `getAllProducts`: exactly the approved products. */
  function GetAllProducts(m: map<Id, Product>): (resp: Response)
    ensures resp.Reply? && resp.status == 200 && resp.body.Products?
    ensures forall id :: id in resp.body.products <==> id in m && m[id].isApproved
    ensures forall id :: id in resp.body.products ==> resp.body.products[id] == m[id]
  {
    Reply(200, Products(Find(m, ApprovedIs(true))))
  }

  /** `getProductById`: the record whatever its approval state, or null. */
  function GetProductById(m: map<Id, Product>, id: Id): (resp: Response)
    ensures resp.Reply? && resp.status == 200 && resp.body.Document?
    ensures resp.body.found.Some? <==> id in m
    ensures resp.body.found.Some? ==> resp.body.found.value == (id, m[id])
  {
    Reply(200, Document(if id in m then Some((id, m[id])) else None))
  }

  /** `{ ...req.body, vendor: req.user.id }`. */
  function SpreadDoc(body: ProductDoc, caller: Id): ProductDoc {
    body.(vendor := Some(caller))
  }

  /**
   * The spread keeps every body field but `vendor`: the caller is the `vendor`,
   * while the schema owner `vendorId` and `isApproved` are whatever the body says.
   */
  lemma SpreadOwnership(body: ProductDoc, caller: Id, now: Time)
    requires Validates(SpreadDoc(body, caller))
    ensures var p := FromDoc(SpreadDoc(body, caller), now);
      && p.vendor == Some(caller)
      && body.vendorId.Some? && p.vendorId == body.vendorId.value
      && (p.isApproved <==> body.isApproved == Some(true))
  {
  }

  /** `createProduct`: 201 with the new record, or an uncaught validation error. */
  method CreateProduct(store: ProductStore, caller: Identity, body: ProductDoc, now: Time)
    returns (resp: Response)
    requires store.Valid()
    modifies store
    ensures store.Valid()
    ensures !Validates(SpreadDoc(body, caller.id)) ==> store.products == old(store.products) && resp.Unhandled?
    ensures Validates(SpreadDoc(body, caller.id)) ==>
      var id := old(store.nextId);
      var p := FromDoc(SpreadDoc(body, caller.id), now);
      && id !in old(store.products)
      && store.products == old(store.products)[id := p]
      && resp == Reply(201, Document(Some((id, p))))
    ensures NewlyApproved(old(store.products), store.products)
         == if Validates(SpreadDoc(body, caller.id)) && body.isApproved == Some(true) then {old(store.nextId)} else {}
  {
    ghost var before := store.products;
    var doc := SpreadDoc(body, caller.id);
    var id := store.Create(doc, now);
    if id.None? {
      return Unhandled("ValidationError");
    }
    InsertApproves(before, id.value, doc, now);
    resp := Reply(201, Document(Some((id.value, FromDoc(doc, now)))));
  }

  /** `updateProduct`: the whole body applied to the record with that id, whoever owns it. */
  method UpdateProduct(store: ProductStore, id: Id, body: ProductDoc)
    returns (resp: Response)
    requires store.Valid()
    modifies store
    ensures store.Valid()
    ensures store.products == Updated(old(store.products), ById(id), body)
    ensures resp == Reply(200, Document(if id in old(store.products) then Some((id, ApplyPatch(old(store.products)[id], body))) else None))
    ensures NewlyApproved(old(store.products), store.products)
         == if id in old(store.products) && body.isApproved == Some(true) && !old(store.products)[id].isApproved
            then {id} else {}
  {
    ghost var before := store.products;
    var product := store.FindOneAndUpdate(ById(id), body);
    UpdateApproves(before, ById(id), body);
    resp := Reply(200, Document(if product.Some? then Some((id, product.value)) else None));
  }

  /** `deleteProduct`: removes the record with that id if any; the same reply either way. */
  method DeleteProduct(store: ProductStore, id: Id)
    returns (resp: Response)
    requires store.Valid()
    modifies store
    ensures store.Valid()
    ensures store.products == old(store.products) - {id}
    ensures resp == Reply(200, Message("Product deleted"))
  {
    var _ := store.FindOneAndDelete(ById(id));
    resp := Reply(200, Message("Product deleted"));
  }
}
