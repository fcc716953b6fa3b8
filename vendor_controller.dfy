/**
 * The vendor controller (controllers/vendorController.js). Ownership is the
 * undeclared `vendor` field, filtered jointly with the id.
 */
module VendorController {
  import opened Wrappers
  import opened Basics
  import opened Http
  import opened Auth
  import opened ProductModel

  /** The fields `addProduct` copies from the body (a JSON body, so every field may be absent). */
  datatype NewProduct = NewProduct(name: Option<string>, price: Option<Number>, description: Option<string>,
                                   category: Option<string>, stock: Option<Number>)

  /** The document `addProduct` passes to `create`, as written: `vendor` is set, `vendorId` is not. */
  function PickedDoc(body: NewProduct, caller: Id): ProductDoc {
    EmptyDoc.(name := body.name, price := body.price, description := body.description,
              category := body.category, stock := body.stock,
              vendor := Some(caller), isApproved := Some(false))
  }

  /** As written, the document never names a `vendorId`, which the schema requires. */
  lemma PickedDocNeverValidates(body: NewProduct, caller: Id)
    ensures !Validates(PickedDoc(body, caller))
  {
  }

  /** `addProduct` as written: `create` rejects every document, and the rejection is not caught. */
  method AddProductAsWritten(store: ProductStore, caller: Identity, body: NewProduct, now: Time)
    returns (resp: Response)
    requires store.Valid()
    modifies store
    ensures store.Valid()
    ensures store.products == old(store.products)
    ensures resp.Unhandled?
  {
    PickedDocNeverValidates(body, caller.id);
    var id := store.Create(PickedDoc(body, caller.id), now);
    resp := Unhandled("ValidationError");
  }

  /** The document with the owner also written to the schema's `vendorId`. */
  function OwnedDoc(body: NewProduct, caller: Id): ProductDoc {
    PickedDoc(body, caller).(vendorId := Some(caller))
  }

  /**
   * The corrected document passes the schema exactly when the body has a
   * non-empty name and a price, and is then stored pending, owned by the
   * caller under both owner fields, with only the five picked fields copied.
   */
  lemma OwnedDocPendingAndOwned(body: NewProduct, caller: Id, now: Time)
    ensures Validates(OwnedDoc(body, caller)) <==> body.name.Some? && body.name.value != "" && body.price.Some?
    ensures Validates(OwnedDoc(body, caller)) ==>
      var p := FromDoc(OwnedDoc(body, caller), now);
      && !p.isApproved && p.vendor == Some(caller) && p.vendorId == caller
      && p.name == body.name.value && p.price == body.price.value && p.description == body.description
      && p.category == body.category && p.stock == body.stock
      && p.image.None? && p.cloudinaryPublicId.None? && p.createdAt == now
  {
  }

  /** `addProduct` with the owner written to `vendorId` too: 201 with the pending record, or the uncaught validation error. */
  method AddProduct(store: ProductStore, caller: Identity, body: NewProduct, now: Time)
    returns (resp: Response)
    requires store.Valid()
    modifies store
    ensures store.Valid()
    ensures NewlyApproved(old(store.products), store.products) == {}
    ensures !Validates(OwnedDoc(body, caller.id)) ==>
      store.products == old(store.products) && resp.Unhandled?
    ensures Validates(OwnedDoc(body, caller.id)) ==>
      var id := old(store.nextId);
      var p := FromDoc(OwnedDoc(body, caller.id), now);
      && id !in old(store.products)
      && store.products == old(store.products)[id := p]
      && resp == Reply(201, Document(Some((id, p))))
  {
    ghost var before := store.products;
    var doc := OwnedDoc(body, caller.id);
    var id := store.Create(doc, now);
    if id.None? {
      return Unhandled("ValidationError");
    }
    InsertApproves(before, id.value, doc, now);
    resp := Reply(201, Document(Some((id.value, FromDoc(doc, now)))));
  }

  /** `getMyProducts`: exactly the products whose `vendor` is the caller. */
  function GetMyProducts(m: map<Id, Product>, caller: Identity): (resp: Response)
    ensures resp.Reply? && resp.status == 200 && resp.body.Products?
    ensures forall id :: id in resp.body.products <==> id in m && m[id].vendor == Some(caller.id)
    ensures forall id :: id in resp.body.products ==> resp.body.products[id] == m[id]
  {
    Reply(200, Products(Find(m, VendorIs(caller.id))))
  }

  /**
   * `updateProduct`: the whole body is applied to the record matching both the
   * id and the caller; an unknown id and someone else's product both give null.
   */
  method UpdateProduct(store: ProductStore, caller: Identity, id: Id, body: ProductDoc)
    returns (resp: Response)
    requires store.Valid()
    modifies store
    ensures store.Valid()
    ensures store.products == Updated(old(store.products), ByIdAndVendor(id, caller.id), body)
    ensures resp == Reply(200, Document(
      if Selects(old(store.products), ByIdAndVendor(id, caller.id))
      then Some((id, ApplyPatch(old(store.products)[id], body))) else None))
    ensures NewlyApproved(old(store.products), store.products)
         == if Selects(old(store.products), ByIdAndVendor(id, caller.id)) && body.isApproved == Some(true)
               && !old(store.products)[id].isApproved then {id} else {}
  {
    ghost var before := store.products;
    var product := store.FindOneAndUpdate(ByIdAndVendor(id, caller.id), body);
    UpdateApproves(before, ByIdAndVendor(id, caller.id), body);
    resp := Reply(200, Document(if product.Some? then Some((id, product.value)) else None));
  }

  /** `deleteProduct`: removes only a record matching both the id and the caller; the reply is the same either way. */
  method DeleteProduct(store: ProductStore, caller: Identity, id: Id)
    returns (resp: Response)
    requires store.Valid()
    modifies store
    ensures store.Valid()
    ensures store.products == Deleted(old(store.products), ByIdAndVendor(id, caller.id))
    ensures resp == Reply(200, Message("Product deleted"))
  {
    var _ := store.FindOneAndDelete(ByIdAndVendor(id, caller.id));
    resp := Reply(200, Message("Product deleted"));
  }

  /** A vendor's update or delete aimed at a product it does not own, or at no product, changes nothing. */
  lemma NotOwnedIsUntouched(m: map<Id, Product>, id: Id, vendor: Id, body: ProductDoc)
    requires id !in m || m[id].vendor != Some(vendor)
    ensures Updated(m, ByIdAndVendor(id, vendor), body) == m
    ensures Deleted(m, ByIdAndVendor(id, vendor)) == m
  {
  }

  /** The owner can approve its own product, or hand it to another vendor, through the update body. */
  lemma OwnerCanSelfApprove(m: map<Id, Product>, id: Id, vendor: Id, other: Id)
    requires id in m && m[id].vendor == Some(vendor) && !m[id].isApproved
    ensures NewlyApproved(m, Updated(m, ByIdAndVendor(id, vendor), Approval)) == {id}
    ensures Updated(m, ByIdAndVendor(id, vendor), EmptyDoc.(vendor := Some(other)))[id].vendor == Some(other)
  {
    UpdateApproves(m, ByIdAndVendor(id, vendor), Approval);
  }
}
