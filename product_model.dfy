/**
 * The `Product` schema and the `Product` collection (models/productModel.js).
 * Pure functions say what a query or an update does to the collection; the
 * `ProductStore` class holds the collection and applies them in place.
 */
module ProductModel {
  import opened Wrappers
  import opened Basics

  /**
   * A stored product. `name`, `price` and `vendorId` are required by the schema,
   * `isApproved` and `createdAt` have defaults. `cloudinaryPublicId`, `vendor`,
   * `category` and `stock` are not declared by the schema but are written by handlers.
   */
  datatype Product = Product(
    name: string,
    description: Option<string>,
    price: Number,
    image: Option<string>,
    vendorId: Id,
    isApproved: bool,
    createdAt: Time,
    cloudinaryPublicId: Option<string>,
    vendor: Option<Id>,
    category: Option<string>,
    stock: Option<Number>)

  /** A document as handed to `create` or as an update body: every field may be absent. */
  datatype ProductDoc = ProductDoc(
    name: Option<string>,
    description: Option<string>,
    price: Option<Number>,
    image: Option<string>,
    vendorId: Option<Id>,
    isApproved: Option<bool>,
    createdAt: Option<Time>,
    cloudinaryPublicId: Option<string>,
    vendor: Option<Id>,
    category: Option<string>,
    stock: Option<Number>)

  const EmptyDoc := ProductDoc(None, None, None, None, None, None, None, None, None, None, None)

  /** The update `{ isApproved: true }`. */
  const Approval := EmptyDoc.(isApproved := Some(true))

  /** The schema's `required` checks: a non-empty name, a price and an owner. */
  predicate Validates(d: ProductDoc) {
    && d.name.Some? && d.name.value != ""
    && d.price.Some?
    && d.vendorId.Some?
  }

  /** The stored record for a validated document created at `now`, schema defaults filled in. */
  function FromDoc(d: ProductDoc, now: Time): (p: Product)
    requires Validates(d)
  {
    Product(d.name.value, d.description, d.price.value, d.image, d.vendorId.value,
            d.isApproved.GetOr(false), d.createdAt.GetOr(now),
            d.cloudinaryPublicId, d.vendor, d.category, d.stock)
  }

  /** What the new record holds: the document's fields, `isApproved` false and `createdAt` now unless given. */
  lemma FromDocDefaults(d: ProductDoc, now: Time)
    requires Validates(d)
    ensures FromDoc(d, now).name == d.name.value && FromDoc(d, now).price == d.price.value
    ensures FromDoc(d, now).vendorId == d.vendorId.value && FromDoc(d, now).vendor == d.vendor
    ensures FromDoc(d, now).isApproved <==> d.isApproved == Some(true)
    ensures d.createdAt.None? ==> FromDoc(d, now).createdAt == now
    ensures d.description.None? ==> FromDoc(d, now).description.None?
    ensures d.image.None? ==> FromDoc(d, now).image.None?
  {
  }

  /** An update body applied to a record: every field the body holds overwrites the record's. */
  function ApplyPatch(p: Product, d: ProductDoc): Product {
    Product(
      d.name.GetOr(p.name), if d.description.Some? then d.description else p.description,
      d.price.GetOr(p.price), if d.image.Some? then d.image else p.image,
      d.vendorId.GetOr(p.vendorId), d.isApproved.GetOr(p.isApproved), d.createdAt.GetOr(p.createdAt),
      if d.cloudinaryPublicId.Some? then d.cloudinaryPublicId else p.cloudinaryPublicId,
      if d.vendor.Some? then d.vendor else p.vendor,
      if d.category.Some? then d.category else p.category,
      if d.stock.Some? then d.stock else p.stock)
  }

  /** Applying the same body twice is applying it once; the empty body changes nothing. */
  lemma PatchIdempotent(p: Product, d: ProductDoc)
    ensures ApplyPatch(ApplyPatch(p, d), d) == ApplyPatch(p, d)
    ensures ApplyPatch(p, EmptyDoc) == p
  {
  }

  /** `{ isApproved: true }` flips the flag and nothing else. */
  lemma ApprovalSetsOnlyFlag(p: Product)
    ensures ApplyPatch(p, Approval) == p.(isApproved := true)
  {
  }

  // ---- queries -----------------------------------------------------------

  /** The filters the handlers pass to `find`. */
  datatype Query = ApprovedIs(flag: bool) | VendorIdIs(vendorId: Id) | VendorIs(vendor: Id)

  predicate Matches(p: Product, q: Query) {
    match q
    case ApprovedIs(b) => p.isApproved == b
    case VendorIdIs(v) => p.vendorId == v
    case VendorIs(v) => p.vendor == Some(v)
  }

  /** `Product.find(q)`: the records that match, unchanged. */
  function Find(m: map<Id, Product>, q: Query): (r: map<Id, Product>)
    ensures forall id :: id in r <==> id in m && Matches(m[id], q)
    ensures forall id :: id in r ==> r[id] == m[id]
  {
    map id | id in m && Matches(m[id], q) :: m[id]
  }

  /** Approved and pending records partition the collection. */
  lemma ApprovedPendingPartition(m: map<Id, Product>)
    ensures Find(m, ApprovedIs(true)).Keys !! Find(m, ApprovedIs(false)).Keys
    ensures Find(m, ApprovedIs(true)) + Find(m, ApprovedIs(false)) == m
  {
    var u := Find(m, ApprovedIs(true)) + Find(m, ApprovedIs(false));
    assert u.Keys == m.Keys;
  }

  /** `findById`. */
  function FindById(m: map<Id, Product>, id: Id): (r: Option<Product>)
    ensures r.Some? <==> id in m
    ensures r.Some? ==> r.value == m[id]
  {
    if id in m then Some(m[id]) else None
  }

  // ---- single-document updates ------------------------------------------

  /** The filter of `findByIdAndUpdate`/`findByIdAndDelete`, or the joint `{ _id, vendor }` filter. */
  datatype Selector = ById(id: Id) | ByIdAndVendor(id: Id, vendor: Id)

  /** Some record satisfies the filter; it can only be the one with that id. */
  predicate Selects(m: map<Id, Product>, s: Selector) {
    s.id in m && (s.ByIdAndVendor? ==> m[s.id].vendor == Some(s.vendor))
  }

  /** `findOneAndUpdate(s, d)` on the collection. */
  function Updated(m: map<Id, Product>, s: Selector, d: ProductDoc): map<Id, Product> {
    if Selects(m, s) then m[s.id := ApplyPatch(m[s.id], d)] else m
  }

  /** `findOneAndDelete(s)` on the collection. */
  function Deleted(m: map<Id, Product>, s: Selector): map<Id, Product> {
    if Selects(m, s) then m - {s.id} else m
  }

  /** An update changes at most the selected record, and only by the body; otherwise nothing. */
  lemma UpdateFrame(m: map<Id, Product>, s: Selector, d: ProductDoc)
    ensures Updated(m, s, d).Keys == m.Keys
    ensures forall id :: id in m && id != s.id ==> Updated(m, s, d)[id] == m[id]
    ensures Selects(m, s) ==> Updated(m, s, d)[s.id] == ApplyPatch(m[s.id], d)
    ensures !Selects(m, s) ==> Updated(m, s, d) == m
  {
  }

  /** A delete removes at most the selected record and leaves every other one as it was. */
  lemma DeleteFrame(m: map<Id, Product>, s: Selector)
    ensures Deleted(m, s).Keys == if Selects(m, s) then m.Keys - {s.id} else m.Keys
    ensures forall id :: id in Deleted(m, s) ==> Deleted(m, s)[id] == m[id]
  {
  }

  /** Approving twice leaves the collection as approving once. */
  lemma ApproveIdempotent(m: map<Id, Product>, id: Id)
    ensures Updated(Updated(m, ById(id), Approval), ById(id), Approval) == Updated(m, ById(id), Approval)
  {
    if id in m {
      PatchIdempotent(m[id], Approval);
      var once := Updated(m, ById(id), Approval);
      assert once[id] == ApplyPatch(m[id], Approval);
      assert Updated(once, ById(id), Approval) == once[id := ApplyPatch(once[id], Approval)];
    }
  }

  /** Approval moves a record from the pending list to the approved list. */
  lemma ApprovalMovesBetweenLists(m: map<Id, Product>, id: Id)
    requires id in m && !m[id].isApproved
    ensures id in Find(m, ApprovedIs(false)) && id !in Find(m, ApprovedIs(true))
    ensures var m' := Updated(m, ById(id), Approval);
      id in Find(m', ApprovedIs(true)) && id !in Find(m', ApprovedIs(false))
  {
    ApprovalSetsOnlyFlag(m[id]);
  }

  // ---- who can make `isApproved` true -----------------------------------

  /** The records approved in `after` that were not approved (or did not exist) in `before`. */
  function NewlyApproved(before: map<Id, Product>, after: map<Id, Product>): set<Id> {
    set id | id in after && after[id].isApproved && !(id in before && before[id].isApproved)
  }

  /** An update approves a record only if it selects it and its body sets `isApproved: true`. */
  lemma UpdateApproves(m: map<Id, Product>, s: Selector, d: ProductDoc)
    ensures NewlyApproved(m, Updated(m, s, d))
         == if Selects(m, s) && d.isApproved == Some(true) && !m[s.id].isApproved then {s.id} else {}
  {
    var after := Updated(m, s, d);
    if Selects(m, s) {
      if d.isApproved == Some(true) && !m[s.id].isApproved {
        assert s.id in NewlyApproved(m, after);
      } else {
        assert s.id !in NewlyApproved(m, after);
      }
    } else {
      assert after == m;
    }
  }

  /** A delete never approves anything. */
  lemma DeleteApprovesNothing(m: map<Id, Product>, s: Selector)
    ensures NewlyApproved(m, Deleted(m, s)) == {}
  {
    var after := Deleted(m, s);
    forall id | id in after ensures !(id in NewlyApproved(m, after)) {
      assert after[id] == m[id];
    }
  }

  /** Inserting a fresh record approves it exactly when its document says `isApproved: true`. */
  lemma InsertApproves(m: map<Id, Product>, id: Id, d: ProductDoc, now: Time)
    requires id !in m && Validates(d)
    ensures NewlyApproved(m, m[id := FromDoc(d, now)]) == if d.isApproved == Some(true) then {id} else {}
  {
    var after := m[id := FromDoc(d, now)];
    if d.isApproved == Some(true) {
      assert id in NewlyApproved(m, after);
    }
  }

  // ---- the collection ----------------------------------------------------

  /** The `Product` collection: its records by id and the next id it will hand out. */
  class ProductStore {
    var products: map<Id, Product>
    var nextId: Id

    /** Every stored id was handed out earlier, so `nextId` is fresh. */
    ghost predicate Valid()
      reads this
    {
      forall id :: id in products ==> id < nextId
    }

    constructor ()
      ensures Valid() && products == map[] && nextId == 0
    {
      products := map[];
      nextId := 0;
    }

    /** `Product.create(d)` / `new Product(d).save()`: validation, then insertion under a fresh id. */
    method Create(d: ProductDoc, now: Time) returns (r: Option<Id>)
      requires Valid()
      modifies this
      ensures Valid()
      ensures r.Some? <==> Validates(d)
      ensures r.Some? ==> r.value == old(nextId) && r.value !in old(products)
                          && products == old(products)[r.value := FromDoc(d, now)]
      ensures r.None? ==> products == old(products) && nextId == old(nextId)
    {
      if !Validates(d) {
        return None;
      }
      r := Some(nextId);
      products := products[nextId := FromDoc(d, now)];
      nextId := nextId + 1;
    }

    /** `findOneAndUpdate(s, d, { new: true })`: the updated record, or null when nothing matches. */
    method FindOneAndUpdate(s: Selector, d: ProductDoc) returns (r: Option<Product>)
      requires Valid()
      modifies this
      ensures Valid() && nextId == old(nextId)
      ensures products == Updated(old(products), s, d)
      ensures r == if Selects(old(products), s) then Some(ApplyPatch(old(products)[s.id], d)) else None
    {
      if Selects(products, s) {
        var p := ApplyPatch(products[s.id], d);
        products := products[s.id := p];
        r := Some(p);
      } else {
        r := None;
      }
    }

    /** `findOneAndDelete(s)`: the removed record, or null when nothing matches. */
    method FindOneAndDelete(s: Selector) returns (r: Option<Product>)
      requires Valid()
      modifies this
      ensures Valid() && nextId == old(nextId)
      ensures products == Deleted(old(products), s)
      ensures r == if Selects(old(products), s) then Some(old(products)[s.id]) else None
    {
      if Selects(products, s) {
        r := Some(products[s.id]);
        products := products - {s.id};
      } else {
        r := None;
      }
    }
  }
}
