/**
 * The product router (routes/productRoutes.js): the upload filter, the `/add`
 * handler with its ordered checks, and the vendor, admin and public routes.
 * Each route runs the `auth` gate first; multer runs between the gate and the
 * `/add` handler.
 */
module ProductRoutes {
  import opened Wrappers
  import opened Basics
  import opened Strings
  import opened Crypto
  import opened Http
  import opened Services
  import opened Auth
  import opened ProductModel

  // ---- the upload filter -------------------------------------------------

  /** `/jpeg|jpg|png/.test(s)`: an unanchored match, so any occurrence will do. */
  predicate MentionsImageType(s: string) {
    Contains(s, "jpeg") || Contains(s, "jpg") || Contains(s, "png")
  }

  /** An uploaded file: `ext` is `path.extname(file.originalname)` and `mimetype` the declared type. */
  datatype FileInfo = FileInfo(ext: string, mimetype: string)

  const TYPE_ERROR: string := "Only JPEG and PNG images are allowed"

  /** multer's `fileFilter`: the lower-cased extension and the raw MIME type must both mention an image type. */
  function FileFilter(f: FileInfo): bool {
    MentionsImageType(ToLower(f.ext)) && MentionsImageType(f.mimetype)
  }

  /** The anchored test a reader might expect: an exact extension and an exact image MIME type. */
  predicate ExactImageFile(f: FileInfo) {
    ToLower(f.ext) in [".jpeg", ".jpg", ".png"] && f.mimetype in ["image/jpeg", "image/jpg", "image/png"]
  }

  /** A string that literally holds one of the three type names mentions an image type. */
  lemma TypeMentioned(a: string, t: string, b: string)
    requires t == "jpeg" || t == "jpg" || t == "png"
    ensures MentionsImageType(a + t + b)
  {
    ContainsInside(a, t, b);
  }

  /** The exact extensions each mention an image type. */
  lemma ExactExtensionMentions(e: string)
    requires e in [".jpeg", ".jpg", ".png"]
    ensures MentionsImageType(e)
  {
    if e == ".jpeg" { TypeMentioned(".", "jpeg", ""); assert "." + "jpeg" + "" == e; }
    else if e == ".jpg" { TypeMentioned(".", "jpg", ""); assert "." + "jpg" + "" == e; }
    else { TypeMentioned(".", "png", ""); assert "." + "png" + "" == e; }
  }

  /** The exact image MIME types each mention an image type. */
  lemma ExactMimeMentions(m: string)
    requires m in ["image/jpeg", "image/jpg", "image/png"]
    ensures MentionsImageType(m)
  {
    if m == "image/jpeg" { TypeMentioned("image/", "jpeg", ""); assert "image/" + "jpeg" + "" == m; }
    else if m == "image/jpg" { TypeMentioned("image/", "jpg", ""); assert "image/" + "jpg" + "" == m; }
    else { TypeMentioned("image/", "png", ""); assert "image/" + "png" + "" == m; }
  }

  /** Every file the anchored test accepts passes the filter. */
  lemma ExactImageFilesPass(f: FileInfo)
    requires ExactImageFile(f)
    ensures FileFilter(f)
  {
    ExactExtensionMentions(ToLower(f.ext));
    ExactMimeMentions(f.mimetype);
  }

  /** ".xpngx" mentions "png". */
  lemma XpngxMentions()
    ensures MentionsImageType(".xpngx")
  {
    TypeMentioned(".x", "png", "x");
    assert ".x" + "png" + "x" == ".xpngx";
  }

  /** "text/x-png-but-not-really" mentions "png". */
  lemma EmbeddedMimeMentions()
    ensures MentionsImageType("text/x-png-but-not-really")
  {
    TypeMentioned("text/x-", "png", "-but-not-really");
    assert "text/x-" + "png" + "-but-not-really" == "text/x-png-but-not-really";
  }

  /** ".xpngx" with "text/x-png-but-not-really" passes the filter. */
  lemma EmbeddedPngPasses()
    ensures FileFilter(FileInfo(".xpngx", "text/x-png-but-not-really"))
  {
    ToLowerKeepsLowerCase(".xpngx");
    XpngxMentions();
    EmbeddedMimeMentions();
  }

  /** The converse fails: a type named anywhere inside either string passes. */
  lemma FilterIsUnanchored()
    ensures var f := FileInfo(".xpngx", "text/x-png-but-not-really");
      FileFilter(f) && !ExactImageFile(f)
  {
    EmbeddedPngPasses();
    ToLowerKeepsLowerCase(".xpngx");
    assert ".xpngx"[1] == 'x';
    assert |"text/x-png-but-not-really"| > 10;
  }

  /** The upper-case extension ".PNG" passes: the extension is lower-cased first. */
  lemma UpperCaseExtensionPasses()
    ensures FileFilter(FileInfo(".PNG", "image/png"))
  {
    assert ToLower(".PNG") == ".png";
    ExactExtensionMentions(".png");
    ExactMimeMentions("image/png");
  }

  /** "IMAGE/PNG" holds neither 'j' nor 'p', so it mentions no image type. */
  lemma UpperCaseMimeMentionsNothing()
    ensures !MentionsImageType("IMAGE/PNG")
  {
    var m := "IMAGE/PNG";
    assert 'j' !in m && 'p' !in m;
    if Contains(m, "jpeg") { ContainsFirstChar(m, "jpeg"); }
    if Contains(m, "jpg") { ContainsFirstChar(m, "jpg"); }
    if Contains(m, "png") { ContainsFirstChar(m, "png"); }
  }

  /** Only the extension is lower-cased: ".PNG" passes, the MIME type "IMAGE/PNG" does not. */
  lemma OnlyExtensionIsLowerCased()
    ensures FileFilter(FileInfo(".PNG", "image/png"))
    ensures !FileFilter(FileInfo(".png", "IMAGE/PNG"))
  {
    UpperCaseExtensionPasses();
    UpperCaseMimeMentionsNothing();
  }

  // ---- POST /add ---------------------------------------------------------

  /** The text fields of the multipart form; an absent field is `undefined`. */
  datatype AddForm = AddForm(name: Option<string>, description: Option<string>, price: Option<string>)

  /** `!!s` for a string that may be absent. */
  predicate Truthy(s: Option<string>) {
    s.Some? && s.value != ""
  }

  const MSG_REQUIRED: string := "Name, description, and price are required"
  const MSG_PRICE: string := "Price must be a valid number"
  const MSG_IMAGE: string := "Image file is required"

  predicate FieldsPresent(form: AddForm) {
    Truthy(form.name) && Truthy(form.description) && Truthy(form.price)
  }

  /**
   * The handler's checks, in order: required fields, then a parsable price
   * (`parse` is `parseFloat`, None for NaN), then the file. The first that fails names the reply.
   */
  function Validate(form: AddForm, parse: string -> Option<Number>, hasFile: bool): (err: Option<string>)
    ensures err.None? <==> FieldsPresent(form) && parse(form.price.value).Some? && hasFile
    ensures !FieldsPresent(form) ==> err == Some(MSG_REQUIRED)
    ensures FieldsPresent(form) && parse(form.price.value).None? ==> err == Some(MSG_PRICE)
    ensures FieldsPresent(form) && parse(form.price.value).Some? && !hasFile ==> err == Some(MSG_IMAGE)
  {
    if !FieldsPresent(form) then Some(MSG_REQUIRED)
    else if parse(form.price.value).None? then Some(MSG_PRICE)
    else if !hasFile then Some(MSG_IMAGE)
    else None
  }

  /** Everything `/add` can answer before any upload or write: the gate, multer's filter, the checks. */
  function AddRejects(header: Option<string>, c: Oracles, now: Time, form: AddForm, file: Option<FileInfo>,
                      parse: string -> Option<Number>): (r: Option<Response>)
    ensures var g := Authenticate(header, c, now, ["vendor"]);
      && (!g.Granted? ==> r == Some(Rejection(g)))
      && (g.Granted? && file.Some? && !FileFilter(file.value) ==> r == Some(Reply(500, ErrorPage(TYPE_ERROR))))
      && (g.Granted? && (file.None? || FileFilter(file.value)) && Validate(form, parse, file.Some?).Some? ==>
            r == Some(Reply(400, Message(Validate(form, parse, file.Some?).value))))
      && (r.None? <==> g.Granted? && file.Some? && FileFilter(file.value) && Validate(form, parse, true).None?)
  {
    var g := Authenticate(header, c, now, ["vendor"]);
    if !g.Granted? then Some(Rejection(g))
    else if file.Some? && !FileFilter(file.value) then Some(Reply(500, ErrorPage(TYPE_ERROR)))
    else match Validate(form, parse, file.Some?)
      case Some(msg) => Some(Reply(400, Message(msg)))
      case None => None
  }

  /** The document `/add` saves: no `isApproved`, so the schema default applies. */
  function AddedDoc(form: AddForm, price: Number, asset: UploadResult, caller: Id): (d: ProductDoc)
    requires asset.Uploaded?
  {
    EmptyDoc.(name := form.name, description := form.description, price := Some(price),
              image := Some(asset.secureUrl), cloudinaryPublicId := Some(asset.publicId),
              vendorId := Some(caller))
  }

  /** A document built by `/add` from checked fields passes the schema, and is stored pending and owned by the caller. */
  lemma AddedDocIsPendingAndOwned(form: AddForm, price: Number, asset: UploadResult, caller: Id, now: Time)
    requires asset.Uploaded? && FieldsPresent(form)
    ensures var d := AddedDoc(form, price, asset, caller);
      && Validates(d)
      && FromDoc(d, now).vendorId == caller && FromDoc(d, now).price == price
      && !FromDoc(d, now).isApproved
      && FromDoc(d, now).cloudinaryPublicId == Some(asset.publicId)
  {
  }

  /** `error.message || 'Failed to add product'`. */
  function FailureText(message: string): (text: string)
    ensures text != ""
    ensures message != "" ==> text == message
  {
    if message != "" then message else "Failed to add product"
  }

  /**
   * POST /add. `upload` and `mailer` say what Cloudinary and the mail
   * transport would do if called; `effects` lists the calls made. The product
   * is saved before the mail step, so a mail failure answers 500 but keeps it.
   */
  method Add(store: ProductStore, header: Option<string>, c: Oracles, now: Time,
             form: AddForm, file: Option<FileInfo>, parse: string -> Option<Number>,
             upload: UploadResult, mailer: Mailer)
    returns (resp: Response, effects: seq<Effect>)
    requires store.Valid()
    modifies store
    ensures store.Valid()
    ensures NewlyApproved(old(store.products), store.products) == {}
    ensures var early := AddRejects(header, c, now, form, file, parse);
      early.Some? ==> resp == early.value && effects == [] && store.products == old(store.products)
    ensures AddRejects(header, c, now, form, file, parse).None? && upload.UploadFailed? ==>
      && resp == Reply(500, Message(FailureText(upload.message)))
      && effects == [Upload] && store.products == old(store.products)
    ensures AddRejects(header, c, now, form, file, parse).None? && upload.Uploaded? ==>
      var caller := Authenticate(header, c, now, ["vendor"]).user.id;
      var p := FromDoc(AddedDoc(form, parse(form.price.value).value, upload, caller), now);
      && old(store.nextId) !in old(store.products)
      && store.products == old(store.products)[old(store.nextId) := p]
      && effects == [Upload] + (if mailer.MailOn? then [SendMail] else [])
      && resp == (if mailer.MailOn? && mailer.send.Failed? then Reply(500, Message(FailureText(mailer.send.message)))
                  else Reply(201, WithProduct("Product added, pending approval", old(store.nextId), p)))
  {
    var early := AddRejects(header, c, now, form, file, parse);
    if early.Some? {
      return early.value, [];
    }
    var caller := Authenticate(header, c, now, ["vendor"]).user.id;
    effects := [Upload];
    if upload.UploadFailed? {
      return Reply(500, Message(FailureText(upload.message))), effects;
    }
    var price := parse(form.price.value).value;
    var doc := AddedDoc(form, price, upload, caller);
    AddedDocIsPendingAndOwned(form, price, upload, caller, now);
    ghost var before := store.products;
    var id := store.Create(doc, now);
    InsertApproves(before, id.value, doc, now);
    if mailer.MailOn? {
      effects := effects + [SendMail];
      if mailer.send.Failed? {
        return Reply(500, Message(FailureText(mailer.send.message))), effects;
      }
    }
    resp := Reply(201, WithProduct("Product added, pending approval", id.value, FromDoc(doc, now)));
  }

  // ---- GET /my-products --------------------------------------------------

  /** `p.isApproved ? 'approved' : 'pending'`. */
  function StatusOf(p: Product): (s: string)
    ensures s == "approved" <==> p.isApproved
    ensures s == "pending" <==> !p.isApproved
  {
    if p.isApproved then "approved" else "pending"
  }

  /** GET /my-products: exactly the caller's products (by `vendorId`), each tagged with its status. */
  function MyProducts(m: map<Id, Product>, header: Option<string>, c: Oracles, now: Time): (resp: Response)
    ensures var g := Authenticate(header, c, now, ["vendor"]);
      && (!g.Granted? ==> resp == Rejection(g))
      && (g.Granted? ==>
            && resp.Reply? && resp.status == 200 && resp.body.Listing?
            && (forall id :: id in resp.body.entries <==> id in m && m[id].vendorId == g.user.id)
            && (forall id :: id in resp.body.entries ==> resp.body.entries[id] == Listed(m[id], StatusOf(m[id]))))
  {
    var g := Authenticate(header, c, now, ["vendor"]);
    if !g.Granted? then Rejection(g)
    else
      var mine := Find(m, VendorIdIs(g.user.id));
      Reply(200, Listing(map id | id in mine :: Listed(mine[id], StatusOf(mine[id]))))
  }

  // ---- PUT /approve/:id --------------------------------------------------

  /** PUT /approve/:id: sets `isApproved` on that record only; 404 when the id is unknown. */
  method Approve(store: ProductStore, header: Option<string>, c: Oracles, now: Time, id: Id)
    returns (resp: Response)
    requires store.Valid()
    modifies store
    ensures store.Valid()
    ensures NewlyApproved(old(store.products), store.products) <= {id}
    ensures var g := Authenticate(header, c, now, ["admin"]);
      && (!g.Granted? ==> resp == Rejection(g) && store.products == old(store.products))
      && (g.Granted? ==> store.products == Updated(old(store.products), ById(id), Approval))
      && (g.Granted? && id !in old(store.products) ==> resp == Reply(404, Message("Product not found")))
      && (g.Granted? && id in old(store.products) ==>
            resp == Reply(200, WithProduct("Product approved", id, old(store.products)[id].(isApproved := true))))
  {
    var g := Authenticate(header, c, now, ["admin"]);
    if !g.Granted? {
      return Rejection(g);
    }
    ghost var before := store.products;
    var product := store.FindOneAndUpdate(ById(id), Approval);
    UpdateApproves(before, ById(id), Approval);
    if product.None? {
      return Reply(404, Message("Product not found"));
    }
    ApprovalSetsOnlyFlag(before[id]);
    resp := Reply(200, WithProduct("Product approved", id, product.value));
  }

  // ---- DELETE /:id -------------------------------------------------------

  /**
   * DELETE /:id (admin). An unknown id answers 404 without any external call.
   * The asset is destroyed first, only when `cloudinaryPublicId` is truthy;
   * `destroy` is what that call does. A throw there answers 500 and the record stays.
   */
  method AdminDelete(store: ProductStore, header: Option<string>, c: Oracles, now: Time, id: Id, destroy: Attempt)
    returns (resp: Response, effects: seq<Effect>)
    requires store.Valid()
    modifies store
    ensures store.Valid()
    ensures NewlyApproved(old(store.products), store.products) == {}
    ensures var g := Authenticate(header, c, now, ["admin"]);
      && (!g.Granted? ==> resp == Rejection(g) && effects == [] && store.products == old(store.products))
      && (g.Granted? && id !in old(store.products) ==>
            resp == Reply(404, Message("Product not found")) && effects == [] && store.products == old(store.products))
    ensures var g := Authenticate(header, c, now, ["admin"]);
      g.Granted? && id in old(store.products) ==>
      var asset := old(store.products)[id].cloudinaryPublicId;
      && effects == (if Truthy(asset) then [Destroy(asset.value)] else [])
      && (Truthy(asset) && destroy.Failed? ==>
            resp == Reply(500, Message("Internal server error")) && store.products == old(store.products))
      && (!(Truthy(asset) && destroy.Failed?) ==>
            resp == Reply(200, Message("Product deleted successfully")) && store.products == old(store.products) - {id})
  {
    var g := Authenticate(header, c, now, ["admin"]);
    if !g.Granted? {
      return Rejection(g), [];
    }
    var product := FindById(store.products, id);
    if product.None? {
      return Reply(404, Message("Product not found")), [];
    }
    effects := [];
    var asset := product.value.cloudinaryPublicId;
    if Truthy(asset) {
      effects := [Destroy(asset.value)];
      if destroy.Failed? {
        return Reply(500, Message("Internal server error")), effects;
      }
    }
    ghost var before := store.products;
    var _ := store.FindOneAndDelete(ById(id));
    DeleteApprovesNothing(before, ById(id));
    resp := Reply(200, Message("Product deleted successfully"));
  }

  // ---- GET /pending and GET /approved -----------------------------------

  /** GET /pending (admin): exactly the unapproved products, each tagged 'pending'. */
  function Pending(m: map<Id, Product>, header: Option<string>, c: Oracles, now: Time): (resp: Response)
    ensures var g := Authenticate(header, c, now, ["admin"]);
      && (!g.Granted? ==> resp == Rejection(g))
      && (g.Granted? ==>
            && resp.Reply? && resp.status == 200 && resp.body.Listing?
            && (forall id :: id in resp.body.entries <==> id in m && !m[id].isApproved)
            && (forall id :: id in resp.body.entries ==> resp.body.entries[id] == Listed(m[id], "pending")))
  {
    var g := Authenticate(header, c, now, ["admin"]);
    if !g.Granted? then Rejection(g)
    else
      var pending := Find(m, ApprovedIs(false));
      Reply(200, Listing(map id | id in pending :: Listed(pending[id], "pending")))
  }

  /** GET /approved: public, exactly the approved products. */
  function ApprovedList(m: map<Id, Product>): (resp: Response)
    ensures resp.Reply? && resp.status == 200 && resp.body.Products?
    ensures forall id :: id in resp.body.products <==> id in m && m[id].isApproved
    ensures forall id :: id in resp.body.products ==> resp.body.products[id] == m[id]
  {
    Reply(200, Products(Find(m, ApprovedIs(true))))
  }

  /** What an admin sees as pending and what anyone sees as approved partition the collection. */
  lemma ListsPartition(m: map<Id, Product>, header: Option<string>, c: Oracles, now: Time)
    requires Authenticate(header, c, now, ["admin"]).Granted?
    ensures var pending := Pending(m, header, c, now).body.entries.Keys;
      var approved := ApprovedList(m).body.products.Keys;
      pending !! approved && pending + approved == m.Keys
  {
  }

  /**
   * The lifecycle scenario: a product saved by `/add` is listed for its vendor
   * and as pending but not as approved; after approval it is approved and no longer pending.
   */
  lemma AddThenApprove(m: map<Id, Product>, id: Id, form: AddForm, price: Number, asset: UploadResult,
                       caller: Id, now: Time)
    requires id !in m && asset.Uploaded? && FieldsPresent(form)
    ensures var m1 := m[id := FromDoc(AddedDoc(form, price, asset, caller), now)];
      && id in Find(m1, VendorIdIs(caller))
      && id in Find(m1, ApprovedIs(false)) && id !in Find(m1, ApprovedIs(true))
      && var m2 := Updated(m1, ById(id), Approval);
         id in Find(m2, ApprovedIs(true)) && id !in Find(m2, ApprovedIs(false)) && id in Find(m2, VendorIdIs(caller))
  {
    AddedDocIsPendingAndOwned(form, price, asset, caller, now);
    var m1 := m[id := FromDoc(AddedDoc(form, price, asset, caller), now)];
    ApprovalMovesBetweenLists(m1, id);
    ApprovalSetsOnlyFlag(m1[id]);
  }
}
