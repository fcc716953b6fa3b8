# Marketplace backend: a Dafny model

This is a model of the core of a small Express/Mongoose marketplace backend. Vendors add products with an uploaded image. An admin approves or deletes them. Anyone can list the approved products. Users register and log in with a bcrypt-hashed password and receive a two-day JWT. The `auth(allowedRoles)` middleware gates the protected product routes. The `roleCheck(roles)` middleware is modelled as written, though it is used only by routers the server never mounts.

The model covers these parts:

- **The request gate** (`Auth`, `RoleCheck`). The bearer-header test and the `split(' ')[1]` token extraction are written as string rules. Token verification goes through oracles, and the whole gate is a decision with four outcomes: no token, an invalid token, denied, or granted.
  - `Auth.AuthMiddleware` is the imperative middleware. It assigns `req.user` on a `Request` object before the role gate runs.
  - `RoleCheck` models the second middleware, whose rule for an empty list differs from `auth`'s. Only the unmounted routers use it.
- **The product collection** (`ProductModel`). `ProductStore` is a class holding a map from id to `Product` and the next fresh id. Its methods are `Create`, `FindOneAndUpdate` and `FindOneAndDelete`. Pure functions specify what each does to the map: `FromDoc` with the schema defaults, `ApplyPatch`, `Updated`, `Deleted` and `Find`. The lemmas state:
  - the partition into approved and pending;
  - the frame of every update and delete;
  - that approval is idempotent;
  - exactly when an operation makes `isApproved` true (`NewlyApproved`).
- **The user collection** (`UserModel`). `UserStore` has `Insert`, `Save`, `FindByIdAndUpdate` and `FindByIdAndDelete`. `findOne({ email })` is modelled as the least id that holds the email.
- **Password and token oracles** (`Crypto`). `hash`, `compare`, `sign` and `decode` are fields of `Oracles`. The predicate `Sound` states their axioms:
  - `compare(p, hash(p))`;
  - `decode(sign(c)) == Some(c)`;
  - a signed token is non-empty and contains no space.

  `Verify` adds jsonwebtoken's empty-token rejection and its expiry test (`exp = iat + 172800`, rejected once `now >= exp`).
- **The routes and controllers.** `ProductRoutes` covers the upload filter, the ordered `/add` checks and the routes `/my-products`, `/approve/:id`, `DELETE /:id`, `/pending` and `/approved`. `AuthRoutes` covers `/register` and `/login`. The four controllers are `VendorController`, `AdminController`, `ProductController` and `UserController`. A handler that changes a collection is a method on the store with `modifies`. A handler that only reads is a function over the map.

Every Mongoose call is one atomic step on the in-memory collection. Cloudinary (upload and destroy) and nodemailer are inputs that say what the call would do: `UploadResult`, `Attempt`, `Mailer`. A handler returns the list of external calls it made as `effects`. A rejected promise that no handler catches is `Response.Unhandled`: Express 4 sends nothing for it, and on Node 15 or later the process would end (see "## Left out").

The code departs from the intended workflow in these ways, and the model follows the code:

- There is no check that price is positive.
- The admin delete is not best-effort: when destroying the asset throws, the route answers 500 and the record stays.
- A vendor's update of a product it does not own answers 200 with `null`, not "not found".
- `role` is not immutable, because `updateProfile` writes the whole body (`UserController.RoleEscalation`).
- `isApproved` can be set by a vendor (`VendorController.OwnerCanSelfApprove`) and by any caller of `createProduct` or the unrestricted `updateProduct` (`ProductController.CreateProduct`, `ProductController.UpdateProduct`).

## Model

| member | source | states |
|---|---|---|
| Strings.Split | middlewares/auth.js:10 | `split` on one character returns at least one part, no part contains the separator, and joining the parts with it gives back the input |
| Strings.HasPrefix | middlewares/auth.js:6 | `startsWith`: the string begins with exactly the prefix; a split's first part is always a prefix of the input (`FirstPart`), and `BearerRoundTrip` uses it for the "Bearer " test |
| Strings.Contains | routes/productRoutes.js:29-31 | an unanchored regular expression alternative: the pattern occurs at some position; any string that literally holds the pattern contains it (`ContainsInside`), and a string that contains it holds its first character (`ContainsFirstChar`) |
| Strings.SplitAfterHead | middlewares/auth.js:10 | splitting `a + sep + b` with `a` free of `sep` gives `a` followed by the parts of `b` |
| Strings.ToLower | routes/productRoutes.js:30 | lower-casing keeps the length and maps every character through the ASCII lower-case rule |
| Strings.ToLowerKeepsLowerCase | routes/productRoutes.js:30 | a string with no upper-case ASCII letter is its own lower case |
| Strings.ToLowerIdempotent | routes/productRoutes.js:30 | lower-casing twice is lower-casing once |
| Crypto.Issue | routes/authRoutes.js:31-35 | signs `{ id, role }` with no email and `exp` two days after issue; `IssuedTokenLifetime` and `IssuedTokenAuthenticates` state what verifying it gives |
| Crypto.Verify | middlewares/auth.js:13 | a token verifies exactly when it is non-empty, decodes, and the clock is strictly before its `exp`; it then yields the decoded claims |
| Crypto.IssuedTokenLifetime | routes/authRoutes.js:31-35 | a token signed with `expiresIn: '2d'` verifies to `{ id, role }` before 172800 seconds have passed, and never after |
| Auth.WellFormed | middlewares/auth.js:6 | a header passes iff it is present and starts with exactly "Bearer "; `Authenticate` gives no token exactly when it fails |
| Auth.ExtractToken | middlewares/auth.js:10 | the token is the text after "Bearer " up to the next space or the end, and contains no space |
| Auth.HeaderClaims | middlewares/auth.js:10-13 | the claims that `jwt.verify` gives for the second space-separated segment of a well-formed header; `Authenticate` is invalid iff it gives none, and otherwise builds the identity from it |
| Auth.BearerRoundTrip | middlewares/auth.js:6-10 | "Bearer " followed by a token without spaces passes the prefix test and gives that token back |
| Auth.TokenStopsAtSpace | middlewares/auth.js:10 | whatever follows the first space after the token is dropped |
| Auth.SecondSegmentOnly | middlewares/auth.js:10 | "Bearer a b" gives "a" and "Bearer " gives the empty token |
| Auth.IdentityOf | middlewares/auth.js:14-18 | `req.user` keeps the claims' id and role; its email is null iff the claims have none or an empty one, and otherwise is the claims' email |
| Auth.Request.constructor | middlewares/auth.js:14-18 | a request keeps its `Authorization` header and starts with no `req.user`; `AuthMiddleware` fills the slot only when the token verifies |
| Auth.RoleAllowed | middlewares/auth.js:20 | a role passes iff the list is empty or holds it (`EmptyListAdmitsEveryRole`, `AgreesWithAuthOnNonEmptyLists`) |
| Auth.Authenticate | middlewares/auth.js:5-27 | no token iff the header is missing or lacks the exact "Bearer " prefix; invalid iff verification fails; otherwise the identity comes from the claims alone, granted iff the list is empty or holds the role |
| Auth.Rejection | middlewares/auth.js:5-27 | a request that is not granted gets 401 for no token or an invalid token, and 403 when denied |
| Auth.NoTokenIgnoresVerifier | middlewares/auth.js:5-8 | without a well-formed header the outcome is "No token provided" whatever the verifier, the clock and the role list |
| Auth.EmptyListAdmitsEveryRole | middlewares/auth.js:3-20 | the default empty role list lets every verified token through |
| Auth.IssuedTokenAuthenticates | middlewares/auth.js:12-24 | a token issued at login or registration is granted with email null while unexpired and its role is allowed, denied when the role is not allowed, and invalid after two days |
| Auth.AuthMiddleware | middlewares/auth.js:4-27 | `next` is called iff the gate grants, and exactly one response is sent otherwise; `req.user` is assigned when the token verifies, before the role gate, and is left alone when it does not |
| RoleCheck.RoleCheck | middlewares/roleCheck.js:2-9 | `next` iff a user is attached and its role is listed; an unlisted role gets 403 "Access denied."; a missing user throws and gets 500 |
| RoleCheck.ReadsOnlyRole | middlewares/roleCheck.js:4 | the verdict depends on the role alone |
| RoleCheck.EmptyListDiffers | middlewares/roleCheck.js:2-5 | an empty list rejects every user, where `auth` with an empty list admits every role |
| RoleCheck.AgreesWithAuthOnNonEmptyLists | middlewares/roleCheck.js:4 | on a non-empty list the two middlewares' role tests agree |
| ProductModel.Validates | models/productModel.js:4-9 | the schema's required paths: a non-empty `name`, a `price` and a `vendorId`; `Create` stores a document iff it passes |
| ProductModel.FromDoc | models/productModel.js:3-12 | the stored record of a valid document, with the defaults `FromDocDefaults` states |
| ProductModel.ApplyPatch | controllers/productController.js:24 | an update body overwrites exactly the fields it holds (`PatchIdempotent`, `ApprovalSetsOnlyFlag`) |
| ProductModel.Updated | controllers/vendorController.js:25-29 | `findOneAndUpdate` on the map: `UpdateFrame` and `UpdateApproves` state what it changes |
| ProductModel.Deleted | controllers/vendorController.js:34 | `findOneAndDelete` on the map: `DeleteFrame` and `DeleteApprovesNothing` state what it removes |
| ProductModel.FromDocDefaults | models/productModel.js:3-12 | a created record keeps the document's name, price and owners; `isApproved` is false unless the document says true; `createdAt` is the creation time unless given; description and image stay absent when not given |
| ProductModel.PatchIdempotent | controllers/productController.js:24 | applying the same update body twice equals applying it once, and the empty body changes nothing |
| ProductModel.ApprovalSetsOnlyFlag | routes/productRoutes.js:141-145 | the update `{ isApproved: true }` changes the flag and nothing else |
| ProductModel.Find | routes/productRoutes.js:127 | `find(q)` returns exactly the records that match the filter, unchanged |
| ProductModel.FindById | routes/productRoutes.js:159 | `findById` finds a record iff the id is stored, and returns that record |
| ProductModel.ApprovedPendingPartition | routes/productRoutes.js:178-201 | the approved and pending records are disjoint and together make up the collection |
| ProductModel.UpdateFrame | controllers/vendorController.js:25-29 | an update changes at most the selected record, and only by the body; when nothing is selected the collection is unchanged |
| ProductModel.DeleteFrame | controllers/vendorController.js:34 | a delete removes at most the selected record and leaves every other record as it was |
| ProductModel.ApproveIdempotent | routes/productRoutes.js:141-145 | approving the same id twice leaves the collection as approving it once |
| ProductModel.ApprovalMovesBetweenLists | routes/productRoutes.js:141-149 | approving a pending record moves it from the pending list to the approved list |
| ProductModel.UpdateApproves | controllers/vendorController.js:25-29 | an update makes a record newly approved iff it selects that record, the body sets `isApproved: true`, and the record was pending |
| ProductModel.DeleteApprovesNothing | controllers/adminController.js:40 | a delete never makes any record approved |
| ProductModel.InsertApproves | controllers/productController.js:16-19 | inserting a fresh record approves it iff its document says `isApproved: true` |
| ProductModel.ProductStore.Create | models/productModel.js:3-12 | a document failing the required name, price or vendorId is rejected with the collection unchanged; otherwise it is stored under a fresh id with defaults filled in |
| ProductModel.ProductStore.FindOneAndUpdate | controllers/vendorController.js:25-29 | the collection becomes `Updated(old, filter, body)` and the updated record, or null, is returned |
| ProductModel.ProductStore.FindOneAndDelete | controllers/vendorController.js:34 | the collection becomes `Deleted(old, filter)` and the removed record, or null, is returned |
| UserModel.ApplyPatch | controllers/userContoller.js:9 | an update body overwrites exactly the user fields it holds, the password included, unhashed |
| UserModel.Updated | controllers/userContoller.js:9-11 | `findByIdAndUpdate` on the user map: the record with that id patched, nothing else changed (`VendorApprovalOnlySetsFlag`, `SameEmailsSameFind`) |
| UserModel.WithRole | controllers/adminController.js:6 | `find({ role })` returns exactly the users with that role, unchanged |
| UserModel.WithoutPassword | controllers/userContoller.js:4 | `.select("-password")`: the reply keeps email, role and approval, and is the same whatever password the record holds (`ProfileHidesPassword`) |
| UserModel.ProfileHidesPassword | controllers/userContoller.js:4 | changing only the stored password does not change the selected profile |
| UserModel.LeastExists | routes/authRoutes.js:13 | a set of ids with a member has a least element, so `findOne` has a first match |
| UserModel.FindOneByEmail | routes/authRoutes.js:13-62 | `findOne({ email })` is null iff no user has the email; otherwise it is the first (least-id) user with it |
| UserModel.FindsSoleHolder | routes/authRoutes.js:59 | when exactly one user holds the email, `findOne` finds that user |
| UserModel.UserStore.Insert | routes/authRoutes.js:22-28 | `save` of a new user stores it under a fresh id and changes nothing else |
| UserModel.UserStore.Save | controllers/userContoller.js:29-30 | saving a record read earlier replaces it and nothing else |
| UserModel.UserStore.FindByIdAndUpdate | controllers/userContoller.js:9-11 | the user map becomes the patched map and the updated user, or null, is returned |
| UserModel.UserStore.FindByIdAndDelete | controllers/adminController.js:20 | the id is removed from the user map and the removed user, or null, is returned |
| AuthRoutes.Register | routes/authRoutes.js:8-51 | a taken email gives 400 "Email already registered" with nothing written; otherwise the user is stored with `hash(password)` and the role as sent, and the reply is 201 with a `{ id, role }` token and the public fields |
| AuthRoutes.Login | routes/authRoutes.js:54-91 | an unknown email gives 401 "User not found" and a wrong password gives 401 "Invalid credentials", neither with a token; a token is issued iff the first user with the email matches the password, carrying its id and role |
| AuthRoutes.RegisterThenLogin | routes/authRoutes.js:19-75 | after registering (email, password, role), logging in with them succeeds and issues a token for that id and role |
| AuthRoutes.SecondRegistrationRefused | routes/authRoutes.js:13-16 | once an email is registered, `findOne` finds it, so a second registration is refused |
| ProductRoutes.MentionsImageType | routes/productRoutes.js:29 | the unanchored image-type test: the string contains "jpeg", "jpg" or "png" anywhere |
| ProductRoutes.FileFilter | routes/productRoutes.js:28-37 | a file passes iff its lower-cased extension and its raw MIME type both mention an image type; `ExactImageFilesPass`, `FilterIsUnanchored` and `OnlyExtensionIsLowerCased` state the consequences |
| ProductRoutes.ExactImageFilesPass | routes/productRoutes.js:28-37 | every file with an exact image extension and MIME type passes the filter |
| ProductRoutes.FilterIsUnanchored | routes/productRoutes.js:29-31 | the filter is a substring test: ".xpngx" with "text/x-png-but-not-really" passes, though neither is an image type |
| ProductRoutes.UpperCaseMimeMentionsNothing | routes/productRoutes.js:29-31 | the raw MIME type "IMAGE/PNG" mentions no image type, because the test is case-sensitive |
| ProductRoutes.OnlyExtensionIsLowerCased | routes/productRoutes.js:30-31 | the extension is lower-cased and the MIME type is not: ".PNG" with "image/png" passes, ".png" with "IMAGE/PNG" is rejected |
| ProductRoutes.Validate | routes/productRoutes.js:44-57 | the checks run in order (missing or empty fields, an unparsable price, a missing file); the first one that fails gives the message, and the form passes iff none fails |
| ProductRoutes.Truthy | routes/productRoutes.js:47 | JavaScript truthiness of a string field: present and not "" |
| ProductRoutes.FieldsPresent | routes/productRoutes.js:47 | the name, description and price are all truthy; `Validate` answers "Name, description, and price are required" exactly when this fails |
| ProductRoutes.FailureText | routes/productRoutes.js:119 | the 500 message is never empty, and it is the error's own message whenever that is non-empty |
| ProductRoutes.AddRejects | routes/productRoutes.js:28-57 | `/add` answers before any upload in this order: the vendor gate, then multer's type filter (500), then the field checks (400); it goes on iff the caller is a vendor, the file is an accepted image and the checks pass |
| ProductRoutes.AddedDoc | routes/productRoutes.js:69-76 | the document `/add` builds: name, description, parsed price, image URL, asset id and `vendorId` the caller, with no `isApproved` (`AddedDocIsPendingAndOwned`) |
| ProductRoutes.AddedDocIsPendingAndOwned | routes/productRoutes.js:69-76 | the document `/add` builds passes the schema and is stored pending, owned by the caller (`vendorId`), with the parsed price and the asset id |
| ProductRoutes.Add | routes/productRoutes.js:42-122 | an early rejection writes nothing and calls nothing; a failed upload answers 500 with nothing written; otherwise the pending product is saved before the mail step, so a mail failure answers 500 and keeps it; nothing becomes approved |
| ProductRoutes.StatusOf | routes/productRoutes.js:130 | the tag is "approved" iff the product is approved, and "pending" iff it is not |
| ProductRoutes.MyProducts | routes/productRoutes.js:125-131 | a vendor gets exactly its products by `vendorId`, each tagged with its status; a caller who is not a vendor gets the gate's rejection |
| ProductRoutes.Approve | routes/productRoutes.js:139-149 | an admin sets `isApproved` on that id only; an unknown id gives 404; a caller who is not an admin changes nothing; at most that id becomes approved |
| ProductRoutes.AdminDelete | routes/productRoutes.js:157-173 | an unknown id gives 404 with no external call; the asset is destroyed only when `cloudinaryPublicId` is truthy; a throw there gives 500 and the record stays; otherwise the record is removed |
| ProductRoutes.Pending | routes/productRoutes.js:178-185 | an admin gets exactly the pending products, each tagged "pending" |
| ProductRoutes.ApprovedList | routes/productRoutes.js:193-196 | with no token, exactly the approved products |
| ProductRoutes.ListsPartition | routes/productRoutes.js:178-201 | the pending list and the approved list are disjoint and cover the collection |
| ProductRoutes.AddThenApprove | routes/productRoutes.js:69-145 | a product saved by `/add` is the vendor's, pending and not approved; after approval it is approved, no longer pending, and still the vendor's |
| VendorController.PickedDoc | controllers/vendorController.js:6-15 | the document as written: the five picked body fields, `vendor` the caller, `isApproved` false, no `vendorId` (`PickedDocNeverValidates`) |
| VendorController.OwnedDoc | controllers/vendorController.js:6-15 | the corrected document, also setting `vendorId` to the caller (`OwnedDocPendingAndOwned`) |
| VendorController.PickedDocNeverValidates | controllers/vendorController.js:7-15 | the document `addProduct` builds never names a `vendorId`, so it never passes the schema |
| VendorController.AddProductAsWritten | controllers/vendorController.js:5-17 | as written, every `addProduct` ends in an uncaught validation error and stores nothing |
| VendorController.OwnedDocPendingAndOwned | controllers/vendorController.js:6-15 | with the owner also written to `vendorId`, the document passes iff the body has a non-empty name and a price; it is then stored pending, owned by the caller, with only the five picked fields from the body |
| VendorController.AddProduct | controllers/vendorController.js:5-17 | the corrected `addProduct` answers 201 with the pending record owned by the caller, or fails with nothing written; it never approves anything |
| VendorController.GetMyProducts | controllers/vendorController.js:19-22 | exactly the products whose `vendor` is the caller |
| VendorController.UpdateProduct | controllers/vendorController.js:24-31 | the whole body is applied only to a record matching both the id and the caller; a missing id and someone else's product both give null; the record becomes approved iff the body says so |
| VendorController.DeleteProduct | controllers/vendorController.js:33-36 | only a record matching both the id and the caller is removed, and the reply is "Product deleted" either way |
| VendorController.NotOwnedIsUntouched | controllers/vendorController.js:24-36 | an update or delete aimed at a product the vendor does not own, or at no product, changes nothing |
| VendorController.OwnerCanSelfApprove | controllers/vendorController.js:25-29 | an owner can approve its own pending product, and can hand it to another vendor, through the update body |
| AdminController.GetAllVendors | controllers/adminController.js:5-8 | exactly the users with role "vendor", password hashes included |
| AdminController.GetAllUsers | controllers/adminController.js:45-48 | exactly the users with role "user", password hashes included |
| AdminController.AccountListsDisjoint | controllers/adminController.js:5-48 | for every user collection, the vendor and user lists share no account |
| AdminController.AdminsListedNowhere | controllers/adminController.js:5-48 | an admin appears in neither list |
| AdminController.ApproveVendorAsWritten | controllers/adminController.js:10-17 | as written, the user's flag is set and then the handler throws, so nothing is sent |
| AdminController.ApproveVendor | controllers/adminController.js:10-17 | the corrected handler sets the flag and replies with the updated user, or null |
| AdminController.VendorApprovalOnlySetsFlag | controllers/adminController.js:11-15 | approving a user changes only its flag, and approving twice equals approving once |
| AdminController.DeleteVendor | controllers/adminController.js:19-22 | the user with that id is removed whatever its role, and the reply is the same either way |
| AdminController.DeleteUser | controllers/adminController.js:50-53 | the user with that id is removed whatever its role, and the reply is the same either way |
| AdminController.DeleteVendorKeepsProducts | controllers/adminController.js:19-22 | deleting a vendor removes only its user record: the product collection, and the products it owns, are left exactly as they were |
| AdminController.GetPendingProducts | controllers/adminController.js:25-28 | exactly the products not yet approved |
| AdminController.ApproveProduct | controllers/adminController.js:30-37 | the record with that id is approved; an unknown id gives 200 with null, not 404; at most that id becomes approved |
| AdminController.DeleteProduct | controllers/adminController.js:39-42 | the record with that id is removed with no asset cleanup, and the reply is the same either way |
| ProductController.GetAllProducts | controllers/productController.js:4-7 | exactly the approved products |
| ProductController.GetProductById | controllers/productController.js:9-12 | the record with that id whatever its approval state, or null |
| ProductController.SpreadDoc | controllers/productController.js:16-19 | the body spread with `vendor` overwritten by the caller (`SpreadOwnership`) |
| ProductController.SpreadOwnership | controllers/productController.js:15-21 | the spread makes the caller the `vendor`, while `vendorId` and `isApproved` come from the body |
| ProductController.CreateProduct | controllers/productController.js:15-21 | a valid body is stored under a fresh id with `vendor` set to the caller and answered with 201; an invalid one writes nothing and is uncaught; the new record is approved iff the body says so |
| ProductController.UpdateProduct | controllers/productController.js:23-28 | the whole body is applied to the record with that id, whoever owns it; it becomes approved iff the body says so |
| ProductController.DeleteProduct | controllers/productController.js:30-33 | the record with that id is removed unconditionally, and the reply is the same either way |
| UserController.GetProfile | controllers/userContoller.js:3-6 | the caller's email, role and approval flag, without the password, or null once the account is gone |
| UserController.UpdateProfile | controllers/userContoller.js:8-13 | the whole body is applied to the caller's record, including a password stored as sent; the reply omits the password |
| UserController.SameEmailsSameFind | controllers/userContoller.js:9 | changing records without changing any email leaves every `findOne({ email })` as it was |
| UserController.RoleEscalation | controllers/userContoller.js:9-12 | a user who sets `role` through `updateProfile` next logs in with that role, and its token passes every gate that lists the role |
| UserController.ChangePasswordAsWritten | controllers/userContoller.js:15-33 | as written, a missing account gives 404 "User not found" and every other request throws, so nothing is sent |
| UserController.ChangePasswordNeverSucceeds | controllers/userContoller.js:23-28 | as written, no request ever answers "Password updated successfully" |
| UserController.ChangePassword | controllers/userContoller.js:15-33 | missing account gives 404 and a wrong current password gives 401, both with nothing written; otherwise only the stored password changes, to `hash(newPassword)` |
| UserController.NewPasswordLogsIn | controllers/userContoller.js:28-32 | after a successful change, the new password logs in with the same id and role |

## Left out

- server.js is not part of this model. It holds the dotenv and Cloudinary configuration, the database connection and `listen`, all startup I/O.
- routes/adminRoutes.js, routes/vendorRoutes.js and routes/userRoutes.js are not part of this model. They are not mounted, and they name handlers and module paths that do not exist. The controllers are modelled as handlers called with a verified caller (`Identity`).
- Mongoose strict mode is not modelled. In the real library the undeclared fields `vendor`, `category`, `stock` and `cloudinaryPublicId` would be dropped on write, and `strictQuery` may affect filters on them. The model stores and filters each field as the handler writes it.
- Mongoose casting is not modelled: ids are `nat` and fields are typed values. A malformed id, a `null` in an update body and `_id` in a body are not modelled either.
- The 500 branches reached through database errors are not modelled. The store is total, so these `catch` blocks run only for the Cloudinary and mail failures, which are modelled.
- Multer disk storage is not modelled: `mkdir`, the `Date.now()` file names, the 5MB limit and the temp-file `unlinkSync`/`existsSync` cleanup are all inside the library or plain file I/O.
- The email HTML and the transporter configuration are left out. Only whether mail is configured and whether `sendMail` throws is an input (`Mailer`).
- `path.extname` is an input: `FileInfo.ext` is the extension as `path` would return it.
- ProductRoutes.FileFilter: lower-casing covers only the ASCII range.
- `parseFloat` is an input oracle `parse` that returns no number for NaN. What it accepts is not modelled.
- AuthRoutes.Register: the email, password and role are strings. An absent body field is not modelled, and neither is the user schema's validation, because models/userModel.js is not part of this model.
- Crypto.Sound: stored hashes are deterministic in the model. `hash` is a function of the password, while bcrypt.hash draws a fresh salt on every call (routes/authRoutes.js:19, controllers/userContoller.js:28), so two registrations with one password would store different hashes. No property here depends on equal hashes.
- AuthRoutes.Login: the email and password are strings. A body without a password reaches `bcrypt.compare` with `undefined`, which bcryptjs rejects with "Illegal arguments"; the route would then answer 500 with that message, and the model does not have this path.
- UserController.ChangePassword: the current and new passwords are strings. A body missing either would make bcryptjs reject `compare` or `hash`; nothing catches that rejection, so nothing would be sent, and the model does not have this path.
- The Express version: the model assumes Express 4, which sends nothing for a rejected promise that a handler does not catch. The installed Express version is not part of this model. Under Express 5 these rejections reach the default error handler and answer 500. On Node 15 and later an unhandled rejection also ends the process, and server.js installs no `unhandledRejection` listener, so in a real deployment each of these requests would stop the server. Process termination is not modelled. This affects `AddProductAsWritten`, `ApproveVendorAsWritten`, `ChangePasswordAsWritten` and the invalid branch of `ProductController.CreateProduct`.
- The order of `find` results is not modelled. Results are maps keyed by id, and the model says which records they hold.
- The model does not cover concurrency or interleaving between requests. Each handler is one atomic step, so last-write-wins races are not modelled either.
- Crypto.Sound: the bcrypt and jsonwebtoken algorithms are not modelled. The model assumes only the axioms `Sound` states, and a forged token would be `decode`'s concern.

## Findings

| source | as written | input that shows it | evidently intended | confidence | as-written member | corrected member |
|---|---|---|---|---|---|---|
| controllers/adminController.js:16 | replies with `vendors`, a name that is not defined, after the update | any `approveVendor` request | reply with the updated `vendor` | high, not executed | AdminController.ApproveVendorAsWritten | AdminController.ApproveVendor |
| controllers/userContoller.js:23 | calls `bcrypt`, which the file never requires | any `changePassword` for an existing user | compare and hash through bcryptjs | high, not executed | UserController.ChangePasswordNeverSucceeds | UserController.ChangePassword |
| controllers/vendorController.js:13 | writes the owner to `vendor`, while the schema requires `vendorId` | any `addProduct`, e.g. body `{ name: "a", price: 1 }` | also set `vendorId: req.user.id` | high, not executed | VendorController.PickedDocNeverValidates | VendorController.OwnedDocPendingAndOwned |
