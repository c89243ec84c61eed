# Bistro Boss restaurant server: guards, dual-key ids and collection updates

This project models the logic of `index.js`, an Express and MongoDB backend for a restaurant:
its request guards, the way its menu routes match an id, and the collection updates its
routes perform. The network, the JWT library and the database driver are replaced by an
abstract in-memory store and a token oracle.

- **Request guards** (`bearer.dfy`, `guards.dfy`). `verifyToken` takes the token from the
  header with `authorization.split("Bearer ")[1]`, and that extraction is modelled exactly.
  The JWT library's `jwt.verify` is a function parameter `verify: string -> Option<Claims>`.
  `verifyAdmin` decides from the role of the *stored* user found by the token's email, never
  from the token's claims. `GET /users/admin/:email` answers only for the caller's own email
  and computes the same decision as an `admin` flag.
- **ObjectIds and dual-key matching** (`object_ids.dfy`). An `_id` is `StrKey(string)` or
  `OidKey(Oid)`. `ParseOid` is `new ObjectId(id)`: it is defined on the ids that
  `/^[0-9a-fA-F]{24}$/` accepts and fails on every other id. `MenuQuery` is the filter that
  `GET` and `PATCH /menu/:id` build: the string key, or for a 24-hex id the string key or the
  parsed ObjectId. `Matches(id, key)` is that filter's test. `OidQuery` is the
  ObjectId-only filter used by the delete and promote routes.
- **Collections** (`tables.dfy`, `store.dfy`). `users`, `menu` and `carts` are sequences of
  documents, held as fields of the class `BistroDb`. `findOne`, `updateOne` and `deleteOne`
  act on the first document in sequence order that the filter selects. MongoDB does not
  specify which document a single-document call picks among several matches, so this order
  is an assumption of the model, not a guarantee of the driver. `BistroDb.Valid`
  is the unique `_id` index. Each route is a method. Its `ensures` gives the new state of every
  collection in terms of the old one, and states the reply.

Failures are `Unauthorized` (401), `Forbidden` (403) and `ServerError`. `ServerError` means a
handler or middleware throws: a missing `Authorization` header, a null user in `verifyAdmin`,
an id the ObjectId constructor rejects, or a duplicate `_id` on insert.

Three behaviours of the code are worth knowing, and the model follows the code in each:
- Menu deletes have no dual-key matching. `DELETE /menu/:id` builds only
  `{ _id: new ObjectId(id) }` (index.js:188), while get and patch also match a string `_id`.
  So a string-keyed item can be read and patched but never deleted
  (`StringKeyedItemSurvivesMenuDelete`).
- A token whose email has no user record makes `verifyAdmin` read `user.role` on null
  (index.js:65), which throws. The model gives `ServerError`: the request does not pass, but
  it is not answered with 403 either.
- The self-only check of `GET /users/admin/:email` answers 401, not 403 (index.js:81), so the
  model gives `Unauthorized`.

`DELETE /users/:id` (index.js:121-126) is modelled as well, since it has the same shape as
the cart delete behind the admin guards.

## Model

| member | source | states |
|---|---|---|
| `Bearer.IndexOf` | index.js:44 | the first occurrence of the separator at or after a position, and that none comes before it (where `split` cuts) |
| `Bearer.BearerToken` | index.js:44-48 | a header without "Bearer " gives no token; a token is non-empty, contains no "Bearer ", and follows a "Bearer " in the header |
| `Bearer.BearerTokenIsSecondPiece` | index.js:44-48 | with the first "Bearer " at `i` and the next one (or the end) at `stop`, there is a token iff the text between them is non-empty, and then it is exactly that text |
| `Bearer.PrefixedHeaderYieldsToken` | index.js:44-48 | `"Bearer " + t` yields exactly `t` for every non-empty `t` without "Bearer " |
| `Bearer.BareSchemeYieldsNothing` | index.js:44-48 | the header "Bearer " with nothing after it fails the `!token` test |
| `Guards.VerifyToken` | index.js:43-58 | an absent header throws; no bearer piece or a token the library rejects is 401; with a bearer piece the outcome is exactly the library's verdict on it (claims, or 401 on rejection); never 403 |
| `Guards.BearerHeaderVerifiesToken` | index.js:44-56 | for `"Bearer " + t`, the outcome is exactly the library's verdict on `t` |
| `Guards.NoBearerNoVerification` | index.js:44-48 | without "Bearer " the answer is 401 whatever the token oracle is, so verification never runs |
| `Guards.VerifyAdmin` | index.js:61-70 | throws exactly when no user has the token's email; passes only if a stored user with that email has role "admin"; otherwise refuses |
| `Guards.AdminDecisionIgnoresClaims` | index.js:62-65 | two tokens with the same email get the same decision: a `role` claim has no effect |
| `Guards.VerifyAdminByRecord` | index.js:61-69 | with unique emails, the stored user's role decides: "admin" passes, any other role is refused |
| `Guards.AdminFlag` | index.js:84-91 | the flag is true only if a user with that email has role "admin" |
| `Guards.AdminFlagIff` | index.js:84-91 | with unique emails, the flag is true iff a user with that email exists and has role "admin"; a missing user gives false |
| `Guards.VerifyAdminAgreesWithFlag` | index.js:61-91 | `verifyAdmin` passes iff the admin flag is true; it refuses iff the user exists and the flag is false |
| `Guards.SelfOnly` | index.js:80-82 | passes iff the path email equals the token's email, else 401 |
| `Guards.AdminGate` | index.js:109 | the guard chain passes iff the token verifies and `verifyAdmin` passes on its claims; a token failure is passed through unchanged, and with a verified token the answer is `verifyAdmin`'s (`IsAdminRecord`: role is the string "admin") |
| `ObjectIds.ParseOid` | index.js:188 | `new ObjectId(id)` succeeds iff the id passes `IsHex24` (24 hex digits, the test of index.js:140), and then gives 12 bytes |
| `ObjectIds.ParseCanonical` | index.js:144 | an ObjectId parses back from its canonical hex text |
| `ObjectIds.ParsedCanonicalForm` | index.js:144 | the canonical text of a parsed ObjectId is the input lower-cased |
| `ObjectIds.ParseOidIgnoresCase` | index.js:140-144 | two 24-hex ids give the same ObjectId iff they agree up to letter case |
| `ObjectIds.MenuQuery` | index.js:138-147 | the filter always selects the string key of the id; `Selects` is the meaning of a filter (`_id` equality, or either of two for `$or`) and `Matches(id, key)` is `Selects(MenuQuery(id), key)`, characterised by `MatchesCases` |
| `ObjectIds.MatchesCases` | index.js:138-147 | `Matches`: for a 24-hex id, a key matches iff it is `StrKey(id)` or `OidKey(ParseOid(id))`; for any other id, iff it is `StrKey(id)` |
| `ObjectIds.StrKeyMatches` | index.js:138-147 | a string key is matched by its own string and by no other id |
| `ObjectIds.OidKeyMatches` | index.js:140-147 | an ObjectId key is matched iff the id is 24 hex digits spelling that ObjectId in either case |
| `ObjectIds.CanonicalIdMatchesBothForms` | index.js:141-146 | the canonical text of an ObjectId matches both the native key and the legacy string key |
| `ObjectIds.OidQuery` | index.js:188 | the delete filter exists iff the id is 24 hex digits, and selects exactly the parsed ObjectId key |
| `ObjectIds.OidQueryNarrowerThanMatch` | index.js:186-191 | whatever the delete filter selects is an ObjectId key that the dual match also selects |
| `Tables.FirstMatch` | index.js:149 | the first document the filter selects, with none before it; none if no document is selected |
| `Tables.FirstWithEmail` | index.js:63-64 | the first user with the email, with none before it; none if no user has it |
| `Tables.InsertOne` | index.js:105 | appends under a fresh `_id`, fails iff the `_id` is taken, and keeps ids unique |
| `Tables.DeleteFirst` | index.js:189 | removes nothing when no document matches, else exactly one document, the first selected |
| `Tables.DeleteOutcome` | index.js:216 | `deletedCount` is the number of documents removed |
| `Tables.DeleteFirstKeepsUnselected` | index.js:189 | every document the filter does not select survives a delete |
| `Tables.DeleteFirstIdempotent` | index.js:215-216 | with unique ids, a second delete of the same id removes nothing and reports zero |
| `Tables.DeleteFirstPreservesUniqueIds` | index.js:189 | a delete keeps `_id`s unique |
| `Tables.UpdateFirst` | index.js:117 | the length and every `_id` are kept; only the first selected document may change, and it gets the updated body |
| `Tables.UpdateOutcome` | index.js:182 | `matchedCount` is 1 iff a document is selected; `modifiedCount` is 1 iff the collection changed |
| `Tables.UpdateFirstTwice` | index.js:182 | an idempotent `$set` applied twice equals applying it once, and the second update reports no modification |
| `Tables.UpdateFirstPreservesUniqueIds` | index.js:117 | an update keeps `_id`s unique |
| `Tables.CartsOf` | index.js:201-203 | the result holds every cart with that email as often as the collection does, and no other cart |
| `Tables.AppendAbsentEmailKeepsUnique` | index.js:97-105 | appending a user whose email is absent keeps emails unique |
| `Tables.UpdateKeepingEmailsKeepsUnique` | index.js:112-117 | an update that keeps emails keeps them unique |
| `Tables.DeleteFirstKeepsUniqueEmails` | index.js:123-124 | deleting a user keeps emails unique |
| `Store.Promoted` | index.js:112-116 | the `$set` of role "admin": the result is an admin record (`IsAdminRecord`) with the same email and other fields |
| `Store.PatchWith` | index.js:173-181 | the `$set` of the five menu fields: afterwards all five are present, each holds the body's value or `null` where the body left it out, every other field is kept, and a second application changes nothing |
| `Store.BistroDb.constructor` | index.js:30-33 | the store starts from three collections with unique `_id`s |
| `Store.BistroDb.AdminStatus` | index.js:78-92 | a token failure passes through; a path email other than the token's is 401; otherwise the reply is the stored user's admin flag |
| `Store.BistroDb.PostUser` | index.js:94-107 | an existing email leaves the users unchanged with the null-insertId reply; otherwise exactly one record is appended (a taken `_id` fails); unique emails are preserved |
| `Store.BistroDb.PromoteUser` | index.js:109-119 | changes nothing unless both guards pass and the id parses; then only the first user with that ObjectId gets role "admin", and the reply counts it; unique emails are preserved |
| `Store.BistroDb.DeleteUser` | index.js:121-126 | changes nothing unless both guards pass and the id parses; then removes at most the user with that ObjectId |
| `Store.BistroDb.GetMenuItem` | index.js:134-151 | returns the first item the dual-key filter selects; returns null iff no item matches |
| `Store.BistroDb.PostMenuItem` | index.js:153-157 | changes nothing unless both guards pass; then appends the item under a fresh `_id` |
| `Store.BistroDb.PatchMenuItem` | index.js:159-184 | changes nothing unless both guards pass; then patches the first item the dual-key filter selects (the item `GET /menu/:id` returns) and reports the counts |
| `Store.BistroDb.DeleteMenuItem` | index.js:186-191 | changes nothing unless both guards pass and the id parses; then removes the first item with that ObjectId only |
| `Store.BistroDb.GetCarts` | index.js:200-205 | returns exactly the carts whose email equals the query email |
| `Store.BistroDb.PostCart` | index.js:207-211 | appends the cart entry under a fresh `_id`; a taken `_id` fails and changes nothing |
| `Store.BistroDb.DeleteCart` | index.js:213-218 | an id that does not parse throws; otherwise removes at most the cart with that ObjectId |
| `Store.RepeatedCartDelete` | index.js:213-218 | a second `DELETE /carts/:id` with the same id reports `deletedCount` 0 and leaves the carts as the first delete left them |
| `Store.RepeatedUserPost` | index.js:94-107 | after a successful `POST /users`, posting the same body again gives the already-exists reply; the users table grows by at most one record |
| `Store.PromoteGrantsAdmin` | index.js:109-119 | after promotion the promoted user's email passes the admin check; every other email's admin decision is unchanged |
| `Store.SelfRegisteredAdminPasses` | index.js:94-107 | `POST /users` stores the body's role unguarded: a fresh email with role "admin", then a token for that email, passes `verifyToken` and `verifyAdmin` (index.js:61-69) |
| `Store.PatchTouchesOnlyFiveFields` | index.js:173-182 | only the first matching item changes; it gets the five fields as the `$set` stores them and keeps its `_id` and its other fields |
| `Store.OmittedFieldStoredAsNull` | index.js:173-182 | a body that leaves out `image`, sent for an item without `image`, still stores `image: null`, and the reply is `matchedCount` 1, `modifiedCount` 1 |
| `Store.PatchIdempotent` | index.js:173-182 | repeating a menu patch changes nothing more and reports no modification |
| `Store.NativeItemReachableByCanonicalId` | index.js:138-147 | an item stored under an ObjectId is selected by the canonical text of that ObjectId for get, patch and delete |
| `Store.StringKeyedItemSurvivesMenuDelete` | index.js:188-189 | no id makes `DELETE /menu/:id` remove a string-keyed item |
| `Store.DeletedCartNotListed` | index.js:200-218 | after a cart delete, `GET /carts` lists that entry for no email, and a repeated delete removes nothing |

## Left out

- Server bootstrap is not modelled: the Express app and CORS (index.js:1-11, 233-239), and the MongoDB connection, ping and logging (index.js:14-28, 221-229). All of it is I/O.
- `POST /jwt` (index.js:36-40) is not modelled. It signs with `jsonwebtoken`, a foreign library, and its token is opaque here. Verification is the parameter `verify`.
- Token expiry is not modelled. It lives inside `verify`, and the model has no clock.
- `GET /users`, `GET /menu` and `GET /reviews` (index.js:73-76, 129-132, 194-197) are left out. They return a whole collection and have no logic to state.
- Async sequencing is not modelled, so neither is the race between the `findOne` and the `insertOne` of `POST /users`. Each route runs as one atomic step.
- HTTP status plumbing is not modelled. `ServerError` stands both for Express answering 500 and for an async handler that leaves the request unanswered.
- Guards.VerifyAdmin: a non-admin user is modelled as `Forbidden`. In the source, `res.status(403).response(...)` (index.js:67) is not an Express method, so that path throws after setting status 403. Either way `next` is not called.
- `updateOne`'s third argument `true` (index.js:172, 182) is not modelled. It is not an options object, and an upsert is not claimed: a patch that selects nothing writes nothing.
- The `_id` of an inserted document is the parameter `newId`, a generated ObjectId. Client-supplied `_id` fields in request bodies are not modelled.
- Only tokens whose payload has a string `email` are modelled. So are only user and cart bodies whose `email` is a string. The matching that the driver does on an undefined `email` is not modelled.
- Store.BistroDb.GetCarts: only a single string `email` query parameter is modelled. Express's query parser turns a repeated parameter (`?email=a&email=b`) into an array, and under Express 4's default extended parser a bracketed one (`?email[$ne]=x`) into a query operator. `find` (index.js:202-203) then returns carts of other owners, which `GetCarts`'s contract does not cover.
- Field values are JSON scalars. Nested arrays and objects in bodies are not distinguished from them.
- A missing field and a `null` field are told apart only for the five menu fields that `PATCH /menu/:id` sets. For a user's `role` both read as `JNull`, and no modelled route treats them differently.
- Which document MongoDB picks among several matches is unspecified. The model assumes the first in sequence order for `findOne`, `updateOne` and `deleteOne`.
- ObjectIds.ParseOid: fails on every id that is not 24 hex digits, as the `bson` 6 ObjectId constructor does. Older `bson` versions also accept any 12-character string as raw bytes. The driver version is not pinned in index.js, so those versions are not modelled.
- A throw in an async handler is modelled as a `ServerError` reply after which the store keeps serving. Under Express 4 on Node 15 or later, such a throw is an unhandled promise rejection that ends the process. Process termination is not modelled.
- The `rest` maps of user and menu bodies may hold keys spelled like the modelled fields (`email`, `role`, `name` and so on). Nothing excludes them: they are other fields and keep their own values, as duplicate JSON keys have no single reading.
- This file has no code for payment intents, payment records, clearing carts after payment, dashboard and category analytics, or notifications, so none of them is modelled.
