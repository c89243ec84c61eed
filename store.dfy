/** The route handlers of index.js over an in-memory store: `users`, `menu` and `carts`
    are fields that the handlers reassign where the source calls `insertOne`, `updateOne`
    and `deleteOne`. Routes behind `verifyToken` and `verifyAdmin` take the
    `Authorization` header and the token oracle, and do nothing unless the guards pass. */
module Store {
  import opened Common
  import opened ObjectIds
  import opened Tables
  import opened Guards
  import opened Bearer

  /** The reply of an insert route: the new `_id`, or the "User already exist" reply whose
      `insertId` is null. */
  datatype InsertReply = Inserted(insertedId: Key) | AlreadyExists

  /** The five fields `PATCH /menu/:id` takes from the request body; None where the body
      leaves the field out, so that `item.name` and the others are `undefined`. */
  datatype MenuPatch = MenuPatch(name: Option<Json>, category: Option<Json>, price: Option<Json>,
                                 recipe: Option<Json>, image: Option<Json>)

  /** What a `$set` of a body value stores: the value itself, or `null` for `undefined`, since
      the driver's `ignoreUndefined` is off by default. */
  function Stored(v: Option<Json>): Option<Json> {
    Some(if v.Some? then v.value else JNull)
  }

  /** `$set: { role: "admin" }`: the user becomes an admin record, keeping email and the rest. */
  function Promoted(u: UserBody): (r: UserBody)
    ensures IsAdminRecord(r) && r.email == u.email && r.rest == u.rest
  {
    u.(role := AdminRole)
  }

  /** `$set` of the five menu fields from the body: each of the five is present afterwards
      and holds the body's value, or `null` where the body left it out; every other field is
      kept, and applying the same patch again changes nothing. */
  function PatchWith(p: MenuPatch): (r: MenuBody -> MenuBody)
    ensures forall b :: r(b).rest == b.rest && r(r(b)) == r(b)
    ensures forall b :: r(b).name.Some? && r(b).category.Some? && r(b).price.Some?
                        && r(b).recipe.Some? && r(b).image.Some?
    ensures forall b :: (p.name.Some? ==> r(b).name == p.name) && (p.category.Some? ==> r(b).category == p.category)
                        && (p.price.Some? ==> r(b).price == p.price) && (p.recipe.Some? ==> r(b).recipe == p.recipe)
                        && (p.image.Some? ==> r(b).image == p.image)
    ensures forall b :: (p.name.None? ==> r(b).name == Some(JNull)) && (p.category.None? ==> r(b).category == Some(JNull))
                        && (p.price.None? ==> r(b).price == Some(JNull)) && (p.recipe.None? ==> r(b).recipe == Some(JNull))
                        && (p.image.None? ==> r(b).image == Some(JNull))
  {
    (b: MenuBody) => b.(name := Stored(p.name), category := Stored(p.category), price := Stored(p.price),
                        recipe := Stored(p.recipe), image := Stored(p.image))
  }

  class BistroDb {
    var users: seq<Doc<UserBody>>
    var menu: seq<Doc<MenuBody>>
    var carts: seq<Doc<CartBody>>

    /** The unique `_id` index of every collection. */
    ghost predicate Valid()
      reads this
    {
      UniqueIds(users) && UniqueIds(menu) && UniqueIds(carts)
    }

    constructor (users0: seq<Doc<UserBody>>, menu0: seq<Doc<MenuBody>>, carts0: seq<Doc<CartBody>>)
      requires UniqueIds(users0) && UniqueIds(menu0) && UniqueIds(carts0)
      ensures Valid()
      ensures users == users0 && menu == menu0 && carts == carts0
    {
      users, menu, carts := users0, menu0, carts0;
    }

    /** `GET /users/admin/:email`: only for the caller's own email, and then the admin flag of
        the stored user. */
    method AdminStatus(authorization: Option<string>, verify: string -> Option<Claims>, email: string)
      returns (r: Result<bool>)
      ensures VerifyToken(authorization, verify).Err? ==> r == Err(VerifyToken(authorization, verify).failure)
      ensures VerifyToken(authorization, verify).Ok? && VerifyToken(authorization, verify).value.email != email ==>
                r == Err(Unauthorized)
      ensures r.Ok? <==> VerifyToken(authorization, verify).Ok? && VerifyToken(authorization, verify).value.email == email
      ensures r.Ok? ==> r.value == AdminFlag(users, email)
    {
      var auth := VerifyToken(authorization, verify);
      if auth.Err? {
        return Err(auth.failure);
      }
      if SelfOnly(email, auth.value) != Pass {
        return Err(Unauthorized);
      }
      var found := FirstWithEmail(users, email);
      var admin := false;
      if found.Some? {
        admin := IsAdminRecord(users[found.value].body);
      }
      return Ok(admin);
    }

    /** `POST /users`: insert the user unless one with the same email exists. */
    method PostUser(user: UserBody, newId: Oid) returns (r: Result<InsertReply>)
      requires Valid()
      modifies this
      ensures Valid() && menu == old(menu) && carts == old(carts)
      ensures FirstWithEmail(old(users), user.email).Some? ==> r == Ok(AlreadyExists) && users == old(users)
      ensures FirstWithEmail(old(users), user.email).None? && HasKey(old(users), OidKey(newId)) ==>
                r == Err(ServerError) && users == old(users)
      ensures FirstWithEmail(old(users), user.email).None? && !HasKey(old(users), OidKey(newId)) ==>
                r == Ok(Inserted(OidKey(newId))) && users == old(users) + [Doc(OidKey(newId), user)]
      ensures UniqueEmails(old(users)) ==> UniqueEmails(users)
    {
      if FirstWithEmail(users, user.email).Some? {
        return Ok(AlreadyExists);
      }
      match InsertOne(users, OidKey(newId), user)
      case None =>
        r := Err(ServerError);
      case Some(t) =>
        if UniqueEmails(users) {
          AppendAbsentEmailKeepsUnique(users, Doc(OidKey(newId), user));
        }
        users := t;
        r := Ok(Inserted(OidKey(newId)));
    }

    /** `PATCH /users/admin/:id`: behind both guards, give role "admin" to the user whose `_id`
        is the ObjectId of `id`. */
    method PromoteUser(authorization: Option<string>, verify: string -> Option<Claims>, id: string)
      returns (r: Result<UpdateReply>)
      requires Valid()
      modifies this
      ensures Valid() && menu == old(menu) && carts == old(carts)
      ensures AdminGate(authorization, verify, old(users)).Fail? ==>
                r == Err(AdminGate(authorization, verify, old(users)).failure) && users == old(users)
      ensures AdminGate(authorization, verify, old(users)) == Pass && OidQuery(id).None? ==>
                r == Err(ServerError) && users == old(users)
      ensures AdminGate(authorization, verify, old(users)) == Pass && OidQuery(id).Some? ==>
                users == UpdateFirst(old(users), OidQuery(id).value, Promoted)
                && r == Ok(UpdateOutcome(old(users), OidQuery(id).value, Promoted))
      ensures UniqueEmails(old(users)) ==> UniqueEmails(users)
    {
      var gate := AdminGate(authorization, verify, users);
      if gate.Fail? {
        return Err(gate.failure);
      }
      var q := OidQuery(id);
      if q.None? {
        return Err(ServerError);
      }
      r := Ok(UpdateOutcome(users, q.value, Promoted));
      UpdateFirstPreservesUniqueIds(users, q.value, Promoted);
      if UniqueEmails(users) {
        UpdateKeepingEmailsKeepsUnique(users, q.value, Promoted);
      }
      users := UpdateFirst(users, q.value, Promoted);
    }

    /** `DELETE /users/:id`: behind both guards, delete the user whose `_id` is the ObjectId of
        `id`. */
    method DeleteUser(authorization: Option<string>, verify: string -> Option<Claims>, id: string)
      returns (r: Result<DeleteReply>)
      requires Valid()
      modifies this
      ensures Valid() && menu == old(menu) && carts == old(carts)
      ensures AdminGate(authorization, verify, old(users)).Fail? ==>
                r == Err(AdminGate(authorization, verify, old(users)).failure) && users == old(users)
      ensures AdminGate(authorization, verify, old(users)) == Pass && OidQuery(id).None? ==>
                r == Err(ServerError) && users == old(users)
      ensures AdminGate(authorization, verify, old(users)) == Pass && OidQuery(id).Some? ==>
                users == DeleteFirst(old(users), OidQuery(id).value)
                && r == Ok(DeleteOutcome(old(users), OidQuery(id).value))
      ensures UniqueEmails(old(users)) ==> UniqueEmails(users)
    {
      var gate := AdminGate(authorization, verify, users);
      if gate.Fail? {
        return Err(gate.failure);
      }
      var q := OidQuery(id);
      if q.None? {
        return Err(ServerError);
      }
      r := Ok(DeleteOutcome(users, q.value));
      DeleteFirstPreservesUniqueIds(users, q.value);
      if UniqueEmails(users) {
        DeleteFirstKeepsUniqueEmails(users, q.value);
      }
      users := DeleteFirst(users, q.value);
    }

    /** `GET /menu/:id`: the first item the dual-key filter selects, or null. */
    method GetMenuItem(id: string) returns (r: Option<Doc<MenuBody>>)
      ensures r.Some? ==> r.value in menu && Matches(id, r.value.id)
      ensures r.None? <==> forall i :: 0 <= i < |menu| ==> !Matches(id, menu[i].id)
      ensures FirstMatch(menu, MenuQuery(id)).Some? ==> r == Some(menu[FirstMatch(menu, MenuQuery(id)).value])
    {
      var found := FirstMatch(menu, MenuQuery(id));
      if found.None? {
        return None;
      }
      return Some(menu[found.value]);
    }

    /** `POST /menu`: behind both guards, insert the item. */
    method PostMenuItem(authorization: Option<string>, verify: string -> Option<Claims>, item: MenuBody, newId: Oid)
      returns (r: Result<InsertReply>)
      requires Valid()
      modifies this
      ensures Valid() && users == old(users) && carts == old(carts)
      ensures AdminGate(authorization, verify, users).Fail? ==>
                r == Err(AdminGate(authorization, verify, users).failure) && menu == old(menu)
      ensures AdminGate(authorization, verify, users) == Pass && HasKey(old(menu), OidKey(newId)) ==>
                r == Err(ServerError) && menu == old(menu)
      ensures AdminGate(authorization, verify, users) == Pass && !HasKey(old(menu), OidKey(newId)) ==>
                r == Ok(Inserted(OidKey(newId))) && menu == old(menu) + [Doc(OidKey(newId), item)]
    {
      var gate := AdminGate(authorization, verify, users);
      if gate.Fail? {
        return Err(gate.failure);
      }
      match InsertOne(menu, OidKey(newId), item)
      case None =>
        r := Err(ServerError);
      case Some(t) =>
        menu := t;
        r := Ok(Inserted(OidKey(newId)));
    }

    /** `PATCH /menu/:id`: behind both guards, set the five fields of the first item the
        dual-key filter selects. */
    method PatchMenuItem(authorization: Option<string>, verify: string -> Option<Claims>, id: string, patch: MenuPatch)
      returns (r: Result<UpdateReply>)
      requires Valid()
      modifies this
      ensures Valid() && users == old(users) && carts == old(carts)
      ensures AdminGate(authorization, verify, users).Fail? ==>
                r == Err(AdminGate(authorization, verify, users).failure) && menu == old(menu)
      ensures AdminGate(authorization, verify, users) == Pass ==>
                menu == UpdateFirst(old(menu), MenuQuery(id), PatchWith(patch))
                && r == Ok(UpdateOutcome(old(menu), MenuQuery(id), PatchWith(patch)))
    {
      var gate := AdminGate(authorization, verify, users);
      if gate.Fail? {
        return Err(gate.failure);
      }
      var q := MenuQuery(id);
      r := Ok(UpdateOutcome(menu, q, PatchWith(patch)));
      UpdateFirstPreservesUniqueIds(menu, q, PatchWith(patch));
      menu := UpdateFirst(menu, q, PatchWith(patch));
    }

    /** `DELETE /menu/:id`: behind both guards, delete the first item whose `_id` is the
        ObjectId of `id`; no dual-key matching here. */
    method DeleteMenuItem(authorization: Option<string>, verify: string -> Option<Claims>, id: string)
      returns (r: Result<DeleteReply>)
      requires Valid()
      modifies this
      ensures Valid() && users == old(users) && carts == old(carts)
      ensures AdminGate(authorization, verify, users).Fail? ==>
                r == Err(AdminGate(authorization, verify, users).failure) && menu == old(menu)
      ensures AdminGate(authorization, verify, users) == Pass && OidQuery(id).None? ==>
                r == Err(ServerError) && menu == old(menu)
      ensures AdminGate(authorization, verify, users) == Pass && OidQuery(id).Some? ==>
                menu == DeleteFirst(old(menu), OidQuery(id).value)
                && r == Ok(DeleteOutcome(old(menu), OidQuery(id).value))
    {
      var gate := AdminGate(authorization, verify, users);
      if gate.Fail? {
        return Err(gate.failure);
      }
      var q := OidQuery(id);
      if q.None? {
        return Err(ServerError);
      }
      r := Ok(DeleteOutcome(menu, q.value));
      DeleteFirstPreservesUniqueIds(menu, q.value);
      menu := DeleteFirst(menu, q.value);
    }

    /** `GET /carts?email=`: the carts of that email. */
    method GetCarts(email: string) returns (r: seq<Doc<CartBody>>)
      ensures forall d :: d in r <==> d in carts && d.body.email == email
      ensures r == CartsOf(carts, email)
    {
      r := CartsOf(carts, email);
    }

    /** `POST /carts`: insert the cart entry. */
    method PostCart(cart: CartBody, newId: Oid) returns (r: Result<InsertReply>)
      requires Valid()
      modifies this
      ensures Valid() && users == old(users) && menu == old(menu)
      ensures HasKey(old(carts), OidKey(newId)) ==> r == Err(ServerError) && carts == old(carts)
      ensures !HasKey(old(carts), OidKey(newId)) ==>
                r == Ok(Inserted(OidKey(newId))) && carts == old(carts) + [Doc(OidKey(newId), cart)]
    {
      match InsertOne(carts, OidKey(newId), cart)
      case None =>
        r := Err(ServerError);
      case Some(t) =>
        carts := t;
        r := Ok(Inserted(OidKey(newId)));
    }

    /** `DELETE /carts/:id`: delete the cart entry whose `_id` is the ObjectId of `id`. */
    method DeleteCart(id: string) returns (r: Result<DeleteReply>)
      requires Valid()
      modifies this
      ensures Valid() && users == old(users) && menu == old(menu)
      ensures OidQuery(id).None? ==> r == Err(ServerError) && carts == old(carts)
      ensures OidQuery(id).Some? ==>
                carts == DeleteFirst(old(carts), OidQuery(id).value)
                && r == Ok(DeleteOutcome(old(carts), OidQuery(id).value))
    {
      var q := OidQuery(id);
      if q.None? {
        return Err(ServerError);
      }
      r := Ok(DeleteOutcome(carts, q.value));
      DeleteFirstPreservesUniqueIds(carts, q.value);
      carts := DeleteFirst(carts, q.value);
    }
  }

  /** `DELETE /carts/:id` sent twice: the second reply deletes nothing and the carts stay as
      the first delete left them. */
  method RepeatedCartDelete(db: BistroDb, id: string) returns (first: Result<DeleteReply>, second: Result<DeleteReply>)
    requires db.Valid()
    modifies db
    ensures db.Valid() && db.users == old(db.users) && db.menu == old(db.menu)
    ensures OidQuery(id).None? ==> first == second == Err(ServerError) && db.carts == old(db.carts)
    ensures OidQuery(id).Some? ==>
              second == Ok(DeleteReply(0)) && db.carts == DeleteFirst(old(db.carts), OidQuery(id).value)
  {
    first := db.DeleteCart(id);
    if OidQuery(id).Some? {
      DeleteFirstIdempotent(old(db.carts), OidKey(ParseOid(id).value));
    }
    second := db.DeleteCart(id);
  }

  /** `POST /users` sent twice with one body: the second reply is the "User already exist"
      reply and the users stay as the first post left them. */
  method RepeatedUserPost(db: BistroDb, user: UserBody, id1: Oid, id2: Oid)
    returns (first: Result<InsertReply>, second: Result<InsertReply>)
    requires db.Valid()
    modifies db
    ensures db.Valid() && db.menu == old(db.menu) && db.carts == old(db.carts)
    ensures first.Ok? ==> second == Ok(AlreadyExists)
    ensures first == Ok(Inserted(OidKey(id1))) ==> db.users == old(db.users) + [Doc(OidKey(id1), user)]
    ensures first == Ok(AlreadyExists) ==> db.users == old(db.users)
    ensures |db.users| <= |old(db.users)| + 1
  {
    first := db.PostUser(user, id1);
    if first == Ok(Inserted(OidKey(id1))) {
      assert db.users[|db.users| - 1].body.email == user.email;
    }
    second := db.PostUser(user, id2);
  }

  /** Promoting the user stored under `_id` k makes that user an admin for both guards, and
      changes the admin decision for no other email. */
  lemma PromoteGrantsAdmin(users: seq<Doc<UserBody>>, i: nat, email: string)
    requires UniqueIds(users) && UniqueEmails(users) && i < |users|
    ensures AdminFlag(UpdateFirst(users, IdIs(users[i].id), Promoted), users[i].body.email)
    ensures email != users[i].body.email ==>
              AdminFlag(UpdateFirst(users, IdIs(users[i].id), Promoted), email) == AdminFlag(users, email)
  {
    var q := IdIs(users[i].id);
    var r := UpdateFirst(users, q, Promoted);
    FirstMatchUnique(users, i);
    UpdateKeepingEmailsKeepsUnique(users, q, Promoted);
    assert r[i].body == Promoted(users[i].body);
    FirstWithEmailUnique(r, i);
    if email != users[i].body.email {
      assert forall j :: 0 <= j < |users| && j != i ==> r[j] == users[j];
      match FirstWithEmail(users, email)
      case None =>
      case Some(j) =>
        FirstWithEmailUnique(users, j);
        FirstWithEmailUnique(r, j);
    }
  }

  /** `POST /users` is not behind any guard, and the body's `role` is stored as sent: a body
      with a fresh email and role "admin", followed by a token for that email, passes both
      guards of every admin route. */
  lemma SelfRegisteredAdminPasses(users: seq<Doc<UserBody>>, body: UserBody, newId: Oid, t: string,
                                  verify: string -> Option<Claims>)
    requires FirstWithEmail(users, body.email).None? && IsAdminRecord(body)
    requires t != [] && !Contains(t, Prefix)
    requires verify(t).Some? && verify(t).value.email == body.email
    ensures AdminGate(Some(Prefix + t), verify, users + [Doc(OidKey(newId), body)]) == Pass
  {
    BearerHeaderVerifiesToken(t, verify);
    var after := users + [Doc(OidKey(newId), body)];
    assert after[|users|].body.email == body.email;
  }

  /** `PATCH /menu/:id` sets the five fields of at most one item, the first the dual-key
      filter selects; every `_id` and every other field, and every other item, is unchanged. */
  lemma PatchTouchesOnlyFiveFields(menu: seq<Doc<MenuBody>>, id: string, p: MenuPatch, i: nat)
    requires i < |menu|
    ensures |UpdateFirst(menu, MenuQuery(id), PatchWith(p))| == |menu|
    ensures UpdateFirst(menu, MenuQuery(id), PatchWith(p))[i].id == menu[i].id
    ensures UpdateFirst(menu, MenuQuery(id), PatchWith(p))[i].body.rest == menu[i].body.rest
    ensures FirstMatch(menu, MenuQuery(id)) != Some(i) ==> UpdateFirst(menu, MenuQuery(id), PatchWith(p))[i] == menu[i]
    ensures FirstMatch(menu, MenuQuery(id)) == Some(i) ==>
              Matches(id, menu[i].id) &&
              var b := UpdateFirst(menu, MenuQuery(id), PatchWith(p))[i].body;
              b.name == Stored(p.name) && b.category == Stored(p.category) && b.price == Stored(p.price)
              && b.recipe == Stored(p.recipe) && b.image == Stored(p.image)
  {
    var r := UpdateFirst(menu, MenuQuery(id), PatchWith(p));
    if r[i] != menu[i] {
      assert r[i].body == PatchWith(p)(menu[i].body);
    }
  }

  /** A patch whose body leaves out a field that the selected item does not have either still
      writes that field, as `null`: the item changes and the reply reports one modification. */
  lemma OmittedFieldStoredAsNull(menu: seq<Doc<MenuBody>>, id: string, p: MenuPatch)
    requires FirstMatch(menu, MenuQuery(id)).Some?
    requires menu[FirstMatch(menu, MenuQuery(id)).value].body.image.None? && p.image.None?
    ensures UpdateFirst(menu, MenuQuery(id), PatchWith(p))[FirstMatch(menu, MenuQuery(id)).value].body.image == Some(JNull)
    ensures UpdateOutcome(menu, MenuQuery(id), PatchWith(p)) == UpdateReply(1, 1)
  {
    var k := FirstMatch(menu, MenuQuery(id)).value;
    var r := UpdateFirst(menu, MenuQuery(id), PatchWith(p));
    assert r[k].body == PatchWith(p)(menu[k].body);
    assert r[k] != menu[k];
  }

  /** Repeating a menu patch changes nothing more and reports no modification. */
  lemma PatchIdempotent(menu: seq<Doc<MenuBody>>, id: string, p: MenuPatch)
    ensures UpdateFirst(UpdateFirst(menu, MenuQuery(id), PatchWith(p)), MenuQuery(id), PatchWith(p))
            == UpdateFirst(menu, MenuQuery(id), PatchWith(p))
    ensures UpdateOutcome(UpdateFirst(menu, MenuQuery(id), PatchWith(p)), MenuQuery(id), PatchWith(p)).modifiedCount == 0
  {
    UpdateFirstTwice(menu, MenuQuery(id), PatchWith(p));
  }

  /** A menu item stored under an ObjectId is found, patched and deleted through the
      canonical text of that ObjectId. When a legacy item keyed by the same text also exists,
      the dual-key filter selects both, and which one it acts on is the model's first-match
      assumption rather than anything MongoDB promises. */
  lemma NativeItemReachableByCanonicalId(menu: seq<Doc<MenuBody>>, i: nat)
    requires UniqueIds(menu) && i < |menu| && menu[i].id.OidKey?
    ensures FirstMatch(menu, MenuQuery(OidHex(menu[i].id.oid))).Some?
    ensures !HasKey(menu, StrKey(OidHex(menu[i].id.oid))) ==> FirstMatch(menu, MenuQuery(OidHex(menu[i].id.oid))) == Some(i)
    ensures OidQuery(OidHex(menu[i].id.oid)) == Some(IdIs(menu[i].id))
    ensures FirstMatch(menu, OidQuery(OidHex(menu[i].id.oid)).value) == Some(i)
  {
    var o := menu[i].id.oid;
    CanonicalIdMatchesBothForms(o);
    ParseCanonical(o);
    FirstMatchUnique(menu, i);
  }

  /** A string-keyed item is never removed by `DELETE /menu/:id`, whatever the id. */
  lemma StringKeyedItemSurvivesMenuDelete(menu: seq<Doc<MenuBody>>, id: string, d: Doc<MenuBody>)
    requires d in menu && d.id.StrKey? && OidQuery(id).Some?
    ensures d in DeleteFirst(menu, OidQuery(id).value)
  {
    DeleteFirstKeepsUnselected(menu, OidQuery(id).value, d);
  }

  /** After `DELETE /carts/:id`, `GET /carts` lists that entry for no email, and a repeated
      delete removes nothing more. */
  lemma DeletedCartNotListed(carts: seq<Doc<CartBody>>, id: string, email: string)
    requires UniqueIds(carts) && OidQuery(id).Some?
    ensures forall d :: d in CartsOf(DeleteFirst(carts, OidQuery(id).value), email) ==> d.id != OidKey(ParseOid(id).value)
    ensures DeleteFirst(DeleteFirst(carts, OidQuery(id).value), OidQuery(id).value) == DeleteFirst(carts, OidQuery(id).value)
    ensures DeleteOutcome(DeleteFirst(carts, OidQuery(id).value), OidQuery(id).value).deletedCount == 0
  {
    var k := OidKey(ParseOid(id).value);
    assert OidQuery(id).value == IdIs(k);
    DeleteFirstIdempotent(carts, k);
    var r := DeleteFirst(carts, IdIs(k));
    forall d | d in CartsOf(r, email) ensures d.id != k {
      var j :| 0 <= j < |r| && r[j] == d;
    }
  }
}
