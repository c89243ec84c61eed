/** The `users`, `menu` and `carts` collections as sequences of documents, and the table
    operations that `findOne`, `find`, `updateOne` and `deleteOne` perform. MongoDB leaves
    unspecified which document a single-document call picks when several match; the model
    fixes that choice as the first match in sequence order, an assumption rather than a
    guarantee of the driver. */
module Tables {
  import opened Common
  import opened ObjectIds

  datatype Doc<T> = Doc(id: Key, body: T)

  /** A user record: the email it is looked up by, its `role` (JNull when the record has
      none) and the remaining fields of the body it was inserted with. */
  datatype UserBody = UserBody(email: string, role: Json, rest: map<string, Json>)

  /** A menu item: the five fields `PATCH /menu/:id` sets (None where the stored item has no
      such field at all), and the others it keeps. */
  datatype MenuBody = MenuBody(name: Option<Json>, category: Option<Json>, price: Option<Json>,
                               recipe: Option<Json>, image: Option<Json>, rest: map<string, Json>)

  /** A cart entry: the owner's email and the other fields of the posted body. */
  datatype CartBody = CartBody(email: string, rest: map<string, Json>)

  /** The `matchedCount` and `modifiedCount` of an `updateOne` reply. */
  datatype UpdateReply = UpdateReply(matchedCount: nat, modifiedCount: nat)

  /** The `deletedCount` of a `deleteOne` reply. */
  datatype DeleteReply = DeleteReply(deletedCount: nat)

  /** The store's unique index on `_id`. */
  predicate UniqueIds<T>(s: seq<Doc<T>>) {
    forall i, j :: 0 <= i < j < |s| ==> s[i].id != s[j].id
  }

  predicate HasKey<T>(s: seq<Doc<T>>, k: Key) {
    exists i :: 0 <= i < |s| && s[i].id == k
  }

  /** No two users share an email: what `POST /users` keeps when it is the only writer. */
  predicate UniqueEmails(users: seq<Doc<UserBody>>) {
    forall i, j :: 0 <= i < j < |users| ==> users[i].body.email != users[j].body.email
  }

  /** The index of the first document the filter selects. */
  function FirstMatch<T>(s: seq<Doc<T>>, q: IdQuery): (r: Option<nat>)
    ensures r.Some? ==> r.value < |s| && Selects(q, s[r.value].id)
    ensures r.Some? ==> forall j :: 0 <= j < r.value ==> !Selects(q, s[j].id)
    ensures r.None? ==> forall j :: 0 <= j < |s| ==> !Selects(q, s[j].id)
  {
    if s == [] then None
    else if Selects(q, s[0].id) then Some(0)
    else match FirstMatch(s[1..], q)
      case None => None
      case Some(k) => Some(k + 1)
  }

  /** The index of the first user with the given email: `findOne({ email })`. */
  function FirstWithEmail(users: seq<Doc<UserBody>>, email: string): (r: Option<nat>)
    ensures r.Some? ==> r.value < |users| && users[r.value].body.email == email
    ensures r.Some? ==> forall j :: 0 <= j < r.value ==> users[j].body.email != email
    ensures r.None? ==> forall j :: 0 <= j < |users| ==> users[j].body.email != email
  {
    if users == [] then None
    else if users[0].body.email == email then Some(0)
    else match FirstWithEmail(users[1..], email)
      case None => None
      case Some(k) => Some(k + 1)
  }

  /** `insertOne`: the document is appended under key `k`; a `k` already in use is the
      duplicate-key error of the unique `_id` index (None), and nothing is written. */
  function InsertOne<T>(s: seq<Doc<T>>, k: Key, body: T): (r: Option<seq<Doc<T>>>)
    ensures r.None? <==> HasKey(s, k)
    ensures r.Some? ==> r.value == s + [Doc(k, body)]
    ensures r.Some? && UniqueIds(s) ==> UniqueIds(r.value)
  {
    if HasKey(s, k) then None else Some(s + [Doc(k, body)])
  }

  /** `deleteOne(q)`: the first selected document is removed and nothing else. */
  function DeleteFirst<T>(s: seq<Doc<T>>, q: IdQuery): (r: seq<Doc<T>>)
    ensures FirstMatch(s, q).None? ==> r == s
    ensures FirstMatch(s, q).Some? ==>
              |r| == |s| - 1 && multiset(r) + multiset{s[FirstMatch(s, q).value]} == multiset(s)
  {
    match FirstMatch(s, q)
    case None => s
    case Some(k) =>
      assert s == s[..k] + [s[k]] + s[k + 1..];
      s[..k] + s[k + 1..]
  }

  function DeleteOutcome<T>(s: seq<Doc<T>>, q: IdQuery): (r: DeleteReply)
    ensures r.deletedCount == |s| - |DeleteFirst(s, q)|
  {
    DeleteReply(if FirstMatch(s, q).Some? then 1 else 0)
  }

  /** `updateOne(q, update)`: the first selected document gets the body `f` makes of it;
      every document keeps its `_id`, and every other document is unchanged. */
  function UpdateFirst<T>(s: seq<Doc<T>>, q: IdQuery, f: T -> T): (r: seq<Doc<T>>)
    ensures |r| == |s|
    ensures forall i :: 0 <= i < |s| ==> r[i].id == s[i].id
    ensures forall i :: 0 <= i < |s| && r[i] != s[i] ==> FirstMatch(s, q) == Some(i)
    ensures FirstMatch(s, q).Some? ==> r[FirstMatch(s, q).value].body == f(s[FirstMatch(s, q).value].body)
  {
    match FirstMatch(s, q)
    case None => s
    case Some(k) => s[k := Doc(s[k].id, f(s[k].body))]
  }

  /** The counts `updateOne` reports: one match at most, modified only if the body changed. */
  function UpdateOutcome<T(==)>(s: seq<Doc<T>>, q: IdQuery, f: T -> T): (r: UpdateReply)
    ensures r.matchedCount <= 1 && r.modifiedCount <= r.matchedCount
    ensures r.matchedCount == 1 <==> FirstMatch(s, q).Some?
    ensures r.modifiedCount == 1 <==> UpdateFirst(s, q, f) != s
  {
    match FirstMatch(s, q)
    case None => UpdateReply(0, 0)
    case Some(k) =>
      assert UpdateFirst(s, q, f)[k] != s[k] <==> f(s[k].body) != s[k].body;
      UpdateReply(1, if f(s[k].body) == s[k].body then 0 else 1)
  }

  /** `find({ email })` on the carts: the carts of one owner, in order. */
  function CartsOf(carts: seq<Doc<CartBody>>, email: string): (r: seq<Doc<CartBody>>)
    ensures forall d :: multiset(r)[d] == if d.body.email == email then multiset(carts)[d] else 0
    ensures forall d :: d in r <==> d in carts && d.body.email == email
  {
    if carts == [] then []
    else
      assert carts == [carts[0]] + carts[1..];
      (if carts[0].body.email == email then [carts[0]] else []) + CartsOf(carts[1..], email)
  }

  /** The filter result depends on the documents' ids only. */
  lemma {:induction false} FirstMatchSameIds<T, U>(s: seq<Doc<T>>, t: seq<Doc<U>>, q: IdQuery)
    requires |s| == |t| && forall i :: 0 <= i < |s| ==> s[i].id == t[i].id
    ensures FirstMatch(s, q) == FirstMatch(t, q)
  {
    if s != [] {
      FirstMatchSameIds(s[1..], t[1..], q);
    }
  }

  /** Under unique ids an `_id` filter selects the one document carrying that id. */
  lemma FirstMatchUnique<T>(s: seq<Doc<T>>, i: nat)
    requires UniqueIds(s) && i < |s|
    ensures FirstMatch(s, IdIs(s[i].id)) == Some(i)
  {
  }

  lemma FirstWithEmailUnique(users: seq<Doc<UserBody>>, i: nat)
    requires UniqueEmails(users) && i < |users|
    ensures FirstWithEmail(users, users[i].body.email) == Some(i)
  {
  }

  /** Deleting by `_id` under unique ids leaves no document with that id, so a second
      delete with the same id removes nothing and reports zero. */
  lemma DeleteFirstIdempotent<T>(s: seq<Doc<T>>, k: Key)
    requires UniqueIds(s)
    ensures FirstMatch(DeleteFirst(s, IdIs(k)), IdIs(k)).None?
    ensures DeleteFirst(DeleteFirst(s, IdIs(k)), IdIs(k)) == DeleteFirst(s, IdIs(k))
    ensures DeleteOutcome(DeleteFirst(s, IdIs(k)), IdIs(k)).deletedCount == 0
  {
    var r := DeleteFirst(s, IdIs(k));
    if FirstMatch(s, IdIs(k)).Some? {
      var m := FirstMatch(s, IdIs(k)).value;
      assert r == s[..m] + s[m + 1..];
      forall j | 0 <= j < |r| ensures r[j].id != k {
        if j < m { assert r[j] == s[j]; } else { assert r[j] == s[j + 1]; }
      }
    }
  }

  /** A document the filter does not select survives the delete. */
  lemma DeleteFirstKeepsUnselected<T>(s: seq<Doc<T>>, q: IdQuery, d: Doc<T>)
    requires d in s && !Selects(q, d.id)
    ensures d in DeleteFirst(s, q)
  {
    if FirstMatch(s, q).Some? {
      var m := FirstMatch(s, q).value;
      assert s[m] != d;
      assert multiset(s)[d] > 0;
    }
  }

  lemma DeleteFirstPreservesUniqueIds<T>(s: seq<Doc<T>>, q: IdQuery)
    requires UniqueIds(s)
    ensures UniqueIds(DeleteFirst(s, q))
  {
    if FirstMatch(s, q).Some? {
      var m := FirstMatch(s, q).value;
      var r := DeleteFirst(s, q);
      assert r == s[..m] + s[m + 1..];
      forall i, j | 0 <= i < j < |r| ensures r[i].id != r[j].id {
        var i' := if i < m then i else i + 1;
        var j' := if j < m then j else j + 1;
        assert r[i] == s[i'] && r[j] == s[j'];
      }
    }
  }

  /** Applying an idempotent update twice is applying it once; the second call modifies
      nothing. */
  lemma UpdateFirstTwice<T>(s: seq<Doc<T>>, q: IdQuery, f: T -> T)
    requires forall b :: f(f(b)) == f(b)
    ensures UpdateFirst(UpdateFirst(s, q, f), q, f) == UpdateFirst(s, q, f)
    ensures UpdateOutcome(UpdateFirst(s, q, f), q, f).modifiedCount == 0
  {
    var r := UpdateFirst(s, q, f);
    FirstMatchSameIds(s, r, q);
    if FirstMatch(s, q).Some? {
      var k := FirstMatch(s, q).value;
      assert UpdateFirst(r, q, f) == r[k := Doc(r[k].id, f(r[k].body))];
      assert r[k] == Doc(s[k].id, f(s[k].body));
    }
  }

  lemma UpdateFirstPreservesUniqueIds<T>(s: seq<Doc<T>>, q: IdQuery, f: T -> T)
    requires UniqueIds(s)
    ensures UniqueIds(UpdateFirst(s, q, f))
  {
  }

  /** Appending a user whose email is absent keeps emails unique. */
  lemma AppendAbsentEmailKeepsUnique(users: seq<Doc<UserBody>>, d: Doc<UserBody>)
    requires UniqueEmails(users) && FirstWithEmail(users, d.body.email).None?
    ensures UniqueEmails(users + [d])
  {
  }

  /** An update that leaves every email alone keeps emails unique. */
  lemma UpdateKeepingEmailsKeepsUnique(users: seq<Doc<UserBody>>, q: IdQuery, f: UserBody -> UserBody)
    requires UniqueEmails(users) && forall b :: f(b).email == b.email
    ensures UniqueEmails(UpdateFirst(users, q, f))
  {
    var r := UpdateFirst(users, q, f);
    assert forall i :: 0 <= i < |users| ==> r[i].body.email == users[i].body.email by {
      forall i | 0 <= i < |users| ensures r[i].body.email == users[i].body.email {
        if r[i] != users[i] { assert r[i].body == f(users[i].body); }
      }
    }
  }

  /** Deleting a user keeps emails unique. */
  lemma DeleteFirstKeepsUniqueEmails(users: seq<Doc<UserBody>>, q: IdQuery)
    requires UniqueEmails(users)
    ensures UniqueEmails(DeleteFirst(users, q))
  {
    if FirstMatch(users, q).Some? {
      var m := FirstMatch(users, q).value;
      var r := DeleteFirst(users, q);
      assert r == users[..m] + users[m + 1..];
      forall i, j | 0 <= i < j < |r| ensures r[i].body.email != r[j].body.email {
        var i' := if i < m then i else i + 1;
        var j' := if j < m then j else j + 1;
        assert r[i] == users[i'] && r[j] == users[j'];
      }
    }
  }
}
