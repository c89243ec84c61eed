/** The request guards: `verifyToken` (index.js:43-58), `verifyAdmin` (index.js:61-70) and the
    self-only check and admin flag of `GET /users/admin/:email` (index.js:78-92).
    Signature and expiry checking belongs to the JWT library and enters as the oracle
    `verify`, which yields the decoded claims or None. */
module Guards {
  import opened Common
  import opened Bearer
  import opened Tables

  /** A decoded token: the email it was signed for and whatever else its payload carries
      (a `role` claim among them, which no guard reads). */
  datatype Claims = Claims(email: string, other: map<string, Json>)

  /** `verifyToken`. An absent header makes `split` throw; a header without a non-empty
      bearer piece, or a token the library rejects, is a 401; otherwise the claims go on. */
  function VerifyToken(authorization: Option<string>, verify: string -> Option<Claims>): (r: Result<Claims>)
    ensures authorization.None? <==> r == Err(ServerError)
    ensures r.Ok? ==>
              BearerToken(authorization.value).Some? && verify(BearerToken(authorization.value).value) == Some(r.value)
    ensures authorization.Some? && BearerToken(authorization.value).None? ==> r == Err(Unauthorized)
    ensures authorization.Some? && BearerToken(authorization.value).Some? ==>
              r == match verify(BearerToken(authorization.value).value)
                   case None => Err(Unauthorized)
                   case Some(c) => Ok(c)
    ensures r.Err? ==> r.failure != Forbidden
  {
    match authorization
    case None => Err(ServerError)
    case Some(header) =>
      match BearerToken(header)
      case None => Err(Unauthorized)
      case Some(token) =>
        match verify(token)
        case None => Err(Unauthorized)
        case Some(claims) => Ok(claims)
  }

  const AdminRole: Json := JStr("admin")

  /** `user.role === "admin"`. */
  predicate IsAdminRecord(u: UserBody) {
    u.role == AdminRole
  }

  /** `verifyAdmin`: the stored user found by the token's email decides. No user makes
      `user.role` throw; a user whose role is not "admin" is refused. */
  function VerifyAdmin(claims: Claims, users: seq<Doc<UserBody>>): (r: Gate)
    ensures r == Fail(ServerError) <==> forall i :: 0 <= i < |users| ==> users[i].body.email != claims.email
    ensures r == Pass ==> exists i :: 0 <= i < |users| && users[i].body.email == claims.email
                                      && IsAdminRecord(users[i].body)
    ensures r == Pass || r == Fail(Forbidden) || r == Fail(ServerError)
  {
    match FirstWithEmail(users, claims.email)
    case None => Fail(ServerError)
    case Some(i) => if IsAdminRecord(users[i].body) then Pass else Fail(Forbidden)
  }

  /** The `admin` flag of `GET /users/admin/:email`: false without a user, else whether the
      first user with that email has role "admin". */
  function AdminFlag(users: seq<Doc<UserBody>>, email: string): (b: bool)
    ensures b ==> exists i :: 0 <= i < |users| && users[i].body.email == email && IsAdminRecord(users[i].body)
  {
    match FirstWithEmail(users, email)
    case None => false
    case Some(i) => IsAdminRecord(users[i].body)
  }

  /** The self-only check: a path email other than the token's email is a 401. */
  function SelfOnly(pathEmail: string, claims: Claims): (r: Gate)
    ensures r == Pass <==> pathEmail == claims.email
    ensures r != Pass ==> r == Fail(Unauthorized)
  {
    if pathEmail != claims.email then Fail(Unauthorized) else Pass
  }

  /** `verifyToken` followed by `verifyAdmin`, the chain in front of every admin route. */
  function AdminGate(authorization: Option<string>, verify: string -> Option<Claims>,
                     users: seq<Doc<UserBody>>): (r: Gate)
    ensures r == Pass <==>
              VerifyToken(authorization, verify).Ok? && VerifyAdmin(VerifyToken(authorization, verify).value, users) == Pass
    ensures VerifyToken(authorization, verify).Err? ==> r == Fail(VerifyToken(authorization, verify).failure)
    ensures VerifyToken(authorization, verify).Ok? ==> r == VerifyAdmin(VerifyToken(authorization, verify).value, users)
  {
    match VerifyToken(authorization, verify)
    case Err(f) => Fail(f)
    case Ok(claims) => VerifyAdmin(claims, users)
  }

  /** A header `"Bearer " + t` hands exactly `t` to the token library. */
  lemma BearerHeaderVerifiesToken(t: string, verify: string -> Option<Claims>)
    requires t != [] && !Contains(t, Prefix)
    ensures VerifyToken(Some(Prefix + t), verify) == match verify(t)
                                                     case None => Err(Unauthorized)
                                                     case Some(c) => Ok(c)
  {
    PrefixedHeaderYieldsToken(t);
  }

  /** A header without `"Bearer "` is a 401 whatever the token library would say: no
      verification takes place. */
  lemma NoBearerNoVerification(header: string, v1: string -> Option<Claims>, v2: string -> Option<Claims>)
    requires !Contains(header, Prefix)
    ensures VerifyToken(Some(header), v1) == VerifyToken(Some(header), v2) == Err(Unauthorized)
  {
  }

  /** The admin decision ignores every claim but the email: a forged `role` claim changes
      nothing. */
  lemma AdminDecisionIgnoresClaims(c1: Claims, c2: Claims, users: seq<Doc<UserBody>>)
    requires c1.email == c2.email
    ensures VerifyAdmin(c1, users) == VerifyAdmin(c2, users)
  {
  }

  /** `verifyAdmin` and the admin flag compute the same decision; they differ only for a
      missing user, where the flag is false and `verifyAdmin` throws. */
  lemma VerifyAdminAgreesWithFlag(claims: Claims, users: seq<Doc<UserBody>>)
    ensures VerifyAdmin(claims, users) == Pass <==> AdminFlag(users, claims.email)
    ensures VerifyAdmin(claims, users) == Fail(Forbidden) <==>
              FirstWithEmail(users, claims.email).Some? && !AdminFlag(users, claims.email)
  {
  }

  /** With unique emails, `verifyAdmin` passes exactly for the user stored under the token's
      email whose role is "admin", and refuses any other stored user. */
  lemma VerifyAdminByRecord(claims: Claims, users: seq<Doc<UserBody>>, i: nat)
    requires UniqueEmails(users) && i < |users| && users[i].body.email == claims.email
    ensures VerifyAdmin(claims, users) == if IsAdminRecord(users[i].body) then Pass else Fail(Forbidden)
  {
    FirstWithEmailUnique(users, i);
  }

  /** With unique emails, the admin flag is true iff a user with that email exists and has
      role "admin". */
  lemma AdminFlagIff(users: seq<Doc<UserBody>>, email: string)
    requires UniqueEmails(users)
    ensures AdminFlag(users, email) <==>
              exists i :: 0 <= i < |users| && users[i].body.email == email && IsAdminRecord(users[i].body)
  {
    if i :| 0 <= i < |users| && users[i].body.email == email && IsAdminRecord(users[i].body) {
      FirstWithEmailUnique(users, i);
    }
  }
}
