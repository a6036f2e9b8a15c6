/**
 * The handlers of `/api/users`: the paginated listing (a pure slice of the collection),
 * activation and deactivation, the profile update with its email-uniqueness check, and the
 * password change. Every handler checks its input first and then changes at most one record.
 */
module UserController {
  import opened Wrappers
  import opened Strings
  import opened Password
  import opened UserModel
  import opened Validators
  import opened Http

  // ---------------------------------------------------------------- schemas

  const UpdateSchema: Schema := [
    KeySpec("fullName", false, [MinLength(3)]),
    KeySpec("email", false, [EmailFormat])
  ]

  const PasswordSchema: Schema := [
    KeySpec("oldPassword", true, []),
    KeySpec("newPassword", true, [MinLength(8)])
  ]

  /** `updateSchema` accepts exactly the bodies with no key but `fullName` and `email`, each
      optional, a present full name of at least three characters and a present email that
      `isEmail` accepts. */
  lemma UpdateAcceptsIff(body: JsonObject, isEmail: string -> bool)
    ensures Accepts(UpdateSchema, body, isEmail)
        <==> && body.Keys <= {"fullName", "email"}
             && ("fullName" in body ==> HasString(body, "fullName") && |StringAt(body, "fullName")| >= 3)
             && ("email" in body ==> HasString(body, "email") && StringAt(body, "email") != ""
                                     && isEmail(StringAt(body, "email")))
  {
    AcceptsIff(UpdateSchema, body, isEmail);
    assert Keys(UpdateSchema) == {"fullName", "email"} by {
      assert UpdateSchema[0].key == "fullName";
      assert UpdateSchema[1].key == "email";
    }
    assert UpdateSchema[0].rules[0] == MinLength(3) && UpdateSchema[1].rules[0] == EmailFormat;
    var k0, k1 := KeyAccepts(UpdateSchema[0], body, isEmail), KeyAccepts(UpdateSchema[1], body, isEmail);
    assert (forall i :: 0 <= i < |UpdateSchema| ==> KeyAccepts(UpdateSchema[i], body, isEmail)) <==> k0 && k1;
  }

  /** `passwordSchema` accepts exactly the bodies with a non-empty `oldPassword`, a
      `newPassword` of at least eight characters, and no other key. */
  lemma PasswordAcceptsIff(body: JsonObject, isEmail: string -> bool)
    ensures Accepts(PasswordSchema, body, isEmail)
        <==> && body.Keys == {"oldPassword", "newPassword"}
             && HasString(body, "oldPassword") && StringAt(body, "oldPassword") != ""
             && HasString(body, "newPassword") && |StringAt(body, "newPassword")| >= 8
  {
    AcceptsIff(PasswordSchema, body, isEmail);
    assert Keys(PasswordSchema) == {"oldPassword", "newPassword"} by {
      assert PasswordSchema[0].key == "oldPassword";
      assert PasswordSchema[1].key == "newPassword";
    }
    assert PasswordSchema[1].rules[0] == MinLength(8);
    var k0, k1 := KeyAccepts(PasswordSchema[0], body, isEmail), KeyAccepts(PasswordSchema[1], body, isEmail);
    assert (forall i :: 0 <= i < |PasswordSchema| ==> KeyAccepts(PasswordSchema[i], body, isEmail)) <==> k0 && k1;
    if k0 && k1 {
      assert {"oldPassword", "newPassword"} <= body.Keys;
    }
  }

  // ---------------------------------------------------------------- listing

  /** `limit`, the page size. */
  const PageSize: nat := 10

  /** `parseInt(req.query.page) || 1`: an absent, non-numeric or zero page is page 1; any
      other parsed value, negative ones included, is kept. */
  function RequestedPage(param: Option<string>): (page: int)
    ensures page != 0
    ensures param.None? ==> page == 1
    ensures param.Some? && ParseInt(param.value).None? ==> page == 1
    ensures param.Some? && ParseInt(param.value) == Some(0) ==> page == 1
    ensures param.Some? && ParseInt(param.value).Some? && ParseInt(param.value).value != 0
            ==> page == ParseInt(param.value).value
  {
    match param
    case None => 1
    case Some(s) =>
      match ParseInt(s)
      case None => 1
      case Some(n) => if n == 0 then 1 else n
  }

  /** The page a client asks for by writing its number is the page it gets. */
  lemma RequestedPageOfNumeral(n: nat)
    ensures RequestedPage(Some(DecimalString(n))) == if n == 0 then 1 else n
    ensures n > 0 ==> RequestedPage(Some("-" + DecimalString(n))) == -(n as int)
  {
    ParseIntDecimal(n);
    ParseIntNegativeDecimal(n);
  }

  /** `Math.ceil(total / limit)`: the fewest pages of `PageSize` that hold `total` records. */
  function Pages(total: nat): (pages: nat)
    ensures pages * PageSize >= total
    ensures pages == 0 || (pages - 1) * PageSize < total
  {
    (total + PageSize - 1) / PageSize
  }

  /** `find({}).select("-password").skip(skip).limit(limit)`: up to `PageSize` records from
      position `skip` on, in collection order, without passwords. */
  function PageSlice(users: seq<UserRecord>, skip: nat): (page: seq<PublicUser>)
    ensures |page| == if skip >= |users| then 0 else if skip + PageSize <= |users| then PageSize else |users| - skip
    ensures forall k :: 0 <= k < |page| ==> skip + k < |users| && page[k] == Public(users[skip + k])
  {
    if skip >= |users| then []
    else
      var end := if skip + PageSize < |users| then skip + PageSize else |users|;
      seq(end - skip, k requires 0 <= k < end - skip => Public(users[skip + k]))
  }

  /** `getAllUsers`. A page below 1 makes `skip` negative, which the database refuses. */
  function GetAllUsers(users: seq<UserRecord>, pageParam: Option<string>): (r: Response)
    ensures r.status == 200 <==> RequestedPage(pageParam) >= 1
    ensures r.status != 200 ==> r == Error(500, Internal(NegativeSkip))
    ensures r.status == 200 ==>
      var skip := (RequestedPage(pageParam) - 1) * PageSize;
      && r.body.UserPage?
      && r.body.total == |users| && r.body.pages == Pages(|users|) && r.body.page == RequestedPage(pageParam)
      && |r.body.users| <= PageSize
      && |r.body.users| == (if skip >= |users| then 0 else if skip + PageSize <= |users| then PageSize else |users| - skip)
      && forall k :: 0 <= k < |r.body.users| ==> skip + k < |users| && r.body.users[k] == Public(users[skip + k])
  {
    var page := RequestedPage(pageParam);
    if page < 1 then Error(500, Internal(NegativeSkip))
    else Response(200, UserPage(PageSlice(users, (page - 1) * PageSize), |users|, page, Pages(|users|)))
  }

  /** Every record is listed on exactly one page: record `i` is entry `i % 10` of page
      `i / 10 + 1`, and that page is among the `pages` reported. */
  lemma RecordOnItsPage(users: seq<UserRecord>, i: nat)
    requires i < |users|
    ensures var r := GetAllUsers(users, Some(DecimalString(i / PageSize + 1)));
      && r.status == 200 && r.body.page == i / PageSize + 1 && r.body.page <= r.body.pages
      && i % PageSize < |r.body.users| && r.body.users[i % PageSize] == Public(users[i])
  {
    RequestedPageOfNumeral(i / PageSize + 1);
    RecordOnRequestedPage(users, i, Some(DecimalString(i / PageSize + 1)));
  }

  /** The same, for any parameter that asks for page `i / PageSize + 1`. */
  lemma RecordOnRequestedPage(users: seq<UserRecord>, i: nat, param: Option<string>)
    requires i < |users| && RequestedPage(param) == i / PageSize + 1
    ensures var r := GetAllUsers(users, param);
      && r.status == 200 && r.body.page == i / PageSize + 1 && r.body.page <= r.body.pages
      && i % PageSize < |r.body.users| && r.body.users[i % PageSize] == Public(users[i])
  {
    var page, offset := i / PageSize + 1, i % PageSize;
    PageOfIndex(|users|, i);
    var skip := (i / PageSize) * PageSize;
    assert (page - 1) * PageSize == skip;
    ListingOfPage(users, param);
    var slice := PageSlice(users, skip);
    assert skip <= i < |users| && offset == i - skip < PageSize;
    assert offset < |slice| && slice[offset] == Public(users[i]);
  }

  /** A page of at least 1 is answered with its slice. */
  lemma ListingOfPage(users: seq<UserRecord>, param: Option<string>)
    requires RequestedPage(param) >= 1
    ensures GetAllUsers(users, param)
            == Response(200, UserPage(PageSlice(users, (RequestedPage(param) - 1) * PageSize), |users|,
                                      RequestedPage(param), Pages(|users|)))
  {
  }

  /** Record `i` sits `i % PageSize` records into page `i / PageSize + 1`, one of the pages. */
  lemma PageOfIndex(total: nat, i: nat)
    requires i < total
    ensures (i / PageSize) * PageSize + i % PageSize == i && i % PageSize < PageSize
    ensures i / PageSize + 1 <= Pages(total)
  {
    assert Pages(total) * PageSize > (i / PageSize) * PageSize;
  }

  /** A page past the last one is an empty list, not an error. */
  lemma PagePastTheEnd(users: seq<UserRecord>, n: nat)
    requires n > Pages(|users|)
    ensures var r := GetAllUsers(users, Some(DecimalString(n)));
      r.status == 200 && r.body.users == [] && r.body.total == |users|
  {
    RequestedPageOfNumeral(n);
  }

  // ---------------------------------------------------------------- activate / deactivate

  /** `req.params.id`: an ObjectId, or a string that cannot be cast to one. */
  datatype IdParam = ObjectId(id: UserId) | Malformed

  const UserNotFound: Response := Error(404, Text("User not found"))

  /** The collection after the record with `id`, if any, gets status `s`. */
  function WithStatus(users: seq<UserRecord>, id: UserId, s: Status): (r: seq<UserRecord>)
    ensures |r| == |users|
    ensures forall k :: 0 <= k < |users| ==>
      r[k] == users[k] || (users[k].id == id && r[k] == users[k].(status := s))
    ensures IndexOfId(users, id).Some? ==> r[IndexOfId(users, id).value].status == s
  {
    match IndexOfId(users, id)
    case None => users
    case Some(i) => users[i := users[i].(status := s)]
  }

  /** Setting a status twice is setting it once. */
  lemma WithStatusIdempotent(users: seq<UserRecord>, id: UserId, s: Status)
    ensures WithStatus(WithStatus(users, id, s), id, s) == WithStatus(users, id, s)
  {
    match IndexOfId(users, id)
    case None =>
    case Some(i) =>
      IndexOfIdKeptByUpdate(users, i, users[i].(status := s), id);
  }

  /** The answer and the collection after setting the status of the record `param` names:
      500 for an id that cannot be cast, 404 for one with no record, else `done` and only that
      record's status changed. */
  ghost predicate StatusSpec(users: seq<UserRecord>, users': seq<UserRecord>, param: IdParam, s: Status,
                             done: string, resp: Response) {
    match param
    case Malformed => resp == Error(500, Internal(CastError)) && users' == users
    case ObjectId(id) =>
      if IndexOfId(users, id).None? then resp == UserNotFound && users' == users
      else resp == Response(200, Acknowledged(done)) && users' == WithStatus(users, id, s)
  }

  /** The shared body of `activateUser` and `deactivateUser`. */
  method ChangeStatus(db: Store, param: IdParam, s: Status, done: string) returns (resp: Response)
    requires db.Valid()
    modifies db`users
    ensures db.Valid()
    ensures StatusSpec(old(db.users), db.users, param, s, done, resp)
  {
    if param.Malformed? {
      resp := Error(500, Internal(CastError));
      return;
    }
    var found := IndexOfId(db.users, param.id);
    if found.None? {
      resp := UserNotFound;
      return;
    }
    var i := found.value;
    var d := Load(db.users[i]).(status := s);
    LoadedRecordSaves(db.users, db.nextId, i, d);
    var err := db.Save(d);
    resp := Response(200, Acknowledged(done));
  }

  /** `activateUser`. */
  method ActivateUser(db: Store, param: IdParam) returns (resp: Response)
    requires db.Valid()
    modifies db`users
    ensures db.Valid()
    ensures StatusSpec(old(db.users), db.users, param, Active, "User activated", resp)
  {
    resp := ChangeStatus(db, param, Active, "User activated");
  }

  /** `deactivateUser`. */
  method DeactivateUser(db: Store, param: IdParam) returns (resp: Response)
    requires db.Valid()
    modifies db`users
    ensures db.Valid()
    ensures StatusSpec(old(db.users), db.users, param, Inactive, "User deactivated", resp)
  {
    resp := ChangeStatus(db, param, Inactive, "User deactivated");
  }

  // ---------------------------------------------------------------- profile and password

  const EmailInUse: Response := Error(400, Text("Email already in use"))

  const InvalidOldPassword: Response := Error(401, Text("Invalid old password"))

  /** `if (req.body[key])`: the key is present with a truthy value; after validation, a
      non-empty string. */
  predicate Supplied(body: JsonObject, key: string) {
    key in body && body[key].JString? && body[key].text != ""
  }

  /** Resubmitting one's own email, in any spelling the setters map to it, is no clash: the
      uniqueness query skips the caller's own record. */
  lemma OwnEmailNotInUse(users: seq<UserRecord>, nextId: UserId, i: nat, raw: string)
    requires StoreInvariant(users, nextId) && i < |users| && NormaliseEmail(raw) == users[i].email
    ensures !EmailHeldByOther(users, NormaliseEmail(raw), users[i].id)
  {
  }

  /** The answer and the collection after `updateProfile` by `caller`: only the caller's
      record can change, and only in the supplied fields, after the setters. */
  ghost predicate UpdateProfileSpec(users: seq<UserRecord>, users': seq<UserRecord>, caller: UserId,
                                    body: JsonObject, isEmail: string -> bool, resp: Response) {
    && |users'| == |users|
    && (forall k :: 0 <= k < |users| && users[k].id != caller ==> users'[k] == users[k])
    && match Validate(UpdateSchema, body, isEmail)
      case Some(v) => resp == Error(400, Invalid(v)) && users' == users
      case None =>
        match IndexOfId(users, caller)
        case None => resp == Error(500, Internal(NullUser)) && users' == users
        case Some(i) =>
          var u := users[i];
          var fullName := if Supplied(body, "fullName") then Trim(StringAt(body, "fullName")) else u.fullName;
          var email := if Supplied(body, "email") then NormaliseEmail(StringAt(body, "email")) else u.email;
          if Supplied(body, "email") && EmailHeldByOther(users, email, caller) then
            resp == EmailInUse && users' == users
          else if fullName == "" || email == "" then
            resp == Error(500, Internal(SaveFailed(ValidationFailed))) && users' == users
          else
            && resp == Response(200, Profile(fullName, email))
            && users' == users[i := u.(fullName := fullName, email := email)]
  }

  /** `updateProfile` for the caller the gate resolved: validate, set the supplied fields
      through the setters, refuse an email another record holds (before anything is saved),
      save, answer with the stored values. */
  method UpdateProfile(db: Store, caller: UserId, body: JsonObject, isEmail: string -> bool) returns (resp: Response)
    requires db.Valid()
    modifies db`users
    ensures db.Valid()
    ensures UpdateProfileSpec(old(db.users), db.users, caller, body, isEmail, resp)
  {
    var v := Validate(UpdateSchema, body, isEmail);
    if v.Some? {
      resp := Error(400, Invalid(v.value));
      return;
    }
    var found := IndexOfId(db.users, caller);
    if found.None? {
      resp := Error(500, Internal(NullUser));
      return;
    }
    var i := found.value;
    var u := db.users[i];
    LoadedRecordSaves(db.users, db.nextId, i, Load(u));
    var d := Load(u);
    if Supplied(body, "fullName") {
      SettersNormalise(d, u.id, StringAt(body, "fullName"), "", "");
      d := SetFullName(d, StringAt(body, "fullName"));
    }
    if Supplied(body, "email") {
      if EmailHeldByOther(db.users, NormaliseEmail(StringAt(body, "email")), u.id) {
        resp := EmailInUse;
        return;
      }
      SettersNormalise(d, u.id, "", StringAt(body, "email"), "");
      d := SetEmail(d, StringAt(body, "email"));
    }
    var err := db.Save(d);
    if err.Some? {
      resp := Error(500, Internal(SaveFailed(err.value)));
      return;
    }
    resp := Response(200, Profile(d.fullName, d.email));
  }

  /** The answer and the collection after `changePassword` by `caller`: only the caller's
      digest can change, and only when the old password matches it. */
  ghost predicate ChangePasswordSpec(users: seq<UserRecord>, users': seq<UserRecord>, caller: UserId,
                                     body: JsonObject, isEmail: string -> bool, resp: Response) {
    && |users'| == |users|
    && (forall k :: 0 <= k < |users| && users[k].id != caller ==> users'[k] == users[k])
    && match Validate(PasswordSchema, body, isEmail)
      case Some(v) => resp == Error(400, Invalid(v)) && users' == users
      case None =>
        match IndexOfId(users, caller)
        case None => resp == Error(500, Internal(NullUser)) && users' == users
        case Some(i) =>
          var u := users[i];
          if !MatchPassword(u, StringAt(body, "oldPassword")) then
            resp == InvalidOldPassword && users' == users
          else
            && resp == Response(200, Acknowledged("Password changed"))
            && users' == users[i := u.(passwordHash := Hash(StringAt(body, "newPassword")))]
  }

  /** `changePassword` for the caller the gate resolved: validate, check the old password,
      store the digest of the new one. A wrong old password leaves the digest as it was. */
  method ChangePassword(db: Store, caller: UserId, body: JsonObject, isEmail: string -> bool) returns (resp: Response)
    requires db.Valid()
    modifies db`users
    ensures db.Valid()
    ensures ChangePasswordSpec(old(db.users), db.users, caller, body, isEmail, resp)
  {
    var v := Validate(PasswordSchema, body, isEmail);
    if v.Some? {
      resp := Error(400, Invalid(v.value));
      return;
    }
    PasswordAcceptsIff(body, isEmail);
    var found := IndexOfId(db.users, caller);
    if found.None? {
      resp := Error(500, Internal(NullUser));
      return;
    }
    var i := found.value;
    var u := db.users[i];
    if !MatchPassword(u, StringAt(body, "oldPassword")) {
      resp := InvalidOldPassword;
      return;
    }
    LoadedRecordSaves(db.users, db.nextId, i, Load(u));
    var d := SetPassword(Load(u), StringAt(body, "newPassword"));
    var err := db.Save(d);
    resp := Response(200, Acknowledged("Password changed"));
  }
}
