/**
 * The handlers of `/api/auth`: `signup` and `login` work on the user store; `getMe` and
 * `logout` only answer. Emails in queries go through the same `lowercase`/`trim` setters as
 * stored emails (Mongoose casts query filters through the schema).
 */
module AuthController {
  import opened Wrappers
  import opened Strings
  import opened Password
  import opened UserModel
  import opened Validators
  import opened Http

  const UserExists: Response := Error(400, Text("User already exists"))

  /** The one answer for an unknown email and for a wrong password. */
  const InvalidCredentials: Response := Error(401, Text("Invalid credentials"))

  /** The record `findOne({ email }).select("+password")` finds, if `matchPassword` accepts
      `password` for it. */
  function Credentials(users: seq<UserRecord>, email: string, password: string): (r: Option<nat>)
    ensures r.Some? ==> r.value < |users| && users[r.value].email == NormaliseEmail(email)
                        && MatchPassword(users[r.value], password)
    ensures UniqueEmails(users) ==>
      (r.None? <==> forall j :: 0 <= j < |users| && users[j].email == NormaliseEmail(email)
                                ==> !MatchPassword(users[j], password))
  {
    match IndexOfEmail(users, NormaliseEmail(email))
    case None => None
    case Some(i) =>
      assert UniqueEmails(users) ==> forall j :: 0 <= j < |users| && users[j].email == NormaliseEmail(email) ==> j == i;
      if MatchPassword(users[i], password) then Some(i) else None
  }

  /** A stored user is recognised by its own email and the password it was saved with, and by
      no other password. */
  lemma CredentialsOfStoredUser(users: seq<UserRecord>, nextId: UserId, i: nat, plain: string, entered: string)
    requires StoreInvariant(users, nextId) && i < |users| && users[i].passwordHash == Hash(plain)
    ensures Credentials(users, users[i].email, entered) == (if entered == plain then Some(i) else None)
  {
    MatchHash(plain, entered);
    assert NormaliseEmail(users[i].email) == users[i].email;
    var r := IndexOfEmail(users, users[i].email);
    assert r.Some?;
  }

  /** `status` plays no part in recognising a caller: an inactive user logs in like an active one. */
  lemma CredentialsIgnoreStatus(users: seq<UserRecord>, i: nat, s: Status, email: string, password: string)
    requires i < |users|
    ensures Credentials(users[i := users[i].(status := s)], email, password) == Credentials(users, email, password)
  {
    IndexOfEmailKeptByUpdate(users, i, users[i].(status := s), NormaliseEmail(email));
  }

  /** The answer and the collection after `signup`: 400 for a refused body or a taken email,
      500 for a name or email the setters leave blank, else one new record under the next id. */
  ghost predicate SignupSpec(users: seq<UserRecord>, nextId: UserId, users': seq<UserRecord>, nextId': UserId,
                             body: JsonObject, isEmail: string -> bool, resp: Response) {
    match Validate(SignupSchema, body, isEmail)
    case Some(v) => resp == Error(400, Invalid(v)) && users' == users && nextId' == nextId
    case None =>
      var fullName, email, password := StringAt(body, "fullName"), StringAt(body, "email"), StringAt(body, "password");
      if IndexOfEmail(users, NormaliseEmail(email)).Some? then
        resp == UserExists && users' == users && nextId' == nextId
      else if Trim(fullName) == "" || NormaliseEmail(email) == "" then
        resp == Error(500, Internal(SaveFailed(ValidationFailed))) && users' == users
      else
        && resp == Response(201, Authenticated(TokenFor(nextId), nextId, email, User))
        && users' == users + [UserRecord(nextId, NormaliseEmail(email), Hash(password), Trim(fullName), User, Active, None)]
  }

  /** `signup`: validate, refuse a taken email, create the user, answer with a token. The
      email in the answer is the one submitted, not the stored normal form. */
  method Signup(db: Store, body: JsonObject, isEmail: string -> bool) returns (resp: Response)
    requires db.Valid()
    modifies db
    ensures db.Valid()
    ensures SignupSpec(old(db.users), old(db.nextId), db.users, db.nextId, body, isEmail, resp)
  {
    var v := Validate(SignupSchema, body, isEmail);
    if v.Some? {
      resp := Error(400, Invalid(v.value));
      return;
    }
    SignupAcceptsIff(body, isEmail);
    var fullName, email, password := StringAt(body, "fullName"), StringAt(body, "email"), StringAt(body, "password");
    if IndexOfEmail(db.users, NormaliseEmail(email)).Some? {
      resp := UserExists;
      return;
    }
    var r := db.Create(fullName, email, password);
    match r
    case Failure(e) =>
      resp := Error(500, Internal(SaveFailed(e)));
    case Success(id) =>
      resp := Response(201, Authenticated(TokenFor(id), id, email, User));
  }

  /** The answer and the collection after `login` at time `now`: 400 for a refused body, the
      same 401 for an unknown email and a wrong password, else only `lastLogin` changes. */
  ghost predicate LoginSpec(users: seq<UserRecord>, users': seq<UserRecord>, body: JsonObject,
                            isEmail: string -> bool, now: int, resp: Response) {
    match Validate(LoginSchema, body, isEmail)
    case Some(v) => resp == Error(400, Invalid(v)) && users' == users
    case None =>
      var email := StringAt(body, "email");
      match Credentials(users, email, StringAt(body, "password"))
      case None => resp == InvalidCredentials && users' == users
      case Some(i) =>
        var u := users[i];
        && users' == users[i := u.(lastLogin := Some(now))]
        && resp == Response(200, Authenticated(TokenFor(u.id), u.id, email, u.role))
  }

  /** `login`: validate, check the credentials, stamp `lastLogin`, answer with a token. */
  method Login(db: Store, body: JsonObject, isEmail: string -> bool, now: int) returns (resp: Response)
    requires db.Valid()
    modifies db`users
    ensures db.Valid()
    ensures LoginSpec(old(db.users), db.users, body, isEmail, now, resp)
  {
    var v := Validate(LoginSchema, body, isEmail);
    if v.Some? {
      resp := Error(400, Invalid(v.value));
      return;
    }
    var email, password := StringAt(body, "email"), StringAt(body, "password");
    var found := Credentials(db.users, email, password);
    if found.None? {
      resp := InvalidCredentials;
      return;
    }
    var i := found.value;
    var u := db.users[i];
    var d := Load(u).(lastLogin := Some(now));
    LoadedRecordSaves(db.users, db.nextId, i, d);
    IndexOfIdUnique(db.users, i);
    var err := db.Save(d);
    resp := Response(200, Authenticated(TokenFor(u.id), u.id, email, u.role));
  }

  /** `getMe`: the user the gate resolved. */
  function GetMe(user: PublicUser): Response {
    Response(200, Me(user))
  }

  /** `logout`: nothing happens on the server. */
  function Logout(): Response {
    Response(200, Acknowledged("Logged out successfully"))
  }
}
