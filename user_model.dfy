/**
 * The user schema: the stored record, the Mongoose document that carries a record between a
 * query and a save (with the `lowercase`/`trim` setters, the defaults and the `pre("save")`
 * hook), `matchPassword`, and the collection as a `Store` whose invariant is what the schema
 * demands: normalised, non-empty, unique emails; trimmed, non-empty names; unique ids.
 */
module UserModel {
  import opened Wrappers
  import opened Strings
  import opened Password

  /** The `role` enum; an unset role defaults to `User`. */
  datatype Role = Admin | User

  /** The `status` enum; an unset status defaults to `Active`. */
  datatype Status = Active | Inactive

  /** A document's `_id`. */
  type UserId = nat

  /** A stored user. `lastLogin` is `None` until the first successful login. */
  datatype UserRecord = UserRecord(
    id: UserId,
    email: string,
    passwordHash: Digest,
    fullName: string,
    role: Role,
    status: Status,
    lastLogin: Option<int>)

  /** A user as queries return it by default: `password` has `select: false`. */
  datatype PublicUser = PublicUser(
    id: UserId,
    email: string,
    fullName: string,
    role: Role,
    status: Status,
    lastLogin: Option<int>)

  function Public(u: UserRecord): PublicUser {
    PublicUser(u.id, u.email, u.fullName, u.role, u.status, u.lastLogin)
  }

  /** The `lowercase` and `trim` setters of the `email` path. */
  function NormaliseEmail(raw: string): string {
    Trim(ToLower(raw))
  }

  /** A normalised email is its own normal form, so re-assigning a stored email keeps it. */
  lemma NormaliseEmailIdempotent(raw: string)
    ensures NormaliseEmail(NormaliseEmail(raw)) == NormaliseEmail(raw)
  {
    var l := ToLower(raw);
    TrimLowerCommute(Trim(l));
    TrimIdempotent(l);
    TrimLowerCommute(l);
    ToLowerIdempotent(raw);
  }

  // ---------------------------------------------------------------- documents and the save hook

  /** The `password` path of an in-memory document: either the digest loaded from the
      collection, or a plaintext assigned since (what `isModified("password")` detects). */
  datatype PasswordPath = Stored(digest: Digest) | Assigned(plain: string)

  /** A Mongoose document: a record on its way to or from the collection. */
  datatype Document = Document(
    id: UserId,
    email: string,
    password: PasswordPath,
    fullName: string,
    role: Role,
    status: Status,
    lastLogin: Option<int>)

  /** A document as a query with `+password` loads it: nothing modified yet. */
  function Load(u: UserRecord): Document {
    Document(u.id, u.email, Stored(u.passwordHash), u.fullName, u.role, u.status, u.lastLogin)
  }

  /** `new User({ fullName, email, password })`: the setters run, the defaults fill `role`
      and `status`, and the password is a freshly assigned plaintext. */
  function NewDocument(id: UserId, fullName: string, email: string, password: string): Document {
    Document(id, NormaliseEmail(email), Assigned(password), Trim(fullName), User, Active, None)
  }

  /** `doc.email = raw`, through the setters. */
  function SetEmail(d: Document, raw: string): Document {
    d.(email := NormaliseEmail(raw))
  }

  /** `doc.fullName = raw`, through the `trim` setter. */
  function SetFullName(d: Document, raw: string): Document {
    d.(fullName := Trim(raw))
  }

  /** `doc.password = plain`. */
  function SetPassword(d: Document, plain: string): Document {
    d.(password := Assigned(plain))
  }

  /** Every document the setters produced: its email and name are in normal form. */
  predicate SettersApplied(d: Document) {
    NormaliseEmail(d.email) == d.email && Trim(d.fullName) == d.fullName
  }

  /** New documents, and documents updated through the setters, are in normal form. */
  lemma SettersNormalise(d: Document, id: UserId, fullName: string, email: string, password: string)
    ensures SettersApplied(NewDocument(id, fullName, email, password))
    ensures SettersApplied(d) ==> SettersApplied(SetEmail(d, email))
    ensures SettersApplied(d) ==> SettersApplied(SetFullName(d, fullName))
    ensures SettersApplied(d) ==> SettersApplied(SetPassword(d, password))
  {
    NormaliseEmailIdempotent(email);
    TrimIdempotent(fullName);
  }

  /** The `pre("save")` hook: hash the password only when it was assigned since loading. */
  function PreSave(d: Document): UserRecord {
    var digest := match d.password
      case Stored(h) => h
      case Assigned(p) => Hash(p);
    UserRecord(d.id, d.email, digest, d.fullName, d.role, d.status, d.lastLogin)
  }

  /** Saving a document whose password was not touched stores the record it was loaded
      from, digest included: no double hashing; every other change is kept as made. */
  lemma SaveWithoutPasswordChange(u: UserRecord, d: Document)
    requires d.password == Stored(u.passwordHash)
    ensures PreSave(Load(u)) == u
    ensures PreSave(d).passwordHash == u.passwordHash
    ensures Public(PreSave(d)) == PublicUser(d.id, d.email, d.fullName, d.role, d.status, d.lastLogin)
  {
  }

  /** Saving after `doc.password = plain` stores `Hash(plain)`, which `plain` matches. */
  lemma SaveWithPasswordChange(d: Document, plain: string)
    ensures PreSave(SetPassword(d, plain)).passwordHash == Hash(plain)
    ensures MatchPassword(PreSave(SetPassword(d, plain)), plain)
  {
  }

  /** `user.matchPassword(entered)`. */
  predicate MatchPassword(u: UserRecord, entered: string) {
    Match(entered, u.passwordHash)
  }

  // ---------------------------------------------------------------- the collection

  /** What the schema requires of every stored record. */
  predicate WellFormed(u: UserRecord) {
    u.email != "" && NormaliseEmail(u.email) == u.email
    && u.fullName != "" && Trim(u.fullName) == u.fullName
  }

  predicate UniqueEmails(users: seq<UserRecord>) {
    forall i, j :: 0 <= i < j < |users| ==> users[i].email != users[j].email
  }

  predicate UniqueIds(users: seq<UserRecord>) {
    forall i, j :: 0 <= i < j < |users| ==> users[i].id != users[j].id
  }

  /** `User.findOne({ email })`: the first record, in insertion order, with that email. */
  function IndexOfEmail(users: seq<UserRecord>, email: string): (r: Option<nat>)
    ensures r.Some? ==> r.value < |users| && users[r.value].email == email
    ensures r.Some? ==> forall j :: 0 <= j < r.value ==> users[j].email != email
    ensures r.None? <==> forall j :: 0 <= j < |users| ==> users[j].email != email
  {
    if users == [] then None
    else if users[0].email == email then Some(0)
    else
      match IndexOfEmail(users[1..], email)
      case None => None
      case Some(i) => Some(i + 1)
  }

  /** `User.findById(id)`. */
  function IndexOfId(users: seq<UserRecord>, id: UserId): (r: Option<nat>)
    ensures r.Some? ==> r.value < |users| && users[r.value].id == id
    ensures r.Some? ==> forall j :: 0 <= j < r.value ==> users[j].id != id
    ensures r.None? <==> forall j :: 0 <= j < |users| ==> users[j].id != id
  {
    if users == [] then None
    else if users[0].id == id then Some(0)
    else
      match IndexOfId(users[1..], id)
      case None => None
      case Some(i) => Some(i + 1)
  }

  /** With unique ids, `findById` finds the one record carrying the id. */
  lemma IndexOfIdUnique(users: seq<UserRecord>, j: nat)
    requires UniqueIds(users) && j < |users|
    ensures IndexOfId(users, users[j].id) == Some(j)
  {
  }

  /** Changing fields other than `id` keeps every `findById` answer. */
  lemma {:induction false} IndexOfIdKeptByUpdate(users: seq<UserRecord>, i: nat, u: UserRecord, id: UserId)
    requires i < |users| && u.id == users[i].id
    ensures IndexOfId(users[i := u], id) == IndexOfId(users, id)
    decreases |users|
  {
    if users != [] && i > 0 {
      assert users[i := u][1..] == users[1..][i - 1 := u];
      IndexOfIdKeptByUpdate(users[1..], i - 1, u, id);
    }
  }

  /** Changing fields other than `email` keeps every `findOne({ email })` answer. */
  lemma {:induction false} IndexOfEmailKeptByUpdate(users: seq<UserRecord>, i: nat, u: UserRecord, email: string)
    requires i < |users| && u.email == users[i].email
    ensures IndexOfEmail(users[i := u], email) == IndexOfEmail(users, email)
    decreases |users|
  {
    if users != [] && i > 0 {
      assert users[i := u][1..] == users[1..][i - 1 := u];
      IndexOfEmailKeptByUpdate(users[1..], i - 1, u, email);
    }
  }

  /** `User.findOne({ email, _id: { $ne: self } })` finds something. */
  predicate EmailHeldByOther(users: seq<UserRecord>, email: string, self: UserId) {
    exists j :: 0 <= j < |users| && users[j].id != self && users[j].email == email
  }

  /** Why `save()` rejects a document: a `required` path is empty, or the unique index on
      `email` already holds the value (MongoDB's duplicate-key error). */
  datatype SaveError = ValidationFailed | DuplicateKey

  /** The checks `save()` makes: validation first, then the unique index. */
  function SaveCheck(users: seq<UserRecord>, d: Document): (e: Option<SaveError>)
    ensures e.None? <==> d.email != "" && d.fullName != "" && d.password != Assigned("")
                         && !EmailHeldByOther(users, d.email, d.id)
    ensures e == Some(DuplicateKey) ==> EmailHeldByOther(users, d.email, d.id)
  {
    if d.email == "" || d.fullName == "" || d.password == Assigned("") then Some(ValidationFailed)
    else if EmailHeldByOther(users, d.email, d.id) then Some(DuplicateKey)
    else None
  }

  /** The schema's invariant over the whole collection; `nextId` bounds the ids in use. */
  predicate StoreInvariant(users: seq<UserRecord>, nextId: UserId) {
    && UniqueIds(users)
    && UniqueEmails(users)
    && forall i :: 0 <= i < |users| ==> users[i].id < nextId && WellFormed(users[i])
  }

  /** A document that passes the save checks is stored as a well-formed record. */
  lemma SavedRecordWellFormed(users: seq<UserRecord>, d: Document)
    requires SettersApplied(d) && SaveCheck(users, d).None?
    ensures WellFormed(PreSave(d))
  {
  }

  /** Inserting a well-formed record with a fresh id and an unused email keeps the invariant. */
  lemma InsertKeepsInvariant(users: seq<UserRecord>, nextId: UserId, u: UserRecord)
    requires StoreInvariant(users, nextId)
    requires u.id == nextId && WellFormed(u)
    requires forall j :: 0 <= j < |users| ==> users[j].email != u.email
    ensures StoreInvariant(users + [u], nextId + 1)
  {
  }

  /** Replacing a record by a well-formed one with the same id, whose email no other record
      holds, keeps the invariant. */
  lemma ReplaceKeepsInvariant(users: seq<UserRecord>, nextId: UserId, i: nat, u: UserRecord)
    requires StoreInvariant(users, nextId)
    requires i < |users| && u.id == users[i].id && WellFormed(u)
    requires forall j :: 0 <= j < |users| && j != i ==> users[j].email != u.email
    ensures StoreInvariant(users[i := u], nextId)
  {
  }

  /** A document loaded from the collection and changed only outside `email`, `fullName` and
      `password` passes the save checks: such saves never fail. */
  lemma LoadedRecordSaves(users: seq<UserRecord>, nextId: UserId, i: nat, d: Document)
    requires StoreInvariant(users, nextId) && i < |users|
    requires d.id == users[i].id && d.email == users[i].email && d.fullName == users[i].fullName
    requires d.password == Stored(users[i].passwordHash)
    ensures SettersApplied(d) && SaveCheck(users, d).None?
  {
  }

  /** The `users` collection, in insertion order, and the source of fresh ObjectIds. */
  class Store {
    var users: seq<UserRecord>
    var nextId: UserId

    ghost predicate Valid()
      reads this
    {
      StoreInvariant(users, nextId)
    }

    constructor ()
      ensures Valid() && users == [] && nextId == 0
    {
      users := [];
      nextId := 0;
    }

    /** `User.create({ fullName, email, password })`: a fresh id, the setters and defaults,
        the save checks, the pre-save hook, then the insert. The id is drawn even when the
        save fails. */
    method Create(fullName: string, email: string, password: string) returns (res: Result<UserId, SaveError>)
      requires Valid()
      modifies this
      ensures Valid()
      ensures nextId == old(nextId) + 1
      ensures var d := NewDocument(old(nextId), fullName, email, password);
        match SaveCheck(old(users), d)
        case None => res == Success(d.id) && users == old(users) + [PreSave(d)]
        case Some(e) => res == Failure(e) && users == old(users)
    {
      var d := NewDocument(nextId, fullName, email, password);
      SettersNormalise(d, nextId, fullName, email, password);
      var check := SaveCheck(users, d);
      nextId := nextId + 1;
      if check.Some? {
        res := Failure(check.value);
        return;
      }
      SavedRecordWellFormed(users, d);
      InsertKeepsInvariant(users, old(nextId), PreSave(d));
      users := users + [PreSave(d)];
      res := Success(d.id);
    }

    /** `doc.save()` for a document loaded from the collection: the save checks, the
        pre-save hook, then the record with the document's id is replaced. */
    method Save(d: Document) returns (err: Option<SaveError>)
      requires Valid() && SettersApplied(d) && IndexOfId(users, d.id).Some?
      modifies this`users
      ensures Valid()
      ensures err == SaveCheck(old(users), d)
      ensures err.None? ==> users == old(users)[IndexOfId(old(users), d.id).value := PreSave(d)]
      ensures err.Some? ==> users == old(users)
    {
      err := SaveCheck(users, d);
      if err.Some? {
        return;
      }
      var i := IndexOfId(users, d.id).value;
      var u := PreSave(d);
      SavedRecordWellFormed(users, d);
      forall j | 0 <= j < |users| && j != i
        ensures users[j].email != u.email
      {
        if j < i {
          assert users[j].id != users[i].id;
        } else {
          assert users[i].id != users[j].id;
        }
      }
      ReplaceKeepsInvariant(users, nextId, i, u);
      users := users[i := u];
    }
  }
}
