# mini-user-management-system, modelled in Dafny

This project models the account store of a small user-management service and the rules that guard it.
It also proves properties of that model. Nothing in it is executed.

- **The user schema.** Emails go through the `lowercase` and `trim` setters, and full names through
  `trim`. Role and status are closed enums with defaults. The `pre("save")` hook hashes a password
  only when it was assigned since loading. `matchPassword` compares against the digest. The collection
  is a `Store` class, and its invariant is what the schema demands: unique ids; unique, normalised,
  non-empty emails; trimmed, non-empty names.
- **The handlers.** `signup`, `login`, `getMe` and `logout` are modelled, and so are `getAllUsers`,
  `activateUser`, `deactivateUser`, `updateProfile` and `changePassword`. The handlers that change
  the store are methods on `Store`. Each returns the HTTP status and body it sends, including the
  500 answers its `try`/`catch` produces.
- **The gates.** `protect` parses the bearer token, verifies it and loads the user. `adminOnly`
  checks the role. The two route files are one constant table from endpoint to gate chain, and a
  dispatcher runs a request through it.
- **The validators.** The four Joi schemas are read by a small interpreter of the Joi subset they
  use. The client-side form validators of the signup, login and profile pages are each a function
  giving the error map, plus a page class whose methods build and store that map.
- **The client.** The page-number list of the admin table's pagination bar and the client route
  guard.

Opaque parts of the system become parameters:

- what Joi's `email()` accepts is `isEmail: string -> bool`;
- what `jwt.verify` returns is `verify: string -> Option<UserId>`;
- `Date.now()` is `now`;
- `window.innerWidth` is `width`.

bcrypt becomes an injective `Hash` with `Match(p, Hash(p))`.

**Email queries are normalised.** The handlers query by the raw submitted email:
`findOne({ email })` in `signup` and `login`, and the uniqueness query of `updateProfile`. Mongoose
casts query filters through the schema's setters, so this model looks up `NormaliseEmail(email)`.
Under this choice, a user who signs up as `A@X.com` can log in as `a@x.com`. Signing up twice with
emails that differ only in case gives `User already exists`.

**What `save()` refuses.** A save fails when a `required` path holds `""`, or when the unique index
on `email` already holds the value. Both become a 500 answer carrying the error. Joi accepts a full
name of three spaces, so `signup` and `updateProfile` then fail at save with 500. A negative `page`
gives `skip` a negative value, which the database refuses, so the listing answers 500.

## Model

| member | source | states |
|---|---|---|
| Password.MatchHash | backend/src/models/User.js:43-45 | a digest matches the plaintext it was made from and no other |
| Strings.TrimEmptyIffBlank | frontend/src/pages/Signup.jsx:26 | `trim()` gives the empty string exactly when every character is whitespace |
| Strings.TrimIdempotent | backend/src/models/User.js:17-21 | trimming a trimmed string changes nothing |
| Strings.TrimLowerCommute | backend/src/models/User.js:9-10 | lowercasing and trimming can be applied in either order |
| Strings.JoinSplit | backend/src/middleware/authMiddleware.js:8 | joining the pieces of `split(' ')` gives back the header |
| Strings.SplitJoin | backend/src/middleware/authMiddleware.js:8 | splitting space-free pieces joined by spaces gives back the pieces |
| Strings.SplitPieceLacksSeparator | backend/src/middleware/authMiddleware.js:8 | no piece of `split(' ')` holds a space |
| Strings.ParseIntDecimal | backend/src/controllers/userController.js:18 | `parseInt` of a decimal numeral is its value |
| UserModel.NormaliseEmailIdempotent | backend/src/models/User.js:5-11 | the stored email form is a fixed point of the setters, so reassigning it keeps it |
| UserModel.SettersNormalise | backend/src/models/User.js:5-31 | a new document has a normalised email, a trimmed name, role `user` and status `active`; the setters keep a document normalised |
| UserModel.SaveWithoutPasswordChange | backend/src/models/User.js:37-38 | saving a document whose password was not assigned keeps the stored digest, so there is no double hashing, and stores every other field as set |
| UserModel.SaveWithPasswordChange | backend/src/models/User.js:37-45 | saving after a password assignment stores `Hash(plain)`, never the plaintext, and `matchPassword(plain)` then holds |
| UserModel.IndexOfEmail | backend/src/controllers/authController.js:15 | `findOne({ email })` finds the first record with that email, or reports that none has it |
| UserModel.IndexOfId | backend/src/middleware/authMiddleware.js:14 | `findById` finds the first record with that id, or reports that none has it |
| UserModel.IndexOfIdUnique | backend/src/models/User.js:4 | with unique ids, `findById` finds the one record with the id |
| UserModel.IndexOfIdKeptByUpdate | backend/src/controllers/userController.js:35-38 | changing a record's fields other than its id changes no `findById` answer |
| UserModel.IndexOfEmailKeptByUpdate | backend/src/controllers/authController.js:40-46 | changing a record's fields other than its email changes no `findOne({ email })` answer |
| UserModel.SaveCheck | backend/src/models/User.js:5-21 | a save passes exactly when email, name and password are non-empty and no other record holds the email; a duplicate-key refusal means another record holds it |
| UserModel.SavedRecordWellFormed | backend/src/models/User.js:5-21 | a normalised document that passes the save checks is stored as a well-formed record |
| UserModel.InsertKeepsInvariant | backend/src/models/User.js:8 | inserting a well-formed record with a fresh id and an unused email keeps ids and emails unique |
| UserModel.ReplaceKeepsInvariant | backend/src/models/User.js:8 | replacing a record by a well-formed one with its id and an email no other record holds keeps the invariant |
| UserModel.LoadedRecordSaves | backend/src/controllers/authController.js:45-46 | a loaded record changed only outside email, name and password always passes the save checks |
| UserModel.Store.constructor | backend/src/models/User.js:47 | the collection starts empty and satisfies the invariant |
| UserModel.Store.Create | backend/src/controllers/authController.js:18 | `User.create` applies setters and defaults, then either appends the hashed record under a fresh id or reports why the save failed and changes nothing; the invariant is kept |
| UserModel.Store.Save | backend/src/models/User.js:37-40 | `save()` reports exactly the save-check result; on success it replaces the document's record with the hashed form and nothing else, and keeps the invariant |
| Validators.RuleProblem | backend/src/utils/validators.js:4-6 | no problem exactly when the string obeys every rule; a problem names a broken rule |
| Validators.KeyProblemNoneIff | backend/src/utils/validators.js:3-7 | a key finds nothing wrong exactly when a required key is present and a present value is a non-empty string obeying every rule |
| Validators.FirstKeyViolation | backend/src/controllers/authController.js:10-11 | no violation exactly when every key passes; otherwise the violation is the problem of the first failing key in schema order |
| Validators.AcceptsIff | backend/src/utils/validators.js:3-12 | a body passes exactly when every key passes and it has no key the schema does not name |
| Validators.RefusalNamesFirstFailingKey | backend/src/controllers/authController.js:11 | the reported error is the first failing key's problem |
| Validators.SignupAcceptsIff | backend/src/utils/validators.js:3-7 | `signupSchema` accepts exactly the bodies with the three keys: a string name of length at least 3, an email `email()` accepts, and a password of length at least 8 |
| Validators.SignupMissingKeyRefused | backend/src/utils/validators.js:3-7 | a signup body missing a key is refused with `Required` for the first missing key |
| Validators.LoginAcceptsIff | backend/src/utils/validators.js:9-12 | `loginSchema` accepts exactly an email `email()` accepts and a non-empty password of any length |
| UserController.UpdateAcceptsIff | backend/src/controllers/userController.js:6-9 | `updateSchema` accepts exactly the bodies with only optional `fullName` (at least 3) and `email` (accepted by `email()`) |
| UserController.PasswordAcceptsIff | backend/src/controllers/userController.js:11-14 | `passwordSchema` accepts exactly a non-empty old password and a new password of at least 8 |
| AuthController.Credentials | backend/src/controllers/authController.js:40-43 | a found record has the normalised email and matches the password; with unique emails, nothing is found exactly when no record with that email matches |
| AuthController.CredentialsOfStoredUser | backend/src/controllers/authController.js:40-43 | a stored user is recognised by their own email with the password they saved, and with no other password |
| AuthController.CredentialsIgnoreStatus | backend/src/controllers/authController.js:40-46 | changing a user's status changes no login decision |
| AuthController.Signup | backend/src/controllers/authController.js:8-30 | invalid body gives 400 with its first violation; a taken email gives 400 `User already exists`; a blank name or email gives 500; otherwise exactly one record with role `user` is appended, and the answer is 201 with the new id's token, the email as submitted, and the role; the store is unchanged on every refusal and the invariant is kept |
| AuthController.Login | backend/src/controllers/authController.js:33-59 | invalid body gives 400; an unknown email and a wrong password give the same 401 `Invalid credentials`; otherwise only that record's `lastLogin` changes and the answer is 200 with its id's token and role |
| UserController.RequestedPage | backend/src/controllers/userController.js:18 | the page is 1 when absent, non-numeric or zero, and the parsed value otherwise; never 0 |
| UserController.RequestedPageOfNumeral | backend/src/controllers/userController.js:18 | the page written as a decimal numeral is that page, with 0 read as 1, and a negative numeral is kept negative |
| UserController.Pages | backend/src/controllers/userController.js:26 | `ceil(total / 10)`: the fewest pages of 10 holding `total` records |
| UserController.PageSlice | backend/src/controllers/userController.js:20-23 | the slice has `min(10, total - skip)` records (none when `skip >= total`), record `k` being the stored record at `skip + k` without its password |
| UserController.GetAllUsers | backend/src/controllers/userController.js:17-30 | 200 exactly for a page of at least 1, else 500; the answer lists at most 10 records from index `(page-1)*10`, in order, without passwords, with `total` and `pages` |
| UserController.RecordOnRequestedPage | backend/src/controllers/userController.js:17-25 | whatever parameter asks for page `i / 10 + 1`, record `i` is entry `i % 10` of the answer, and that page is within the reported page count |
| UserController.RecordOnItsPage | backend/src/controllers/userController.js:21-26 | record `i` is entry `i % 10` of page `i / 10 + 1`, which is within the reported page count |
| UserController.PagePastTheEnd | backend/src/controllers/userController.js:21-24 | a page past the last gives 200 with an empty list, not an error |
| UserController.WithStatus | backend/src/controllers/userController.js:37-38 | only the record with the id changes, and only its status |
| UserController.WithStatusIdempotent | backend/src/controllers/userController.js:33-55 | setting a status twice is setting it once |
| UserController.ChangeStatus | backend/src/controllers/userController.js:33-55 | a malformed id gives 500; an unknown id gives 404 `User not found` with the store unchanged; otherwise 200, and only that record's status changes |
| UserController.ActivateUser | backend/src/controllers/userController.js:33-43 | as `ChangeStatus` with status `active` and message `User activated` |
| UserController.DeactivateUser | backend/src/controllers/userController.js:45-55 | as `ChangeStatus` with status `inactive` and message `User deactivated` |
| UserController.OwnEmailNotInUse | backend/src/controllers/userController.js:66 | resubmitting one's own email is not a clash |
| UserController.UpdateProfile | backend/src/controllers/userController.js:58-77 | invalid body gives 400; an email another record holds gives 400 `Email already in use` with nothing saved, even when a name was sent; otherwise only the supplied fields of the caller's own record change, through the setters; no other record changes and emails stay unique |
| UserController.ChangePassword | backend/src/controllers/userController.js:80-96 | invalid body (including a new password under 8) gives 400; a wrong old password gives 401 `Invalid old password` with the digest unchanged; otherwise the caller's digest becomes `Hash(newPassword)` and nothing else changes |
| AuthMiddleware.BearerToken | backend/src/middleware/authMiddleware.js:7-9 | a token is found exactly when the header starts with `Bearer` and its second piece, split on single spaces, is non-empty; the token is that piece, and it holds no space |
| AuthMiddleware.VerifiedTokenAdmits | backend/src/middleware/authMiddleware.js:5-16 | a space-free token that verifies to a stored user's id, sent as `Bearer <token>`, passes `protect` as that user |
| AuthMiddleware.BearerOfPieces | backend/src/middleware/authMiddleware.js:7-9 | a header made of space-free pieces, the first starting with `Bearer`, yields its non-empty second piece |
| AuthMiddleware.BearerRoundTrip | backend/src/middleware/authMiddleware.js:7-9 | `Bearer <token>` yields the token for every space-free token |
| AuthMiddleware.LowerCaseSchemeRefused | backend/src/middleware/authMiddleware.js:7 | a header starting `bearer` carries no token |
| AuthMiddleware.DoubleSpaceRefused | backend/src/middleware/authMiddleware.js:8-10 | two spaces after the scheme leave an empty second piece, so there is no token |
| AuthMiddleware.Protect | backend/src/middleware/authMiddleware.js:5-20 | no token gives 401 `no token`; a failed verification gives 401 `token failed`; an unknown id gives 401 `User not found`; it continues exactly when the token verifies to a stored id, and the request's user is that record without its password |
| AuthMiddleware.ProtectIgnoresStatus | backend/src/middleware/authMiddleware.js:13-16 | a user's status has no effect on what `protect` decides |
| AuthMiddleware.AdminOnly | backend/src/middleware/authMiddleware.js:22-28 | continues exactly for a present admin user, else 403 `Not authorized as admin` |
| Routes.TableShape | backend/src/routes/userRoutes.js:7-11 | signup and login have no gate; every other route runs `protect` first; exactly the listing, activate and deactivate routes run `protect` then `adminOnly` |
| Routes.RunGates | backend/src/routes/authRoutes.js:7-10 | a route without gates goes straight to its handler; only a gate can halt a request |
| Routes.ProtectedRouteHasCaller | backend/src/routes/authRoutes.js:9-10 | on a protected route the handler runs only when `protect` continued, and with the user it resolved; a refusal by `protect` is the route's answer |
| Routes.NoAdminEndpointForNonAdmin | backend/src/routes/userRoutes.js:7-9 | an admin route reaches its handler only with a token naming a stored admin; a request `protect` refuses gets `protect`'s answer, and a stored non-admin gets 403 `Not authorized as admin` |
| Routes.Handle | backend/src/routes/userRoutes.js:7-11 | a halted request is answered by the gate and changes nothing; a request the gates let through gets exactly what its handler promises (`SignupSpec`, `LoginSpec`, `GetAllUsers` on the unchanged store, `StatusSpec` with `active` or `inactive`, `UpdateProfileSpec` and `ChangePasswordSpec`), and the profile and password handlers act for the user `protect` resolved from the token; `getMe` answers with that user; `logout` changes nothing; only signup moves the next id; the store invariant is kept |
| Pagination.MaxVisible | frontend/src/components/Pagination.jsx:8-9 | 3 numbers below a width of 640, else 5 |
| Pagination.GetPageNumbers | frontend/src/components/Pagination.jsx:11-42 | the pushed list is the page list `PageNumbers` |
| Pagination.ShortListHasEveryPage | frontend/src/components/Pagination.jsx:14-15 | when the pages fit, the list is exactly 1 to `totalPages` in order |
| Pagination.LongListParts | frontend/src/components/Pagination.jsx:19-39 | otherwise the list is 1, an optional marker, the pages from `max(2, cur-1)` to `min(total-1, cur+1)`, an optional marker, and the last page |
| Pagination.LongListEnds | frontend/src/components/Pagination.jsx:19-39 | the long list starts at 1 and ends at `totalPages`; a leading marker appears exactly when `cur > maxVisible-1`, and a trailing one exactly when `cur < total-(maxVisible-2)` |
| Pagination.NumbersAscend | frontend/src/components/Pagination.jsx:11-42 | the numbers rise strictly, and every one is a page |
| Pagination.UnmarkedGap | frontend/src/components/Pagination.jsx:22-30 | with 10 pages, width 5 and page 4, page 2 is missing and no marker stands for it |
| Pagination.EmptyGapMarked | frontend/src/components/Pagination.jsx:22-30 | with 10 pages, width 3 and page 3, a marker stands between pages 1 and 2 |
| Pagination.Render | frontend/src/components/Pagination.jsx:5-84 | nothing for at most one page; otherwise Prev is disabled exactly on page 1, Next exactly on the last page, and the entries are the page list |
| Pagination.ClicksStayInRange | frontend/src/components/Pagination.jsx:49-84 | from a page in range every click asks for a page in range, and a marker asks for nothing |
| ProtectedRoute.Guard | frontend/src/utils/ProtectedRoute.jsx:7-19 | spinner while loading; `/login` without a user; `/profile` exactly for a non-admin on an admin route; the child route exactly for a user allowed on the route |
| ProtectedRoute.GuardAdmits | frontend/src/utils/ProtectedRoute.jsx:14-18 | a route that is not admin-only admits every role; an admin-only route admits exactly admins |
| EmailPattern.MatchSurvivesContext | frontend/src/pages/Signup.jsx:30 | the search is unanchored: text around a match does not undo it |
| EmailPattern.MatchShape | frontend/src/pages/Signup.jsx:30 | a match has at least five characters, an `@` and a `.` |
| EmailPattern.MatchExamples | frontend/src/pages/Login.jsx:25 | `a@b.c` matches; `a @b.c` and `a@bc` do not |
| EmailPattern.MatchNotBlank | frontend/src/pages/Login.jsx:24-25 | a matching email is not blank, so neither `trim()` nor the email setters empty it |
| SignupPage.SignupErrors | frontend/src/pages/Signup.jsx:24-41 | each field gets a message exactly when its check fails, and at most one: name blank or under 3, email failing the pattern, password under 8, confirmation different; with the messages of each case |
| SignupPage.AcceptedFormMeetsServer | frontend/src/pages/Signup.jsx:43-47 | a form the page accepts passes `signupSchema` exactly when `email()` accepts its email, and the server stores a non-blank name and email |
| SignupPage.SignupPage.constructor | frontend/src/pages/Signup.jsx:11-18 | the form starts empty with no errors |
| SignupPage.SignupPage.Validate | frontend/src/pages/Signup.jsx:24-41 | the stored errors become the form's error map; the result is true exactly when it is empty |
| SignupPage.SignupPage.HandleSubmit | frontend/src/pages/Signup.jsx:43-48 | a signup request with the form's fields is produced exactly when validation passes |
| LoginPage.LoginErrors | frontend/src/pages/Login.jsx:22-31 | email gets a message exactly when it fails the pattern (`Email is required` when blank after trim); password exactly when empty; no length rule |
| LoginPage.AcceptedFormMeetsServer | frontend/src/pages/Login.jsx:33-37 | a form the page accepts passes `loginSchema` exactly when `email()` accepts its email |
| LoginPage.LoginPage.constructor | frontend/src/pages/Login.jsx:11-16 | the form starts empty with no errors |
| LoginPage.LoginPage.Validate | frontend/src/pages/Login.jsx:22-31 | the stored errors become the form's error map; the result is true exactly when it is empty |
| LoginPage.LoginPage.HandleSubmit | frontend/src/pages/Login.jsx:33-38 | a login request is produced exactly when validation passes |
| UserProfilePage.FormAfterLogin | backend/src/controllers/authController.js:50-54 | the login and signup answers carry no name, so the profile form then opens with `''` as the name, which `validateProfile` refuses with `Full name is required` |
| UserProfilePage.FormAfterMe | backend/src/controllers/authController.js:62-64 | after `/api/auth/me`, whose answer is the stored user, the profile form holds the stored name and email |
| UserProfilePage.FormFor | frontend/src/pages/UserProfile.jsx:19-22 | the form takes the user's name and email, with a missing one becoming `''` |
| UserProfilePage.ProfileErrors | frontend/src/pages/UserProfile.jsx:34-44 | name gets a message exactly when blank after trim or under 3; email exactly when it fails the pattern; with the messages of each case |
| UserProfilePage.PasswordErrors | frontend/src/pages/UserProfile.jsx:46-54 | old password gets a message exactly when empty; new password exactly when under 8 (`New password is required` when empty) |
| UserProfilePage.PasswordRulesAgree | frontend/src/pages/UserProfile.jsx:46-54 | the page's password rules are the server's: the form passes exactly when its body passes `passwordSchema` |
| UserProfilePage.AcceptedProfileMeetsServer | frontend/src/pages/UserProfile.jsx:56-61 | an accepted profile form passes `updateSchema` exactly when `email()` accepts its email, and the server stores a non-blank name and email |
| UserProfilePage.UserProfilePage.constructor | frontend/src/pages/UserProfile.jsx:13-15 | both forms start empty with no errors |
| UserProfilePage.UserProfilePage.SyncWithUser | frontend/src/pages/UserProfile.jsx:17-24 | a present user refills the profile form; no user leaves it as it was |
| UserProfilePage.UserProfilePage.ValidateProfile | frontend/src/pages/UserProfile.jsx:34-44 | the whole error map is replaced by the profile form's; true exactly when it is empty |
| UserProfilePage.UserProfilePage.ValidatePassword | frontend/src/pages/UserProfile.jsx:46-54 | the whole error map is replaced by the password form's; true exactly when it is empty |
| UserProfilePage.UserProfilePage.SubmitProfile | frontend/src/pages/UserProfile.jsx:56-61 | the profile request is produced only when `validateProfile` passes |
| UserProfilePage.UserProfilePage.SubmitPassword | frontend/src/pages/UserProfile.jsx:70-75 | the password request is produced only when `validatePassword` passes |

## Left out

- bcrypt's salt, cost factor and randomness. `Hash` is injective, and bcrypt's 72-byte input limit is not modelled.
- JSON Web Tokens. Signing, the secret and expiry are not modelled. A token is `TokenFor(id)`, and verification is the parameter `verify`. `generateToken` is not part of this model. No encoding links the issued `TokenFor(id)` to the string `verify` reads; `AuthMiddleware.VerifiedTokenAdmits` takes that link as its hypothesis.
- Joi's error-message wording and what `email()` accepts. A refusal carries the structured first violation, and `email()` is the parameter `isEmail`.
- The unknown-keys refusal, `Validators.UnknownKeys`. Joi names the first unknown key of the body in its insertion order; a body here is a map without key order, so the refusal carries the set of unknown keys instead.
- MongoDB and Mongoose mechanics: connections, `select` projection, query casting and the unique index as a storage structure. The collection is a sequence with uniqueness as its invariant.
- The race between the email pre-check and the insert in `signup`, and between concurrent requests in general.
- `createdAt`, `updatedAt` and the timestamps option. `lastLogin` is an optional integer, and the clock is the parameter `now`.
- Lowercasing beyond ASCII, and string lengths in UTF-16 code units. Lengths are counted in characters.
- `parseInt` beyond 2^53, and a `page` query parameter given as an array.
- Express itself: matching a URL to a route, the `:id` cast (it arrives as `ObjectId` or `Malformed`), the 404 and global error handlers, CORS and server startup.
- `errorHandler.js` as a writer to the response object. It becomes `Http.Error`.
- The client's rendering, `axios` calls, toasts, `handleChange`, the edit-mode toggle, and the password form reset after a successful change.
- The auth context. The client session user is a value given to the route guard and to the profile page.
- AuthController.GetMe and AuthController.Logout carry no contract of their own, because each just answers. What they answer is stated by `Routes.Handle`.
