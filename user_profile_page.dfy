/**
 * The profile page's two forms: the profile form, filled from the session user whenever it
 * changes, and the password form. Each validator replaces the whole `errors` map with its
 * own, and a request is sent only when that validator passes.
 */
module UserProfilePage {
  import opened Wrappers
  import opened Strings
  import opened UserModel
  import opened Validators
  import opened UserController
  import opened EmailPattern
  import opened ClientSession
  import opened FormErrors

  datatype ProfileForm = ProfileForm(fullName: string, email: string)

  datatype PasswordForm = PasswordForm(oldPassword: string, newPassword: string)

  /** The form the effect fills from a user: a missing name or email becomes `''`. */
  function FormFor(user: SessionUser): (f: ProfileForm)
    ensures user.fullName.Some? ==> f.fullName == user.fullName.value
    ensures user.fullName.None? ==> f.fullName == ""
    ensures user.email.Some? ==> f.email == user.email.value
    ensures user.email.None? ==> f.email == ""
  {
    ProfileForm(user.fullName.GetOr(""), user.email.GetOr(""))
  }

  /** After `/api/auth/me` the form carries the stored name and email. */
  lemma FormAfterMe(u: PublicUser)
    ensures FormFor(FromMe(u)) == ProfileForm(u.fullName, u.email)
  {
  }

  // the messages shown under the fields
  const FullNameRequired := "Full name is required"
  const FullNameTooShort := "Minimum 3 characters"
  const EmailRequired := "Email is required"
  const EmailInvalid := "Invalid email format"
  const OldPasswordRequired := "Old password is required"
  const NewPasswordRequired := "New password is required"
  const NewPasswordTooShort := "Minimum 8 characters"

  /** The message under the name field of the profile form, if any. */
  function FullNameMessage(fullName: string): Option<string> {
    if Trim(fullName) == "" then Some(FullNameRequired)
    else if |fullName| < 3 then Some(FullNameTooShort)
    else None
  }

  function EmailMessage(email: string): Option<string> {
    if email == "" then Some(EmailRequired)
    else if !Matches(email) then Some(EmailInvalid)
    else None
  }

  function OldPasswordMessage(oldPassword: string): Option<string> {
    if oldPassword == "" then Some(OldPasswordRequired) else None
  }

  function NewPasswordMessage(newPassword: string): Option<string> {
    if newPassword == "" then Some(NewPasswordRequired)
    else if |newPassword| < 8 then Some(NewPasswordTooShort)
    else None
  }

  /** The map `validateProfile` builds. */
  function ProfileErrors(f: ProfileForm): (errors: Errors)
    ensures errors.Keys <= {"fullName", "email"}
    ensures "fullName" in errors <==> |f.fullName| < 3 || Trim(f.fullName) == ""
    ensures "email" in errors <==> !Matches(f.email)
    ensures "fullName" in errors ==>
      errors["fullName"] == if Trim(f.fullName) == "" then FullNameRequired else FullNameTooShort
    ensures "email" in errors ==>
      errors["email"] == if f.email == "" then EmailRequired else EmailInvalid
  {
    Put(Put(map[], "fullName", FullNameMessage(f.fullName)), "email", EmailMessage(f.email))
  }

  /** The map `validatePassword` builds. */
  function PasswordErrors(f: PasswordForm): (errors: Errors)
    ensures errors.Keys <= {"oldPassword", "newPassword"}
    ensures "oldPassword" in errors <==> f.oldPassword == ""
    ensures "newPassword" in errors <==> |f.newPassword| < 8
    ensures "oldPassword" in errors ==> errors["oldPassword"] == OldPasswordRequired
    ensures "newPassword" in errors ==>
      errors["newPassword"] == if f.newPassword == "" then NewPasswordRequired else NewPasswordTooShort
  {
    Put(Put(map[], "oldPassword", OldPasswordMessage(f.oldPassword)), "newPassword", NewPasswordMessage(f.newPassword))
  }

  /** The login and signup answers carry no name, so after either the profile form opens with
      an empty name, and `validateProfile` refuses it as missing until the user types one. */
  lemma FormAfterLogin(email: string, role: Role)
    ensures FormFor(FromLogin(email, role)) == ProfileForm("", email)
    ensures var errors := ProfileErrors(FormFor(FromLogin(email, role)));
      "fullName" in errors && errors["fullName"] == FullNameRequired
  {
  }

  function ProfileBody(f: ProfileForm): JsonObject {
    map["fullName" := JString(f.fullName), "email" := JString(f.email)]
  }

  function PasswordBody(f: PasswordForm): JsonObject {
    map["oldPassword" := JString(f.oldPassword), "newPassword" := JString(f.newPassword)]
  }

  /** The page's password rules are the server's: a password form passes `validatePassword`
      exactly when its body passes `passwordSchema`. */
  lemma PasswordRulesAgree(f: PasswordForm, isEmail: string -> bool)
    ensures PasswordErrors(f) == map[] <==> Accepts(PasswordSchema, PasswordBody(f), isEmail)
  {
    PasswordAcceptsIff(PasswordBody(f), isEmail);
    assert PasswordBody(f).Keys == {"oldPassword", "newPassword"};
    if PasswordErrors(f) != map[] {
      var k :| k in PasswordErrors(f);
    }
  }

  /** A profile form the page lets through passes `updateSchema` exactly when the server's
      email rule accepts the address, and the server then stores a non-blank name and email. */
  lemma AcceptedProfileMeetsServer(f: ProfileForm, isEmail: string -> bool)
    requires ProfileErrors(f) == map[]
    ensures Accepts(UpdateSchema, ProfileBody(f), isEmail) <==> isEmail(f.email)
    ensures Trim(f.fullName) != "" && NormaliseEmail(f.email) != ""
  {
    assert "fullName" !in ProfileErrors(f) && "email" !in ProfileErrors(f);
    MatchNotBlank(f.email);
    UpdateAcceptsIff(ProfileBody(f), isEmail);
    assert ProfileBody(f).Keys == {"fullName", "email"};
  }

  class UserProfilePage {
    var formData: ProfileForm
    var passwordData: PasswordForm
    var errors: Errors

    constructor ()
      ensures formData == ProfileForm("", "") && passwordData == PasswordForm("", "") && errors == map[]
    {
      formData := ProfileForm("", "");
      passwordData := PasswordForm("", "");
      errors := map[];
    }

    /** The effect on `[user]`: refill the profile form from a present user. */
    method SyncWithUser(user: Option<SessionUser>)
      modifies this`formData
      ensures user.Some? ==> formData == FormFor(user.value)
      ensures user.None? ==> formData == old(formData)
    {
      if user.Some? {
        formData := ProfileForm(user.value.fullName.GetOr(""), user.value.email.GetOr(""));
      }
    }

    /** `validateProfile`. */
    method ValidateProfile() returns (ok: bool)
      modifies this`errors
      ensures errors == ProfileErrors(formData)
      ensures ok <==> errors == map[]
    {
      var newErrors: Errors := map[];
      if Trim(formData.fullName) == "" {
        newErrors := newErrors["fullName" := FullNameRequired];
      } else if |formData.fullName| < 3 {
        newErrors := newErrors["fullName" := FullNameTooShort];
      }
      ghost var e1 := newErrors;
      assert e1 == Put(map[], "fullName", FullNameMessage(formData.fullName));
      if formData.email == "" {
        newErrors := newErrors["email" := EmailRequired];
      } else if !Matches(formData.email) {
        newErrors := newErrors["email" := EmailInvalid];
      }
      assert newErrors == Put(e1, "email", EmailMessage(formData.email));
      errors := newErrors;
      ok := newErrors == map[];  // no key: `Object.keys(newErrors).length === 0`
    }

    /** `validatePassword`. */
    method ValidatePassword() returns (ok: bool)
      modifies this`errors
      ensures errors == PasswordErrors(passwordData)
      ensures ok <==> errors == map[]
    {
      var newErrors: Errors := map[];
      if passwordData.oldPassword == "" {
        newErrors := newErrors["oldPassword" := OldPasswordRequired];
      }
      ghost var e1 := newErrors;
      assert e1 == Put(map[], "oldPassword", OldPasswordMessage(passwordData.oldPassword));
      if passwordData.newPassword == "" {
        newErrors := newErrors["newPassword" := NewPasswordRequired];
      } else if |passwordData.newPassword| < 8 {
        newErrors := newErrors["newPassword" := NewPasswordTooShort];
      }
      assert newErrors == Put(e1, "newPassword", NewPasswordMessage(passwordData.newPassword));
      errors := newErrors;
      ok := newErrors == map[];  // no key: `Object.keys(newErrors).length === 0`
    }

    /** `updateProfile`: the body of `PUT /api/users/profile`, sent only when
        `validateProfile` passes. */
    method SubmitProfile() returns (request: Option<JsonObject>)
      modifies this`errors
      ensures errors == ProfileErrors(formData)
      ensures request.Some? <==> errors == map[]
      ensures request.Some? ==> request.value == ProfileBody(formData)
    {
      var ok := ValidateProfile();
      if !ok {
        return None;
      }
      request := Some(ProfileBody(formData));
    }

    /** `changePassword`: the body of `PUT /api/users/password`, sent only when
        `validatePassword` passes. */
    method SubmitPassword() returns (request: Option<JsonObject>)
      modifies this`errors
      ensures errors == PasswordErrors(passwordData)
      ensures request.Some? <==> errors == map[]
      ensures request.Some? ==> request.value == PasswordBody(passwordData)
    {
      var ok := ValidatePassword();
      if !ok {
        return None;
      }
      request := Some(PasswordBody(passwordData));
    }
  }
}
