/**
 * The signup form's `validate` and `handleSubmit`: per-field messages collected into a fresh
 * error map that replaces the page's `errors`, and the request sent only when the map is
 * empty. Rendering and the network call itself are not modelled.
 */
module SignupPage {
  import opened Wrappers
  import opened Strings
  import opened UserModel
  import opened Validators
  import opened EmailPattern
  import opened FormErrors

  datatype SignupForm = SignupForm(fullName: string, email: string, password: string, confirmPassword: string)

  // the messages shown under the fields
  const FullNameRequired := "Full name is required"
  const FullNameTooShort := "At least 3 characters"
  const EmailRequired := "Email is required"
  const EmailInvalid := "Please enter a valid email"
  const PasswordRequired := "Password is required"
  const PasswordTooShort := "At least 8 characters"
  const PasswordsDiffer := "Passwords do not match"

  /** The message under the name field, if any. */
  function FullNameMessage(fullName: string): Option<string> {
    if Trim(fullName) == "" then Some(FullNameRequired)
    else if |fullName| < 3 then Some(FullNameTooShort)
    else None
  }

  function EmailMessage(email: string): Option<string> {
    if email == "" then Some(EmailRequired)
    else if !Matches(email) then Some(EmailInvalid)
    else None
  }

  function PasswordMessage(password: string): Option<string> {
    if password == "" then Some(PasswordRequired)
    else if |password| < 8 then Some(PasswordTooShort)
    else None
  }

  function ConfirmMessage(password: string, confirmPassword: string): Option<string> {
    if password != confirmPassword then Some(PasswordsDiffer) else None
  }

  /** The map `validate` builds. Each field has at most one message; the password checks
      and the confirmation check are independent. */
  function SignupErrors(f: SignupForm): (errors: Errors)
    ensures errors.Keys <= {"fullName", "email", "password", "confirmPassword"}
    ensures "fullName" in errors <==> |f.fullName| < 3 || Trim(f.fullName) == ""
    ensures "email" in errors <==> !Matches(f.email)
    ensures "password" in errors <==> |f.password| < 8
    ensures "confirmPassword" in errors <==> f.password != f.confirmPassword
    ensures "fullName" in errors ==>
      errors["fullName"] == if Trim(f.fullName) == "" then FullNameRequired else FullNameTooShort
    ensures "email" in errors ==>
      errors["email"] == if f.email == "" then EmailRequired else EmailInvalid
    ensures "password" in errors ==>
      errors["password"] == if f.password == "" then PasswordRequired else PasswordTooShort
    ensures "confirmPassword" in errors ==> errors["confirmPassword"] == PasswordsDiffer
  {
    var e1 := Put(map[], "fullName", FullNameMessage(f.fullName));
    var e2 := Put(e1, "email", EmailMessage(f.email));
    var e3 := Put(e2, "password", PasswordMessage(f.password));
    Put(e3, "confirmPassword", ConfirmMessage(f.password, f.confirmPassword))
  }

  /** The body `signup(fullName, email, password)` posts. */
  function SignupBody(f: SignupForm): JsonObject {
    map["fullName" := JString(f.fullName), "email" := JString(f.email), "password" := JString(f.password)]
  }

  /** A form the page lets through passes the server's schema unless the server's email
      rule refuses the address, and the server then stores a non-blank name and email. */
  lemma AcceptedFormMeetsServer(f: SignupForm, isEmail: string -> bool)
    requires SignupErrors(f) == map[]
    ensures Accepts(SignupSchema, SignupBody(f), isEmail) <==> isEmail(f.email)
    ensures Trim(f.fullName) != "" && NormaliseEmail(f.email) != ""
  {
    assert "fullName" !in SignupErrors(f) && "email" !in SignupErrors(f) && "password" !in SignupErrors(f);
    MatchNotBlank(f.email);
    SignupAcceptsIff(SignupBody(f), isEmail);
    assert SignupBody(f).Keys == {"fullName", "email", "password"};
  }

  /** The page: its form fields and the messages shown under them. */
  class SignupPage {
    var formData: SignupForm
    var errors: Errors

    constructor ()
      ensures formData == SignupForm("", "", "", "") && errors == map[]
    {
      formData := SignupForm("", "", "", "");
      errors := map[];
    }

    /** `validate`: fill `newErrors` field by field, store it, report whether it is empty. */
    method Validate() returns (ok: bool)
      modifies this`errors
      ensures errors == SignupErrors(formData)
      ensures ok <==> errors == map[]
    {
      var newErrors: Errors := map[];
      if Trim(formData.fullName) == "" {
        newErrors := newErrors["fullName" := FullNameRequired];
      } else if |formData.fullName| < 3 {
        newErrors := newErrors["fullName" := FullNameTooShort];
      }
      ghost var e1 := newErrors;
      assert e1 == Put(map[], "fullName", FullNameMessage(formData.fullName));
      if formData.email == "" {
        newErrors := newErrors["email" := EmailRequired];
      } else if !Matches(formData.email) {
        newErrors := newErrors["email" := EmailInvalid];
      }
      ghost var e2 := newErrors;
      assert e2 == Put(e1, "email", EmailMessage(formData.email));
      if formData.password == "" {
        newErrors := newErrors["password" := PasswordRequired];
      } else if |formData.password| < 8 {
        newErrors := newErrors["password" := PasswordTooShort];
      }
      ghost var e3 := newErrors;
      assert e3 == Put(e2, "password", PasswordMessage(formData.password));
      if formData.password != formData.confirmPassword {
        newErrors := newErrors["confirmPassword" := PasswordsDiffer];
      }
      assert newErrors == Put(e3, "confirmPassword", ConfirmMessage(formData.password, formData.confirmPassword));
      errors := newErrors;
      ok := newErrors == map[];  // no key: `Object.keys(newErrors).length === 0`
    }

    /** `handleSubmit`: the body of the signup request, sent only when `validate` passes. */
    method HandleSubmit() returns (request: Option<JsonObject>)
      modifies this`errors
      ensures errors == SignupErrors(formData)
      ensures request.Some? <==> errors == map[]
      ensures request.Some? ==> request.value == SignupBody(formData)
    {
      var ok := Validate();
      if ok {
        request := Some(SignupBody(formData));
      } else {
        request := None;
      }
    }
  }
}
