/**
 * The login form's `validate` and `handleSubmit`. Unlike the other forms, the emptiness
 * check on the email trims it first; the password has no length rule.
 */
module LoginPage {
  import opened Wrappers
  import opened Strings
  import opened Validators
  import opened EmailPattern
  import opened FormErrors

  datatype LoginForm = LoginForm(email: string, password: string)

  // the messages shown under the fields
  const EmailRequired := "Email is required"
  const EmailInvalid := "Please enter a valid email"
  const PasswordRequired := "Password is required"

  /** The message under the email field, if any. */
  function EmailMessage(email: string): Option<string> {
    if Trim(email) == "" then Some(EmailRequired)
    else if !Matches(email) then Some(EmailInvalid)
    else None
  }

  function PasswordMessage(password: string): Option<string> {
    if password == "" then Some(PasswordRequired) else None
  }

  /** The map `validate` builds. */
  function LoginErrors(f: LoginForm): (errors: Errors)
    ensures errors.Keys <= {"email", "password"}
    ensures "email" in errors <==> !Matches(f.email)
    ensures "password" in errors <==> f.password == ""
    ensures "email" in errors ==>
      errors["email"] == if Trim(f.email) == "" then EmailRequired else EmailInvalid
    ensures "password" in errors ==> errors["password"] == PasswordRequired
  {
    assert Trim(f.email) == "" ==> !Matches(f.email) by {
      if Matches(f.email) { MatchNotBlank(f.email); }
    }
    Put(Put(map[], "email", EmailMessage(f.email)), "password", PasswordMessage(f.password))
  }

  /** The body `login(email, password)` posts. */
  function LoginBody(f: LoginForm): JsonObject {
    map["email" := JString(f.email), "password" := JString(f.password)]
  }

  /** A form the page lets through passes the server's schema exactly when the server's
      email rule accepts the address: the page asks nothing more of the password. */
  lemma AcceptedFormMeetsServer(f: LoginForm, isEmail: string -> bool)
    requires LoginErrors(f) == map[]
    ensures Accepts(LoginSchema, LoginBody(f), isEmail) <==> isEmail(f.email)
  {
    assert "email" !in LoginErrors(f) && "password" !in LoginErrors(f);
    MatchShape(f.email);
    LoginAcceptsIff(LoginBody(f), isEmail);
    assert LoginBody(f).Keys == {"email", "password"};
  }

  class LoginPage {
    var formData: LoginForm
    var errors: Errors

    constructor ()
      ensures formData == LoginForm("", "") && errors == map[]
    {
      formData := LoginForm("", "");
      errors := map[];
    }

    /** `validate`. */
    method Validate() returns (ok: bool)
      modifies this`errors
      ensures errors == LoginErrors(formData)
      ensures ok <==> errors == map[]
    {
      var newErrors: Errors := map[];
      if Trim(formData.email) == "" {
        newErrors := newErrors["email" := EmailRequired];
      } else if !Matches(formData.email) {
        newErrors := newErrors["email" := EmailInvalid];
      }
      ghost var e1 := newErrors;
      assert e1 == Put(map[], "email", EmailMessage(formData.email));
      if formData.password == "" {
        newErrors := newErrors["password" := PasswordRequired];
      }
      assert newErrors == Put(e1, "password", PasswordMessage(formData.password));
      errors := newErrors;
      ok := newErrors == map[];  // no key: `Object.keys(newErrors).length === 0`
    }

    /** `handleSubmit`: the body of the login request, sent only when `validate` passes. */
    method HandleSubmit() returns (request: Option<JsonObject>)
      modifies this`errors
      ensures errors == LoginErrors(formData)
      ensures request.Some? <==> errors == map[]
      ensures request.Some? ==> request.value == LoginBody(formData)
    {
      var ok := Validate();
      if ok {
        request := Some(LoginBody(formData));
      } else {
        request := None;
      }
    }
  }
}
