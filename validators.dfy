/**
 * The request-body schemas, as the subset of Joi they use: an object schema is a list of keys,
 * each optional or `required()`, each a `string()` with `min(n)` and `email()` rules. Validation
 * stops at the first problem (Joi's `abortEarly` default); keys are checked in schema order,
 * and keys the schema does not name are refused after that. What `email()` accepts is a
 * parameter, `isEmail`.
 */
module Validators {
  import opened Wrappers

  /** A JSON value in a parsed body: a string, or anything else (number, boolean, null,
      array, object). */
  datatype JsonValue = JString(text: string) | JOther

  /** A parsed request body: the keys present, with their values. */
  type JsonObject = map<string, JsonValue>

  /** A rule of `Joi.string()`. */
  datatype Rule = MinLength(min: nat) | EmailFormat

  /** One key of `Joi.object({ ... })`: `Joi.string()` followed by its rules. */
  datatype KeySpec = KeySpec(key: string, required: bool, rules: seq<Rule>)

  type Schema = seq<KeySpec>

  /** What is wrong with one key's value. */
  datatype Problem = Required | NotAString | Empty | TooShort(min: nat) | NotAnEmail

  /** The first entry of `error.details`. */
  datatype Violation = KeyViolation(key: string, problem: Problem) | UnknownKeys(keys: set<string>)

  predicate Satisfies(rule: Rule, s: string, isEmail: string -> bool) {
    match rule
    case MinLength(n) => |s| >= n
    case EmailFormat => isEmail(s)
  }

  /** The first rule `s` breaks. */
  function RuleProblem(rules: seq<Rule>, s: string, isEmail: string -> bool): (p: Option<Problem>)
    ensures p.None? <==> forall i :: 0 <= i < |rules| ==> Satisfies(rules[i], s, isEmail)
    ensures p.Some? ==> exists i :: 0 <= i < |rules| && !Satisfies(rules[i], s, isEmail)
                                    && p.value == (if rules[i].MinLength? then TooShort(rules[i].min) else NotAnEmail)
  {
    if rules == [] then None
    else if !Satisfies(rules[0], s, isEmail) then
      Some(if rules[0].MinLength? then TooShort(rules[0].min) else NotAnEmail)
    else
      var p := RuleProblem(rules[1..], s, isEmail);
      assert forall i :: 1 <= i < |rules| ==> rules[i] == rules[1..][i - 1];
      p
  }

  /** What one key of a schema finds wrong with a body: absence only matters for a required
      key; a present value must be a string, not empty (Joi refuses `""` unless `allow("")`),
      and must obey every rule. */
  function KeyProblem(spec: KeySpec, body: JsonObject, isEmail: string -> bool): Option<Problem> {
    if spec.key !in body then
      if spec.required then Some(Required) else None
    else
      match body[spec.key]
      case JOther => Some(NotAString)
      case JString(s) => if s == "" then Some(Empty) else RuleProblem(spec.rules, s, isEmail)
  }

  /** The reference reading of one key: what a body must look like for that key to pass. */
  predicate KeyAccepts(spec: KeySpec, body: JsonObject, isEmail: string -> bool) {
    && (spec.required ==> spec.key in body)
    && (spec.key in body ==>
          && body[spec.key].JString?
          && body[spec.key].text != ""
          && forall i :: 0 <= i < |spec.rules| ==> Satisfies(spec.rules[i], body[spec.key].text, isEmail))
  }

  lemma KeyProblemNoneIff(spec: KeySpec, body: JsonObject, isEmail: string -> bool)
    ensures KeyProblem(spec, body, isEmail).None? <==> KeyAccepts(spec, body, isEmail)
  {
  }

  /** The keys a schema names. */
  function Keys(schema: Schema): set<string> {
    set i | 0 <= i < |schema| :: schema[i].key
  }

  /** The first key, in schema order, with a problem. */
  function FirstKeyViolation(schema: Schema, body: JsonObject, isEmail: string -> bool): (v: Option<Violation>)
    ensures v.None? <==> forall i :: 0 <= i < |schema| ==> KeyAccepts(schema[i], body, isEmail)
    ensures v.Some? ==> exists i :: 0 <= i < |schema| && v.value.KeyViolation?
                                    && v.value.key == schema[i].key
                                    && KeyProblem(schema[i], body, isEmail) == Some(v.value.problem)
                                    && forall j :: 0 <= j < i ==> KeyAccepts(schema[j], body, isEmail)
  {
    if schema == [] then None
    else
      KeyProblemNoneIff(schema[0], body, isEmail);
      match KeyProblem(schema[0], body, isEmail)
      case Some(p) => Some(KeyViolation(schema[0].key, p))
      case None =>
        var v := FirstKeyViolation(schema[1..], body, isEmail);
        assert forall i :: 1 <= i < |schema| ==> schema[i] == schema[1..][i - 1];
        if v.Some? then
          var i :| 0 <= i < |schema[1..]| && v.value.KeyViolation?
                   && v.value.key == schema[1..][i].key
                   && KeyProblem(schema[1..][i], body, isEmail) == Some(v.value.problem)
                   && forall j :: 0 <= j < i ==> KeyAccepts(schema[1..][j], body, isEmail);
          assert forall j :: 0 <= j < i + 1 ==> KeyAccepts(schema[j], body, isEmail) by {
            forall j | 0 <= j < i + 1 ensures KeyAccepts(schema[j], body, isEmail) {
              if j > 0 {
                assert schema[j] == schema[1..][j - 1];
              }
            }
          }
          v
        else
          v
  }

  /** `schema.validate(body).error`, reduced to its first detail. */
  function Validate(schema: Schema, body: JsonObject, isEmail: string -> bool): Option<Violation> {
    match FirstKeyViolation(schema, body, isEmail)
    case Some(v) => Some(v)
    case None =>
      var unknown := body.Keys - Keys(schema);
      if unknown != {} then Some(UnknownKeys(unknown)) else None
  }

  predicate Accepts(schema: Schema, body: JsonObject, isEmail: string -> bool) {
    Validate(schema, body, isEmail).None?
  }

  /** A body passes exactly when every key passes and it has no key the schema does not name. */
  lemma AcceptsIff(schema: Schema, body: JsonObject, isEmail: string -> bool)
    ensures Accepts(schema, body, isEmail)
        <==> (forall i :: 0 <= i < |schema| ==> KeyAccepts(schema[i], body, isEmail))
             && body.Keys <= Keys(schema)
  {
    if !(body.Keys <= Keys(schema)) {
      var x :| x in body.Keys && x !in Keys(schema);
      assert x in body.Keys - Keys(schema);
    } else {
      assert body.Keys - Keys(schema) == {};
    }
  }

  /** A refusal names the first failing key of the schema, or the keys it does not name. */
  lemma RefusalNamesFirstFailingKey(schema: Schema, body: JsonObject, isEmail: string -> bool, i: nat)
    requires i < |schema| && !KeyAccepts(schema[i], body, isEmail)
    requires forall j :: 0 <= j < i ==> KeyAccepts(schema[j], body, isEmail)
    requires forall j, k :: 0 <= j < k < |schema| ==> schema[j].key != schema[k].key
    ensures Validate(schema, body, isEmail) == Some(KeyViolation(schema[i].key, KeyProblem(schema[i], body, isEmail).value))
  {
    var v := FirstKeyViolation(schema, body, isEmail);
    assert v.Some?;
    var k :| 0 <= k < |schema| && v.value.KeyViolation? && v.value.key == schema[k].key
             && KeyProblem(schema[k], body, isEmail) == Some(v.value.problem)
             && forall j :: 0 <= j < k ==> KeyAccepts(schema[j], body, isEmail);
    KeyProblemNoneIff(schema[k], body, isEmail);
    KeyProblemNoneIff(schema[i], body, isEmail);
    assert k == i;
  }

  // ---------------------------------------------------------------- the schemas of validators.js

  const SignupSchema: Schema := [
    KeySpec("fullName", true, [MinLength(3)]),
    KeySpec("email", true, [EmailFormat]),
    KeySpec("password", true, [MinLength(8)])
  ]

  const LoginSchema: Schema := [
    KeySpec("email", true, [EmailFormat]),
    KeySpec("password", true, [])
  ]

  /** The text of a string-valued key, `""` otherwise. */
  function StringAt(body: JsonObject, key: string): string {
    if key in body && body[key].JString? then body[key].text else ""
  }

  /** A key that is present and holds a string. */
  predicate HasString(body: JsonObject, key: string) {
    key in body && body[key].JString?
  }

  /** `signupSchema` accepts exactly the bodies with the three keys and no other, a full name of
      at least three characters, an email `isEmail` accepts, and a password of at least eight. */
  lemma SignupAcceptsIff(body: JsonObject, isEmail: string -> bool)
    ensures Accepts(SignupSchema, body, isEmail)
        <==> && body.Keys == {"fullName", "email", "password"}
             && HasString(body, "fullName") && |StringAt(body, "fullName")| >= 3
             && HasString(body, "email") && StringAt(body, "email") != "" && isEmail(StringAt(body, "email"))
             && HasString(body, "password") && |StringAt(body, "password")| >= 8
  {
    AcceptsIff(SignupSchema, body, isEmail);
    assert Keys(SignupSchema) == {"fullName", "email", "password"} by {
      assert SignupSchema[0].key == "fullName";
      assert SignupSchema[1].key == "email";
      assert SignupSchema[2].key == "password";
    }
    var k0, k1, k2 := KeyAccepts(SignupSchema[0], body, isEmail), KeyAccepts(SignupSchema[1], body, isEmail),
                      KeyAccepts(SignupSchema[2], body, isEmail);
    assert (forall i :: 0 <= i < |SignupSchema| ==> KeyAccepts(SignupSchema[i], body, isEmail)) <==> k0 && k1 && k2;
    assert SignupSchema[0].rules[0] == MinLength(3) && SignupSchema[2].rules[0] == MinLength(8);
    assert SignupSchema[1].rules[0] == EmailFormat;
    assert k0 <==> HasString(body, "fullName") && |StringAt(body, "fullName")| >= 3;
    assert k1 <==> HasString(body, "email") && StringAt(body, "email") != "" && isEmail(StringAt(body, "email"));
    assert k2 <==> HasString(body, "password") && |StringAt(body, "password")| >= 8;
    if k0 && k1 && k2 {
      assert {"fullName", "email", "password"} <= body.Keys;
    }
  }

  /** `loginSchema` accepts exactly the bodies with an email `isEmail` accepts and a non-empty
      password, and no other key: there is no minimum length on the password. */
  lemma LoginAcceptsIff(body: JsonObject, isEmail: string -> bool)
    ensures Accepts(LoginSchema, body, isEmail)
        <==> && body.Keys == {"email", "password"}
             && HasString(body, "email") && StringAt(body, "email") != "" && isEmail(StringAt(body, "email"))
             && HasString(body, "password") && StringAt(body, "password") != ""
  {
    AcceptsIff(LoginSchema, body, isEmail);
    assert Keys(LoginSchema) == {"email", "password"} by {
      assert LoginSchema[0].key == "email";
      assert LoginSchema[1].key == "password";
    }
    var k0, k1 := KeyAccepts(LoginSchema[0], body, isEmail), KeyAccepts(LoginSchema[1], body, isEmail);
    assert (forall i :: 0 <= i < |LoginSchema| ==> KeyAccepts(LoginSchema[i], body, isEmail)) <==> k0 && k1;
    assert LoginSchema[0].rules[0] == EmailFormat;
    assert k0 <==> HasString(body, "email") && StringAt(body, "email") != "" && isEmail(StringAt(body, "email"));
    assert k1 <==> HasString(body, "password") && StringAt(body, "password") != "";
    if k0 && k1 {
      assert {"email", "password"} <= body.Keys;
    }
  }

  /** A signup body without one of its three keys is refused with `Required` for the first
      missing key, whatever the other keys hold. */
  lemma SignupMissingKeyRefused(body: JsonObject, isEmail: string -> bool, i: nat)
    requires i < 3 && SignupSchema[i].key !in body
    requires forall j :: 0 <= j < i ==> KeyAccepts(SignupSchema[j], body, isEmail)
    ensures Validate(SignupSchema, body, isEmail) == Some(KeyViolation(SignupSchema[i].key, Required))
  {
    RefusalNamesFirstFailingKey(SignupSchema, body, isEmail, i);
  }
}
