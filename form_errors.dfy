/**
 * The error maps the client forms build: a field name to the one message shown under it.
 */
module FormErrors {
  import opened Wrappers

  type Errors = map<string, string>

  /** `if (message) newErrors[key] = message`: a field's message, when it has one. */
  function Put(errors: Errors, key: string, message: Option<string>): Errors {
    if message.Some? then errors[key := message.value] else errors
  }
}
