/**
 * The shapes of the JSON responses the handlers and gates send, and the token
 * `generateToken` issues. `errorResponse(res, status, message)` becomes a response whose body
 * is `ErrorBody`; a caught exception becomes status 500 with the fault that raised it.
 */
module Http {
  import opened UserModel
  import opened Validators

  /** A token signed for a user id; verification of a token is a parameter of the gates. */
  datatype Token = TokenFor(id: UserId)

  /** What throws inside a handler's `try`, reported as `err.message` with status 500. */
  datatype Fault =
    | SaveFailed(error: SaveError)  // `save()` or `create()` refused the document
    | NegativeSkip                  // `skip()` with a negative count
    | CastError                     // an `:id` that is not an ObjectId
    | NullUser                      // a property read on the `null` that `findById` returned

  /** The `error` field of a failure body. */
  datatype Message = Text(text: string) | Invalid(violation: Violation) | Internal(fault: Fault)

  /** The JSON body: `{ success: false, error }` or one of the success shapes. */
  datatype Body =
    | ErrorBody(error: Message)
    | Authenticated(token: Token, id: UserId, email: string, role: Role)
    | Me(user: PublicUser)
    | Acknowledged(message: string)
    | UserPage(users: seq<PublicUser>, total: nat, page: int, pages: nat)
    | Profile(fullName: string, email: string)

  datatype Response = Response(status: nat, body: Body)

  /** `errorResponse(res, status, message)`. */
  function Error(status: nat, message: Message): Response {
    Response(status, ErrorBody(message))
  }
}
