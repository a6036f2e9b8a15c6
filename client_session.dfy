/**
 * The user the client keeps after login, signup or `/api/auth/me`: the `user` object of the
 * response. After login or signup it has no `fullName`; after `/me` it has every public field.
 */
module ClientSession {
  import opened Wrappers
  import opened UserModel

  datatype SessionUser = SessionUser(fullName: Option<string>, email: Option<string>, role: Role)

  /** The user as the login and signup responses give it. */
  function FromLogin(email: string, role: Role): SessionUser {
    SessionUser(None, Some(email), role)
  }

  /** The user as `/api/auth/me` gives it. */
  function FromMe(u: PublicUser): SessionUser {
    SessionUser(Some(u.fullName), Some(u.email), u.role)
  }
}
