/**
 * The two gates a request passes before its handler: `protect` takes a bearer token from the
 * `Authorization` header, verifies it and loads the user it names; `adminOnly` lets only an
 * admin through. Token verification is a parameter, `verify`, that gives the id a valid token
 * was signed for. Neither gate looks at a user's `status`.
 */
module AuthMiddleware {
  import opened Wrappers
  import opened Strings
  import opened UserModel
  import opened Http

  /** The token of `Authorization: Bearer <token>`: the header must start with `Bearer`, and the
      token is the second piece of the header split on single spaces. A looser reading of the
      bearer scheme of section 2.1 of RFC 6750: the scheme name is case-sensitive and may run
      on (`BearerX t`), and two spaces leave an empty second piece. */
  function BearerToken(header: Option<string>): (token: Option<string>)
    ensures token.Some? ==> header.Some? && StartsWith(header.value, "Bearer")
    ensures token.Some? ==> token.value != "" && ' ' !in token.value
    ensures token.Some? ==> |Split(header.value, ' ')| >= 2 && token.value == Split(header.value, ' ')[1]
    ensures (header.Some? && StartsWith(header.value, "Bearer") && |Split(header.value, ' ')| >= 2 &&
             Split(header.value, ' ')[1] != "") ==> token == Some(Split(header.value, ' ')[1])
  {
    if header.Some? && StartsWith(header.value, "Bearer") then
      var pieces := Split(header.value, ' ');
      if |pieces| >= 2 && pieces[1] != "" then
        SplitPieceLacksSeparator(header.value, ' ', 1);
        Some(pieces[1])
      else None
    else
      None
  }

  /** Any header made of space-free pieces, the first starting with `Bearer` and the second
      non-empty, yields its second piece; a well-formed header is one case. */
  lemma BearerOfPieces(pieces: seq<string>)
    requires |pieces| >= 2 && StartsWith(pieces[0], "Bearer") && pieces[1] != ""
    requires forall i :: 0 <= i < |pieces| ==> ' ' !in pieces[i]
    ensures BearerToken(Some(Join(pieces, ' '))) == Some(pieces[1])
  {
    SplitJoin(pieces, ' ');
    var h := Join(pieces, ' ');
    assert h == pieces[0] + [' '] + Join(pieces[1..], ' ');
    assert h[..|pieces[0]|] == pieces[0];
    assert h[..6] == pieces[0][..6];
  }

  /** `Bearer <token>` round-trips for every token without a space. */
  lemma BearerRoundTrip(token: string)
    requires token != "" && ' ' !in token
    ensures BearerToken(Some("Bearer " + token)) == Some(token)
  {
    BearerOfPieces(["Bearer", token]);
    assert Join(["Bearer", token], ' ') == "Bearer " + token;
  }

  /** The scheme name is compared case-sensitively: `bearer <token>` carries no token. */
  lemma LowerCaseSchemeRefused(rest: string)
    ensures BearerToken(Some("bearer" + rest)) == None
  {
    assert ("bearer" + rest)[0] != "Bearer"[0];
  }

  /** Two spaces after the scheme leave the second piece empty: no token. */
  lemma DoubleSpaceRefused(token: string)
    ensures BearerToken(Some("Bearer  " + token)) == None
  {
    var h := "Bearer  " + token;
    IndexOfFirst(h, ' ', 6);
    assert h[7..][0] == ' ';
    IndexOfFirst(h[7..], ' ', 0);
    assert h[..6] == "Bearer";
    assert Split(h, ' ') == [h[..6]] + Split(h[7..], ' ');
    assert Split(h[7..], ' ') == [h[7..][..0]] + Split(h[7..][1..], ' ');
    assert Split(h, ' ')[1] == "";
  }

  /** What a gate decides: go on to the next step with the request's user, or answer now. */
  datatype Outcome = Continue(user: Option<PublicUser>) | Halt(response: Response)

  const NoToken: Response := Error(401, Text("Not authorized, no token"))
  const TokenFailed: Response := Error(401, Text("Not authorized, token failed"))
  const UnknownUser: Response := Error(401, Text("User not found"))
  const NotAdmin: Response := Error(403, Text("Not authorized as admin"))

  /** `protect`: no token, a token that does not verify, and a verified id with no record are
      each refused with 401; otherwise the request's user is the record, without password. */
  function Protect(users: seq<UserRecord>, header: Option<string>, verify: string -> Option<UserId>): (o: Outcome)
    ensures BearerToken(header).None? ==> o == Halt(NoToken)
    ensures BearerToken(header).Some? && verify(BearerToken(header).value).None? ==> o == Halt(TokenFailed)
    ensures (BearerToken(header).Some? && verify(BearerToken(header).value).Some? &&
             IndexOfId(users, verify(BearerToken(header).value).value).None?) ==> o == Halt(UnknownUser)
    ensures o.Halt? ==> o.response in {NoToken, TokenFailed, UnknownUser}
    ensures o.Continue? <==>
      && BearerToken(header).Some? && verify(BearerToken(header).value).Some?
      && exists i :: 0 <= i < |users| && users[i].id == verify(BearerToken(header).value).value
    ensures o.Continue? ==>
      && o.user.Some? && o.user.value.id == verify(BearerToken(header).value).value
      && exists i :: 0 <= i < |users| && o.user.value == Public(users[i])
  {
    match BearerToken(header)
    case None => Halt(NoToken)
    case Some(token) =>
      match verify(token)
      case None => Halt(TokenFailed)
      case Some(id) =>
        match IndexOfId(users, id)
        case None => Halt(UnknownUser)
        case Some(i) => Continue(Some(Public(users[i])))
  }

  /** A token that verifies to a stored user's id, sent as `Bearer <token>`, lets the request
      through as that user. */
  lemma VerifiedTokenAdmits(users: seq<UserRecord>, token: string, verify: string -> Option<UserId>, i: nat)
    requires token != "" && ' ' !in token
    requires UniqueIds(users) && i < |users| && verify(token) == Some(users[i].id)
    ensures Protect(users, Some("Bearer " + token), verify) == Continue(Some(Public(users[i])))
  {
    BearerRoundTrip(token);
    IndexOfIdUnique(users, i);
  }

  /** A caller's status has no say in `protect`: deactivating a user changes nothing about
      which requests get through, or as whom. */
  lemma ProtectIgnoresStatus(users: seq<UserRecord>, i: nat, s: Status, header: Option<string>,
                             verify: string -> Option<UserId>)
    requires i < |users|
    ensures var o, o' := Protect(users, header, verify), Protect(users[i := users[i].(status := s)], header, verify);
      && o.Halt? == o'.Halt?
      && (o.Halt? ==> o.response == o'.response)
      && (o.Continue? ==> o.user.value.(status := s) == o'.user.value.(status := s))
  {
    match BearerToken(header)
    case None =>
    case Some(token) =>
      match verify(token)
      case None =>
      case Some(id) =>
        IndexOfIdKeptByUpdate(users, i, users[i].(status := s), id);
  }

  /** `adminOnly`: only a request whose user is an admin goes on. */
  function AdminOnly(user: Option<PublicUser>): (o: Outcome)
    ensures o.Continue? <==> user.Some? && user.value.role == Admin
    ensures o.Continue? ==> o.user == user
    ensures o.Halt? ==> o.response == NotAdmin
  {
    if user.Some? && user.value.role == Admin then Continue(user) else Halt(NotAdmin)
  }
}
