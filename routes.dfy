/**
 * The routers mounted at `/api/auth` and `/api/users`: a fixed table from endpoint to the
 * gates that run before its handler, and the dispatch of a request through that table.
 * Matching a URL against a route pattern is not modelled: a request arrives with its route,
 * and a `:id` parameter with it.
 */
module Routes {
  import opened Wrappers
  import opened UserModel
  import opened Validators
  import opened Http
  import opened AuthMiddleware
  import opened AuthController
  import opened UserController

  datatype Verb = Get | Post | Put

  /** A method and a full path pattern. */
  datatype Route = Route(verb: Verb, path: string)

  datatype Gate = ProtectGate | AdminGate

  datatype Handler =
    | SignupHandler | LoginHandler | GetMeHandler | LogoutHandler
    | ListUsersHandler | ActivateHandler | DeactivateHandler | UpdateProfileHandler | ChangePasswordHandler

  /** The middleware registered for a route, in order, then its handler. */
  datatype Chain = Chain(gates: seq<Gate>, handler: Handler)

  /** `authRoutes.js`, mounted at `/api/auth`. */
  const AuthRoutes: map<Route, Chain> := map[
    Route(Post, "/api/auth/signup") := Chain([], SignupHandler),
    Route(Post, "/api/auth/login") := Chain([], LoginHandler),
    Route(Get, "/api/auth/me") := Chain([ProtectGate], GetMeHandler),
    Route(Post, "/api/auth/logout") := Chain([ProtectGate], LogoutHandler)
  ]

  /** `userRoutes.js`, mounted at `/api/users`. */
  const UserRoutes: map<Route, Chain> := map[
    Route(Get, "/api/users") := Chain([ProtectGate, AdminGate], ListUsersHandler),
    Route(Put, "/api/users/:id/activate") := Chain([ProtectGate, AdminGate], ActivateHandler),
    Route(Put, "/api/users/:id/deactivate") := Chain([ProtectGate, AdminGate], DeactivateHandler),
    Route(Put, "/api/users/profile") := Chain([ProtectGate], UpdateProfileHandler),
    Route(Put, "/api/users/password") := Chain([ProtectGate], ChangePasswordHandler)
  ]

  const Table: map<Route, Chain> := AuthRoutes + UserRoutes

  /** The handlers that only an admin may reach. */
  predicate AdminHandler(h: Handler) {
    h == ListUsersHandler || h == ActivateHandler || h == DeactivateHandler
  }

  /** The handlers that read the request's user. */
  predicate CallerHandler(h: Handler) {
    !(h == SignupHandler || h == LoginHandler)
  }

  /** The shape of the table: signup and login are open; every other handler runs after
      `protect`; the admin handlers run after `protect` and then `adminOnly`, and no other
      handler runs after `adminOnly`. */
  lemma TableShape(route: Route)
    requires route in Table
    ensures var c := Table[route];
      && (c.gates == [] <==> !CallerHandler(c.handler))
      && (CallerHandler(c.handler) ==> c.gates[0] == ProtectGate)
      && (AdminHandler(c.handler) <==> c.gates == [ProtectGate, AdminGate])
      && (!AdminHandler(c.handler) && CallerHandler(c.handler) ==> c.gates == [ProtectGate])
  {
  }

  /** The incoming request: the `Authorization` header, the parsed body, `req.query.page`
      and `req.params.id`. */
  datatype Request = Request(authorization: Option<string>, body: JsonObject, page: Option<string>, id: IdParam)

  /** Runs a route's gates in order, each seeing the user the ones before it resolved. */
  function RunGates(gates: seq<Gate>, users: seq<UserRecord>, header: Option<string>,
                    verify: string -> Option<UserId>, user: Option<PublicUser>): (o: Outcome)
    ensures gates == [] ==> o == Continue(user)
    ensures o.Halt? ==> gates != []
    decreases |gates|
  {
    if gates == [] then Continue(user)
    else
      var step := match gates[0]
        case ProtectGate => Protect(users, header, verify)
        case AdminGate => AdminOnly(user);
      match step
      case Halt(r) => Halt(r)
      case Continue(u) => RunGates(gates[1..], users, header, verify, u)
  }

  /** A route that runs `protect` first admits only requests whose token names a stored
      user, and hands its handler that user. */
  lemma {:induction false} ProtectedRouteHasCaller(route: Route, users: seq<UserRecord>, header: Option<string>,
                                                   verify: string -> Option<UserId>)
    requires route in Table && CallerHandler(Table[route].handler)
    ensures var o := RunGates(Table[route].gates, users, header, verify, None);
      && (o.Continue? ==> Protect(users, header, verify).Continue? && o.user == Protect(users, header, verify).user)
      && (Protect(users, header, verify).Halt? ==> o == Protect(users, header, verify))
  {
    TableShape(route);
    var gates := Table[route].gates;
    var p := Protect(users, header, verify);
    if p.Continue? && gates == [ProtectGate, AdminGate] {
      assert gates[1..] == [AdminGate];
      assert RunGates(gates[1..], users, header, verify, p.user) == AdminOnly(p.user) by {
        assert gates[1..][1..] == [];
      }
    } else if p.Continue? {
      assert gates[1..] == [];
    }
  }

  /** No admin endpoint lets a non-admin through: whatever the request, it reaches the
      handler only with a token naming a stored admin. */
  lemma {:induction false} NoAdminEndpointForNonAdmin(route: Route, users: seq<UserRecord>, header: Option<string>,
                                                      verify: string -> Option<UserId>)
    requires route in Table && AdminHandler(Table[route].handler)
    ensures var o := RunGates(Table[route].gates, users, header, verify, None);
      o.Continue? ==>
        && BearerToken(header).Some? && verify(BearerToken(header).value).Some?
        && exists i :: 0 <= i < |users| && users[i].id == verify(BearerToken(header).value).value
                       && users[i].role == Admin
    ensures var o := RunGates(Table[route].gates, users, header, verify, None);
      o.Halt? ==> o.response in {NoToken, TokenFailed, UnknownUser, NotAdmin}
    ensures var o := RunGates(Table[route].gates, users, header, verify, None);
      Protect(users, header, verify).Halt? ==> o == Protect(users, header, verify)
    ensures var o := RunGates(Table[route].gates, users, header, verify, None);
      && BearerToken(header).Some? && verify(BearerToken(header).value).Some?
      && IndexOfId(users, verify(BearerToken(header).value).value).Some?
      && users[IndexOfId(users, verify(BearerToken(header).value).value).value].role != Admin
      ==> o == Halt(NotAdmin)
  {
    TableShape(route);
    var gates := Table[route].gates;
    var p := Protect(users, header, verify);
    assert gates[1..] == [AdminGate];
    assert gates[1..][1..] == [];
    if p.Continue? {
      var i :| 0 <= i < |users| && p.user.value == Public(users[i]);
      assert RunGates(gates, users, header, verify, None) == AdminOnly(p.user);
    }
  }

  /** Dispatches a request along its route: the gates, then the handler, which acts for the
      user `protect` resolved. */
  method Handle(db: Store, route: Route, req: Request, verify: string -> Option<UserId>,
                isEmail: string -> bool, now: int) returns (resp: Response)
    requires db.Valid() && route in Table
    modifies db
    ensures db.Valid()
    ensures var o := RunGates(Table[route].gates, old(db.users), req.authorization, verify, None);
      o.Halt? ==> resp == o.response && db.users == old(db.users) && db.nextId == old(db.nextId)
    ensures var o := RunGates(Table[route].gates, old(db.users), req.authorization, verify, None);
            var p := Protect(old(db.users), req.authorization, verify);
      o.Continue? ==>
        match Table[route].handler
        case SignupHandler => SignupSpec(old(db.users), old(db.nextId), db.users, db.nextId, req.body, isEmail, resp)
        case LoginHandler => LoginSpec(old(db.users), db.users, req.body, isEmail, now, resp)
        case GetMeHandler => p.Continue? && resp == GetMe(p.user.value) && db.users == old(db.users)
        case LogoutHandler => resp == Logout() && db.users == old(db.users)
        case ListUsersHandler => resp == GetAllUsers(old(db.users), req.page) && db.users == old(db.users)
        case ActivateHandler => StatusSpec(old(db.users), db.users, req.id, Active, "User activated", resp)
        case DeactivateHandler => StatusSpec(old(db.users), db.users, req.id, Inactive, "User deactivated", resp)
        case UpdateProfileHandler =>
          p.Continue? && UpdateProfileSpec(old(db.users), db.users, p.user.value.id, req.body, isEmail, resp)
        case ChangePasswordHandler =>
          p.Continue? && ChangePasswordSpec(old(db.users), db.users, p.user.value.id, req.body, isEmail, resp)
    ensures Table[route].handler != SignupHandler ==> db.nextId == old(db.nextId)
  {
    var chain := Table[route];
    var outcome := RunGates(chain.gates, db.users, req.authorization, verify, None);
    if outcome.Halt? {
      resp := outcome.response;
      return;
    }
    if CallerHandler(chain.handler) {
      ProtectedRouteHasCaller(route, db.users, req.authorization, verify);
    }
    match chain.handler
    case SignupHandler =>
      resp := Signup(db, req.body, isEmail);
    case LoginHandler =>
      resp := Login(db, req.body, isEmail, now);
    case GetMeHandler =>
      resp := GetMe(outcome.user.value);
    case LogoutHandler =>
      resp := Logout();
    case ListUsersHandler =>
      resp := GetAllUsers(db.users, req.page);
    case ActivateHandler =>
      resp := ActivateUser(db, req.id);
    case DeactivateHandler =>
      resp := DeactivateUser(db, req.id);
    case UpdateProfileHandler =>
      resp := UpdateProfile(db, outcome.user.value.id, req.body, isEmail);
    case ChangePasswordHandler =>
      resp := ChangePassword(db, outcome.user.value.id, req.body, isEmail);
  }
}
