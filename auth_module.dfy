/**
 * `AuthModule`: the two routes of the auth controller, with the middleware applied to
 * `auth/signinByToken` only, and the flows that run through them.
 */
module AuthModule {
  import opened Wrappers
  import opened Http
  import opened UserSchema
  import opened TokenCodec
  import opened Express
  import AuthService
  import AuthController
  import AuthMiddleware

  /** `consumer.apply(AuthMiddleware).forRoutes('auth/signinByToken')` */
  const MIDDLEWARE_ROUTES: set<string> := {"auth/signinByToken"}

  datatype Route = SignInRoute(body: AuthService.SignInDto) | SignInByTokenRoute

  function Path(route: Route): (path: string) {
    match route
    case SignInRoute(_) => "auth/signin"
    case SignInByTokenRoute => "auth/signinByToken"
  }

  /** Whether a route runs through the middleware before its handler. */
  predicate MiddlewareApplies(route: Route)
    ensures MiddlewareApplies(route) <==> route.SignInByTokenRoute?
  {
    Path(route) in MIDDLEWARE_ROUTES
  }

  /**
   * One request through the auth routes: the middleware first where it applies, and the handler
   * only once the middleware has called `next`. The sign-in route never looks at the header.
   */
  method Dispatch(
    route: Route, req: Request, db: Backend,
    compare: (string, string) -> Attempt<bool>, sign: Claims -> Attempt<string>, verify: string -> Option<Claims>
  ) returns (r: Outcome<AuthService.Session>)
    requires EmailUnique(db.users)
    modifies req
    ensures req.authorization == old(req.authorization)
    ensures route.SignInRoute? ==>
      && r == AuthService.SignIn(db, compare, sign, route.body)
      && req.currentUser == old(req.currentUser) && req.nextCalls == old(req.nextCalls)
    ensures route.SignInByTokenRoute? ==>
      match AuthMiddleware.Authenticate(old(req.authorization), verify)
      case Reject(e) =>
        r == Thrown(e) && req.currentUser == old(req.currentUser) && req.nextCalls == old(req.nextCalls)
      case Pass(identity) =>
        && req.currentUser == Some(identity) && req.nextCalls == old(req.nextCalls) + 1
        && r == AuthService.SignInByToken(db, identity)
  {
    if MiddlewareApplies(route) {
      // next() hands over to the handler, whose failures reach the client through r
      var thrown := AuthMiddleware.Use(req, verify, false);
      if thrown.Some? {
        return Thrown(thrown.value);
      }
      r := AuthController.SignInByToken(req, db);
    } else {
      r := AuthController.SignIn(db, compare, sign, route.body);
    }
  }

  /**
   * The end-to-end flow: sign in, then present the token as "Bearer <token>" to
   * `auth/signinByToken`. When the codec gives back the subject of what it signed, the second
   * call returns the same user view and the same token.
   */
  method SignInThenSignInByToken(
    db: Backend, compare: (string, string) -> Attempt<bool>, sign: Claims -> Attempt<string>,
    verify: string -> Option<Claims>, credentials: AuthService.SignInDto
  ) returns (first: Outcome<AuthService.Session>, second: Outcome<AuthService.Session>)
    requires EmailUnique(db.users)
    requires CodecAgrees(sign, verify)
    ensures first == AuthService.SignIn(db, compare, sign, credentials)
    ensures first.Ok? ==> second == first
  {
    var signInRequest := new Request(None);
    first := Dispatch(SignInRoute(credentials), signInRequest, db, compare, sign, verify);
    if first.Ok? {
      var session := first.value;
      AuthService.SignInIssuedFor(db, compare, sign, credentials);
      var id := session.user.id;
      assert sign(Claims(id, session.user.email)) == Returned(session.token);
      assert verify(session.token).Some? && verify(session.token).value.sub == id;
      var header := "Bearer " + session.token;
      assert header == "Bearer" + " " + session.token;
      AuthMiddleware.BearerHeaderAuthenticates("Bearer", session.token, verify);
      assert AuthMiddleware.Authenticate(Some(header), verify) == AuthMiddleware.Pass(CurrentUser(id, session.token));
      var tokenRequest := new Request(Some(header));
      second := Dispatch(SignInByTokenRoute, tokenRequest, db, compare, sign, verify);
      assert second == AuthService.SignInByToken(db, CurrentUser(id, session.token));
    } else {
      second := first;
    }
  }
}
