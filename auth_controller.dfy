/** `AuthController`: it forwards to the service, with one guard on `req.currentUser`. */
module AuthController {
  import opened Http
  import opened UserSchema
  import opened TokenCodec
  import opened Express
  import AuthService
  import AuthMiddleware

  /** `POST /auth/signin`: the validated body goes to the service, and its outcome comes back as it is. */
  function SignIn(
    db: Backend, compare: (string, string) -> Attempt<bool>, sign: Claims -> Attempt<string>,
    data: AuthService.SignInDto
  ): (r: Outcome<AuthService.Session>)
    requires EmailUnique(db.users)
    ensures r == AuthService.SignIn(db, compare, sign, data)
  {
    AuthService.SignIn(db, compare, sign, data)
  }

  /**
   * `GET /auth/signinByToken`: without an attached identity the request is refused before the
   * service is reached; with one, `{userId, token}` is forwarded unchanged and the service's
   * outcome, success or rejection, is returned as it is.
   */
  function SignInByToken(req: Request, db: Backend): (r: Outcome<AuthService.Session>)
    reads req
    ensures req.currentUser.None? ==> r == Thrown(Unauthorized(AuthMiddleware.INVALID_TOKEN))
    ensures req.currentUser.Some? ==> r == AuthService.SignInByToken(db, req.currentUser.value)
  {
    if req.currentUser.None? then
      Thrown(Unauthorized(AuthMiddleware.INVALID_TOKEN))
    else
      AuthService.SignInByToken(db, req.currentUser.value)
  }
}
