/**
 * `AuthService`: sign-in by credentials and re-authentication by token, each a read-only lookup,
 * a few branches and a sanitised success value, with a catch that lets an Unauthorized through
 * and turns everything else into a generic 500.
 */
module AuthService {
  import opened Http
  import opened UserSchema
  import opened TokenCodec
  import opened Express

  const USER_NOT_FOUND := "usuário não encontrado"
  const BAD_CREDENTIALS := "credenciais incorretas"
  const SIGNIN_FAILED := "Ocorreu um erro ao validar as credenciais"

  /** The sign-in body. */
  datatype SignInDto = SignInDto(email: string, password: string)

  /** The user as the service shows it: `_id`, `name` and `email`, nothing else. */
  datatype UserView = UserView(id: Id, name: string, email: string)

  /** `{ success, data: { user, token } }` */
  datatype Session = Session(success: bool, user: UserView, token: string)

  function View(id: Id, user: User): (view: UserView) {
    UserView(id, user.name, user.email)
  }

  /**
   * The shared catch block: an Unauthorized is rethrown as it is, anything else becomes a 500.
   * A 401 is never masked as a 500, nor a 500 shown as a 401.
   */
  function Rethrow(e: Exception): (r: Exception)
    ensures e.Unauthorized? ==> r == e
    ensures r.Unauthorized? <==> e.Unauthorized?
    ensures Status(r) == (if e.Unauthorized? then UNAUTHORIZED else INTERNAL_SERVER_ERROR)
  {
    if e.Unauthorized? then e else HttpError(SIGNIN_FAILED, INTERNAL_SERVER_ERROR)
  }

  /** Wraps a try block's outcome in that catch. */
  function Guard<T>(attempt: Outcome<T>): (r: Outcome<T>) {
    match attempt
    case Ok(v) => Ok(v)
    case Thrown(e) => Thrown(Rethrow(e))
  }

  // ---------------------------------------------------------------------------------------------
  // signIn

  /** The try block of `signIn`: the store call, `bcrypt.compare` and `jwtService.sign` may throw. */
  function SignInAttempt(
    db: Backend, compare: (string, string) -> Attempt<bool>, sign: Claims -> Attempt<string>, data: SignInDto
  ): (attempt: Outcome<Session>)
    requires EmailUnique(db.users)
  {
    if db.fault.Some? then
      Thrown(Error(db.fault.value))
    else
      match FindByEmail(db.users, data.email)
      case None => Thrown(Unauthorized(USER_NOT_FOUND))
      case Some(id) =>
        var user := db.users[id];
        if !Truthy(user.password) then
          Thrown(Unauthorized(USER_NOT_FOUND))
        else
          match compare(data.password, user.password.value)
          case Raised(cause) => Thrown(Error(cause))
          case Returned(false) => Thrown(Unauthorized(BAD_CREDENTIALS))
          case Returned(true) =>
            match sign(Claims(id, user.email))
            case Raised(cause) => Thrown(Error(cause))
            case Returned(token) => Ok(Session(true, View(id, user), token))
  }

  function SignIn(
    db: Backend, compare: (string, string) -> Attempt<bool>, sign: Claims -> Attempt<string>, data: SignInDto
  ): (r: Outcome<Session>)
    requires EmailUnique(db.users)
    ensures r.Ok? ==> r.value.success
    ensures r.Thrown? ==>
      r.error in {Unauthorized(USER_NOT_FOUND), Unauthorized(BAD_CREDENTIALS), HttpError(SIGNIN_FAILED, INTERNAL_SERVER_ERROR)}
  {
    Guard(SignInAttempt(db, compare, sign, data))
  }

  /** An email that matches no record is "user not found". */
  lemma SignInUnknownEmail(
    db: Backend, compare: (string, string) -> Attempt<bool>, sign: Claims -> Attempt<string>, data: SignInDto
  )
    requires EmailUnique(db.users) && db.fault.None?
    requires !EmailTaken(db.users, data.email)
    ensures SignIn(db, compare, sign, data) == Thrown(Unauthorized(USER_NOT_FOUND))
  {
  }

  /**
   * A record without a (truthy) password is reported exactly like a missing one, and the result
   * does not depend on `compare` or `sign`: neither is consulted.
   */
  lemma SignInPasswordless(
    db: Backend, compare1: (string, string) -> Attempt<bool>, compare2: (string, string) -> Attempt<bool>,
    sign1: Claims -> Attempt<string>, sign2: Claims -> Attempt<string>, data: SignInDto, id: Id
  )
    requires EmailUnique(db.users) && db.fault.None?
    requires id in db.users && db.users[id].email == data.email && !Truthy(db.users[id].password)
    ensures SignIn(db, compare1, sign1, data) == Thrown(Unauthorized(USER_NOT_FOUND))
    ensures SignIn(db, compare1, sign1, data) == SignIn(db, compare2, sign2, data)
  {
  }

  /** A wrong password gives "invalid credentials": a 401 whose message differs from "not found", never a 500. */
  lemma SignInWrongPassword(
    db: Backend, compare: (string, string) -> Attempt<bool>, sign: Claims -> Attempt<string>, data: SignInDto, id: Id
  )
    requires EmailUnique(db.users) && db.fault.None?
    requires id in db.users && db.users[id].email == data.email && Truthy(db.users[id].password)
    requires compare(data.password, db.users[id].password.value) == Returned(false)
    ensures SignIn(db, compare, sign, data) == Thrown(Unauthorized(BAD_CREDENTIALS))
    ensures Status(SignIn(db, compare, sign, data).error) == UNAUTHORIZED
    ensures BAD_CREDENTIALS != USER_NOT_FOUND
  {
  }

  /**
   * For the record that carries the email: sign-in succeeds exactly when it has a password, the
   * password matches and signing works; the token is then `sign({sub: _id, email})` and the view
   * holds `_id`, `name` and `email` of that record.
   */
  lemma SignInSucceeds(
    db: Backend, compare: (string, string) -> Attempt<bool>, sign: Claims -> Attempt<string>, data: SignInDto, id: Id
  )
    requires EmailUnique(db.users) && db.fault.None?
    requires id in db.users && db.users[id].email == data.email
    ensures SignIn(db, compare, sign, data).Ok? <==>
      && Truthy(db.users[id].password)
      && compare(data.password, db.users[id].password.value) == Returned(true)
      && sign(Claims(id, data.email)).Returned?
    ensures SignIn(db, compare, sign, data).Ok? ==>
      SignIn(db, compare, sign, data).value ==
        Session(true, UserView(id, db.users[id].name, data.email), sign(Claims(id, data.email)).value)
  {
  }

  /**
   * The generic 500 appears exactly when something other than the service's own checks failed:
   * the store, `bcrypt.compare`, or `jwtService.sign` after a matching password.
   */
  lemma SignInInternal(
    db: Backend, compare: (string, string) -> Attempt<bool>, sign: Claims -> Attempt<string>, data: SignInDto
  )
    requires EmailUnique(db.users)
    ensures SignIn(db, compare, sign, data) == Thrown(HttpError(SIGNIN_FAILED, INTERNAL_SERVER_ERROR)) <==>
      || db.fault.Some?
      || exists id :: id in db.users && db.users[id].email == data.email && Truthy(db.users[id].password) &&
           (|| compare(data.password, db.users[id].password.value).Raised?
            || (compare(data.password, db.users[id].password.value) == Returned(true) &&
                sign(Claims(id, data.email)).Raised?))
  {
  }

  /**
   * A successful sign-in shows a stored record, and its token is what `sign` issued for the
   * claims `{sub: _id, email}` of that record.
   */
  lemma SignInIssuedFor(
    db: Backend, compare: (string, string) -> Attempt<bool>, sign: Claims -> Attempt<string>, data: SignInDto
  )
    requires EmailUnique(db.users)
    requires SignIn(db, compare, sign, data).Ok?
    ensures var session := SignIn(db, compare, sign, data).value;
      && db.fault.None? && session.user.id in db.users
      && session.user == View(session.user.id, db.users[session.user.id])
      && sign(Claims(session.user.id, session.user.email)) == Returned(session.token)
  {
  }

  // ---------------------------------------------------------------------------------------------
  // signInByToken

  /** The try block of `signInByToken`: only the store call may throw. */
  function SignInByTokenAttempt(db: Backend, currentUser: CurrentUser): (attempt: Outcome<Session>) {
    if db.fault.Some? then
      Thrown(Error(db.fault.value))
    else
      match FindById(db.users, currentUser.userId)
      case None => Thrown(Unauthorized(USER_NOT_FOUND))
      case Some(doc) => Ok(Session(true, View(doc.id, doc.record), currentUser.token))
  }

  function SignInByToken(db: Backend, currentUser: CurrentUser): (r: Outcome<Session>)
    ensures r.Ok? ==> r.value.success && r.value.token == currentUser.token
    ensures r.Thrown? ==>
      r.error in {Unauthorized(USER_NOT_FOUND), HttpError(SIGNIN_FAILED, INTERNAL_SERVER_ERROR)}
  {
    Guard(SignInByTokenAttempt(db, currentUser))
  }

  /** An id that matches no record is "user not found". */
  lemma SignInByTokenUnknownId(db: Backend, currentUser: CurrentUser)
    requires db.fault.None? && currentUser.userId !in db.users
    ensures SignInByToken(db, currentUser) == Thrown(Unauthorized(USER_NOT_FOUND))
  {
  }

  /**
   * A known id gives that record's view and the very token supplied: nothing is re-signed. The
   * 500 appears exactly when the store fails.
   */
  lemma SignInByTokenSucceeds(db: Backend, currentUser: CurrentUser)
    ensures SignInByToken(db, currentUser).Ok? <==> db.fault.None? && currentUser.userId in db.users
    ensures SignInByToken(db, currentUser).Ok? ==>
      SignInByToken(db, currentUser).value ==
        Session(true, View(currentUser.userId, db.users[currentUser.userId]), currentUser.token)
    ensures SignInByToken(db, currentUser) == Thrown(HttpError(SIGNIN_FAILED, INTERNAL_SERVER_ERROR)) <==>
      db.fault.Some?
  {
  }
}
