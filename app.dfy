/** The application: the users collection that `UsersService` writes is the one `AuthService` reads. */
module App {
  import opened Wrappers
  import opened Http
  import opened UserSchema
  import opened TokenCodec
  import AuthService
  import Users

  /**
   * What the flow needs of bcrypt: a hash is never the empty string (it is a 60-character
   * "$2b$..." string), and a password matches what `hash` made of it.
   */
  ghost predicate HasherAgrees(hash: string -> Attempt<string>, compare: (string, string) -> Attempt<bool>) {
    forall p :: hash(p).Returned? ==> hash(p).value != "" && compare(p, hash(p).value) == Returned(true)
  }

  /**
   * Register a user with a password, then sign in with it: when creation succeeded and signing
   * works, sign-in succeeds with the new record's `_id`, name and email and a token for that `_id`.
   */
  method RegisterThenSignIn(
    service: Users.UsersService, dto: Users.CreateUserDto, hash: string -> Attempt<string>, newId: Id,
    compare: (string, string) -> Attempt<bool>, sign: Claims -> Attempt<string>, password: string
  ) returns (created: Outcome<Users.Created>, signedIn: Outcome<AuthService.Session>)
    requires service.Valid()
    requires HasherAgrees(hash, compare)
    requires dto.password == Some(password) && password != ""
    modifies service, dto
    ensures service.Valid()
    ensures signedIn == AuthService.SignIn(service.Snapshot(), compare, sign, AuthService.SignInDto(dto.email, password))
    ensures created.Ok? && sign(Claims(newId, dto.email)).Returned? ==>
      signedIn == Ok(AuthService.Session(
        true, AuthService.UserView(newId, dto.name, dto.email), sign(Claims(newId, dto.email)).value))
  {
    created := service.Create(dto, hash, newId);
    var db := service.Snapshot();
    if created.Ok? {
      assert db.users[newId].email == dto.email;
      assert db.users[newId].password == Some(hash(password).value);
      AuthService.SignInSucceeds(db, compare, sign, AuthService.SignInDto(dto.email, password), newId);
    }
    signedIn := AuthService.SignIn(db, compare, sign, AuthService.SignInDto(dto.email, password));
  }
}
