/** The parts of an Express request the auth core touches. */
module Express {
  import opened Wrappers
  import opened UserSchema

  /** `req.currentUser`, as declared for the whole application. */
  datatype CurrentUser = CurrentUser(userId: Id, token: string)

  class Request {
    /** `req.headers['authorization']` */
    var authorization: Option<string>
    /** `req.currentUser`, unset until the middleware attaches it */
    var currentUser: Option<CurrentUser>
    /** How many times the middleware has called `next` for this request */
    var nextCalls: nat

    constructor(authorization: Option<string>)
      ensures this.authorization == authorization
      ensures currentUser == None && nextCalls == 0
    {
      this.authorization := authorization;
      currentUser := None;
      nextCalls := 0;
    }
  }
}
