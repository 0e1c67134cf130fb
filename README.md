# User/auth service — a Dafny model of its decision logic

This project models the decision logic of a NestJS user and authentication service. It is stated
against an abstract user collection. bcrypt and jsonwebtoken are passed in as parameters.

- **Authentication service** (`AuthService`). `signIn` looks a user up by email, checks the
  password with `compare`, and signs `{sub: _id, email}` with `sign`. `signInByToken` looks a user
  up by the id the middleware attached and hands back the supplied token. Each method is a "try
  block" function plus the shared catch: an `UnauthorizedException` is rethrown as it is, anything
  else becomes a 500 with the fixed message "Ocorreu um erro ao validar as credenciais".
- **Bearer-token middleware** (`AuthMiddleware`). It models JavaScript's `split(' ')` exactly, with
  `Join` as its inverse, and takes field `[1]` as the token. The decision `Authenticate` is a
  function, and `Use` is a method on an Express `Request` object. `Use` sets `currentUser` and
  counts the calls to `next`.
- **Controller** (`AuthController`). It forwards to the service and has one guard on
  `req.currentUser`.
- **Routing** (`AuthModule`). The middleware runs only on `auth/signinByToken`. The end-to-end
  flow signs in and then presents `Bearer <token>`.
- **User store** (`Users`). `UsersService` is a class holding the collection as a
  `map<Id, User>` field. Its invariant `Valid()` is the unique index on `email`. `create`
  overwrites the DTO's password in place.
- **App** (`App`). A user registered through `UsersService.create` can then sign in through
  `AuthService.signIn`.

Collaborators that can fail are inputs of the model:
- The store's failure ("database unreachable") is the `fault` of a `Backend` snapshot or of the
  `UsersService` object.
- `bcrypt.hash`, `bcrypt.compare` and `jwtService.sign` return `Attempt<T>`, which is
  `Returned(v)` or `Raised(cause)`.
- `jwtService.verify` is a partial function `string -> Option<Claims>`.
- The `_id` the driver generates for a new document is the `newId` parameter of `Create`.

Where the design intent and the code differ, the model follows the code:
- The two sign-in rejections carry different messages: "usuário não encontrado" for an unknown
  email or a passwordless account, "credenciais incorretas" for a wrong password. A caller can
  therefore tell whether an email is registered.
- The middleware never checks that the first word of the header is `Bearer`.
  `AuthMiddleware.SchemeIgnored` states this.
- `update` stores a supplied password as given, without hashing it.
- `create` returns the stored document, password hash included.
- `signInByToken` can also answer with a 500 when the store fails, not only with a 401.

## Model

| member | source | states |
|---|---|---|
| AuthService.SignIn | src/modules/auth/auth.service.ts:21-62 | a success carries `success: true`; every rejection is one of Unauthorized("usuário não encontrado"), Unauthorized("credenciais incorretas") or the 500 with the fixed generic message |
| AuthService.SignInUnknownEmail | src/modules/auth/auth.service.ts:24-28 | an email that matches no record gives Unauthorized("usuário não encontrado") |
| AuthService.SignInPasswordless | src/modules/auth/auth.service.ts:26-27 | a record without a truthy password gives the same "not found" rejection, and the result is the same for any `compare` and any `sign`: neither is consulted |
| AuthService.SignInWrongPassword | src/modules/auth/auth.service.ts:30-34 | a failed compare gives Unauthorized("credenciais incorretas"), status 401, never a 500, with a message different from "not found" |
| AuthService.SignInSucceeds | src/modules/auth/auth.service.ts:36-47 | for the record holding the email, sign-in succeeds iff it has a password, compare accepts and sign returns; the result is then exactly `{success, {_id, name, email}, sign({sub: _id, email})}` |
| AuthService.SignInIssuedFor | src/modules/auth/auth.service.ts:36-46 | a successful sign-in shows a stored record's `_id`, name and email, and its token is what `sign` issued for that record's claims |
| AuthService.SignInInternal | src/modules/auth/auth.service.ts:50-60 | the generic 500 occurs iff the store fails, compare throws, or sign throws after a matching password |
| AuthService.Rethrow | src/modules/auth/auth.service.ts:54-60 | an Unauthorized passes through unchanged; the result is an Unauthorized iff the thrown value was one, and its status is 401 for those and 500 for everything else |
| AuthService.SignInByToken | src/modules/auth/auth.service.ts:64-96 | a success returns the supplied token unchanged; every rejection is "usuário não encontrado" or the generic 500 |
| AuthService.SignInByTokenUnknownId | src/modules/auth/auth.service.ts:67-71 | an id that matches no record gives Unauthorized("usuário não encontrado") |
| AuthService.SignInByTokenSucceeds | src/modules/auth/auth.service.ts:73-94 | succeeds iff the store answers and the id is stored; the result is that record's view with the same token; the 500 occurs iff the store fails |
| AuthMiddleware.Split | src/middlewares/auth.middleware.ts:16 | `split(' ')` yields at least one field, and no field contains a space |
| AuthMiddleware.JoinSplit | src/middlewares/auth.middleware.ts:16 | joining the fields with single spaces gives back the header: the split loses nothing |
| AuthMiddleware.SplitJoin | src/middlewares/auth.middleware.ts:16 | splitting a space-joined list of space-free fields gives back that list |
| AuthMiddleware.SplitWord | src/middlewares/auth.middleware.ts:16 | a string without spaces is a single field |
| AuthMiddleware.SplitAfterWord | src/middlewares/auth.middleware.ts:16 | a space-free word followed by a space is the first field, and the rest is split on |
| AuthMiddleware.BearerTokenPresent | src/middlewares/auth.middleware.ts:16 | `split(' ')[1]` is defined iff the header contains a space |
| AuthMiddleware.BearerTokenParts | src/middlewares/auth.middleware.ts:16 | a found token is the space-free text after the first space, up to the next space or the end |
| AuthMiddleware.BearerTokenOf | src/middlewares/auth.middleware.ts:16 | `scheme + " " + token + tail`, with `tail` empty or starting with a space, yields exactly `token` |
| AuthMiddleware.SchemeIgnored | src/middlewares/auth.middleware.ts:16 | the first word is never compared with "Bearer": any two space-free first words give the same token |
| AuthMiddleware.DoubleSpaceGivesEmptyToken | src/middlewares/auth.middleware.ts:16 | two spaces after the scheme give the empty token |
| AuthMiddleware.Use | src/middlewares/auth.middleware.ts:13-30 | on rejection it throws that error and leaves `currentUser` and the `next` count as they were; on success it sets `currentUser = {sub, token}` and calls `next` once; an exception from `next` is reported as the invalid-token rejection, after `currentUser` was set |
| AuthMiddleware.MissingHeaderRejected | src/middlewares/auth.middleware.ts:14-29 | a missing or empty header is Unauthorized("Token não fornecido"), whatever the codec says |
| AuthMiddleware.HeaderWithoutSpaceRejected | src/middlewares/auth.middleware.ts:16-25 | a non-empty header without a space yields no token and is rejected as "Token inválido ou expirado" |
| AuthMiddleware.DoubleSpaceRejected | src/middlewares/auth.middleware.ts:16-25 | a double space yields the empty token, which is rejected as "Token inválido ou expirado" |
| AuthMiddleware.PassExactly | src/middlewares/auth.middleware.ts:16-22 | a request passes iff the header is present, its second field is non-empty and `verify` accepts that field; the identity is `{decoded.sub, that field}` |
| AuthMiddleware.RejectionsAreUnauthorized | src/middlewares/auth.middleware.ts:24-29 | every rejection is one of the two Unauthorized errors, and it is "no token" iff the header is missing or empty |
| AuthMiddleware.BearerHeaderAuthenticates | src/middlewares/auth.middleware.ts:16-22 | a header `scheme + " " + t`, with `t` a compact token, passes with `{verify(t).sub, t}` iff `verify` accepts `t` |
| AuthController.SignIn | src/modules/auth/auth.controller.ts:21-23 | the body is passed to the service unchanged, and its outcome, success or rejection, comes back unchanged |
| AuthController.SignInByToken | src/modules/auth/auth.controller.ts:26-31 | without `currentUser` it is Unauthorized("Token inválido ou expirado"), before the service is reached; with one, `{userId, token}` is forwarded and the service's outcome returned as it is |
| AuthModule.MiddlewareApplies | src/modules/auth/auth.module.ts:25-27 | the middleware applies to the sign-in-by-token route and to no other |
| AuthModule.Dispatch | src/modules/auth/auth.module.ts:26 | the sign-in route leaves the request untouched and returns the service's outcome; the token route returns the middleware's rejection, or sets the identity, calls `next` once and returns the service's answer for that identity |
| AuthModule.SignInThenSignInByToken | src/modules/auth/auth.service.ts:36-81 | if every token `sign` issues is compact (non-empty, no space) and `verify` gives back the subject it was signed for, then after a successful sign-in with token T, the request with header "Bearer T" returns the same user view and T |
| UserSchema.FindByEmail | src/modules/auth/auth.service.ts:24 | under the unique-email invariant, the lookup finds a record with that email iff one exists |
| Users.UsersService.GetByEmail | src/modules/users/users.service.ts:51-53 | passes a store failure through uncaught; otherwise finds the stored record with that email iff one exists |
| Users.UsersService.Create | src/modules/users/users.service.ts:13-49 | a taken email gives CONFLICT with the store and the DTO unchanged; a truthy password is replaced by its hash in the DTO and the record; an absent one stays absent; a valid save adds exactly the one new record and returns `success: true`; non-HTTP failures become the create 500; emails stay unique |
| Users.CreateCatch | src/modules/users/users.service.ts:41-47 | an HttpException passes through unchanged; what escapes is always an HttpException, whose status is the thrown one's, or INTERNAL_SERVER_ERROR for anything else |
| Users.CreateCatchIdempotent | src/modules/users/users.service.ts:41-47 | catching what the catch already produced changes nothing |
| Users.StoredPasswordCases | src/modules/users/users.service.ts:25-28 | an absent password stays absent, an empty one is stored as given, a truthy one is stored as `hash(password)`; hashing can fail only for a truthy one |
| Users.EmptyPatchIsIdentity | src/modules/users/users.service.ts:88-92 | an update supplying no field leaves the record as it was |
| Users.PatchIdempotent | src/modules/users/users.service.ts:88-92 | applying the same update twice equals applying it once |
| Users.PatchOverrides | src/modules/users/users.service.ts:88-92 | two updates in a row equal one update in which the later update's supplied fields win and the earlier's fill the rest |
| Users.InsertKeepsEmailUnique | src/schemas/User.schema.ts:9 | inserting a record with a free email under a fresh id keeps emails unique and adds one record |
| Users.UpdateKeepsEmailUnique | src/schemas/User.schema.ts:9 | overwriting one record with a patch that clashes with no other email keeps emails unique |
| Users.RemoveKeepsEmailUnique | src/modules/users/users.service.ts:107-113 | after removal the id is absent, every other record is unchanged, and emails stay unique |
| Users.UsersService.FindAll | src/modules/users/users.service.ts:55-69 | returns the whole collection with `success: true`, or the generic 500 when the store fails |
| Users.UsersService.FindOne | src/modules/users/users.service.ts:71-86 | `success: true` whether or not the id is stored; the user is present iff the id is stored, and is then that record |
| Users.UsersService.Update | src/modules/users/users.service.ts:88-105 | only the target record changes, taking each supplied field (the password unhashed) and keeping the others, and the post-update record is returned; an unknown id changes nothing and still succeeds with no user; an email taken by another record fails with the 500 and changes nothing |
| Users.UsersService.Remove | src/modules/users/users.service.ts:107-121 | the store afterwards is the old one without the id, and the result is `success: true` with "usuário removido", whether or not the id was there |
| App.RegisterThenSignIn | src/modules/users/users.service.ts:25-31 | if bcrypt's compare accepts what its hash produced, a user created with a password can sign in with it, getting its new `_id`, name and email and the token signed for them |

## Left out

- bcrypt internals and the work factor 10: `hash` and `compare` are parameters. `App.HasherAgrees` states the one property of them that is needed: a password matches its own non-empty hash.
- jsonwebtoken internals: the secret, the signature check, and `expiresIn: '1h'` with its `iat`/`exp` claims. `sign` and `verify` are parameters, and expiry is part of what `verify` may refuse. The claims carry only `sub` and `email`. The refusal of a missing or empty token ("jwt must be provided") is modelled in `TokenCodec.Decode`.
- AuthModule.SignInThenSignInByToken: the round trip is proved only for a codec whose tokens are compact, that is non-empty and without spaces (`TokenCodec.CodecAgrees`). That holds for jsonwebtoken's dot-separated base64url output, which the model does not derive. For a token with a space, `split(' ')[1]` would hand on only its first part, and an empty token would be refused.
- Mongoose persistence, `.exec()` and async/await: replaced by an in-memory map, with a `fault` standing for a failing driver call.
- The unique index as a database mechanism: replaced by the `EmailUnique` invariant. The duplicate-key failure it raises on `update` is `Users.EmailClash`.
- Mongoose's `_id` generation: the `newId` parameter of `Create`.
- Malformed ids: the model treats any string as an id, so the CastError that `findById` raises for a string that is not an ObjectId is not modelled.
- Save failures other than the required `name`/`email` check and a taken `_id`: not modelled.
- `console.error` logging, including the detailed message it records: not modelled.
- Nest dependency injection and module wiring, `app.module.ts`, and `ValidationPipe` with the class-validator decorators. DTO fields are taken to have the declared types. In particular emails are strings, so `findOne({ email: undefined })` matching any document is not modelled.
- The sign-in and update DTO source files are not part of this model. Their shapes come from how the services use them: `{email, password}`, and optional `name`, `email`, `password`, `avatarUrl`.
- The users HTTP controller is not part of this model.
- The express `res` object: the middleware never uses it.
- Asynchronous failures of the handler that `next` starts: `Use` takes `nextRaises` only for a synchronous throw from `next`. The routed flow passes `false` and returns the handler's result instead.
- The list order of `findAll`: it returns the collection as a map.
- Concurrency between requests: each operation is a single sequential step.
