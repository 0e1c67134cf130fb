/**
 * The JSON Web Token codec seen from outside. Signing and signature checking live in
 * jsonwebtoken and are parameters of the model: `sign` may throw (no secret configured),
 * `verify` either yields the claims or refuses the token.
 */
module TokenCodec {
  import opened Wrappers
  import opened UserSchema
  import opened Http

  /** The payload the service signs: `{ sub: user._id, email: user.email }`. */
  datatype Claims = Claims(sub: Id, email: string)

  /**
   * `jwtService.verify(token)` for a token that may be `undefined`. jsonwebtoken refuses a missing
   * or empty token ("jwt must be provided") before it looks at signature or expiry; any other
   * string goes to the abstract check `verify`.
   */
  function Decode(verify: string -> Option<Claims>, token: Option<string>): (claims: Option<Claims>) {
    if token.None? || token.value == "" then None else verify(token.value)
  }

  /** A compact JWS serialisation: dot-separated base64url segments, never empty, never a space. */
  predicate Compact(token: string) {
    token != "" && ' ' !in token
  }

  /**
   * The one fact the end-to-end flow needs of the codec: every token `sign` issues is compact and,
   * when presented with the second request, `verify` gives back claims with the same subject.
   */
  ghost predicate CodecAgrees(sign: Claims -> Attempt<string>, verify: string -> Option<Claims>) {
    forall c ::
      sign(c).Returned? ==>
        Compact(sign(c).value) && verify(sign(c).value).Some? && verify(sign(c).value).value.sub == c.sub
  }
}
