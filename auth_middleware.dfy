/**
 * The bearer-token middleware: it reads the `Authorization` header, takes the second
 * space-separated field as the token, has the codec verify it and attaches the identity.
 */
module AuthMiddleware {
  import opened Wrappers
  import opened Http
  import opened TokenCodec
  import opened Express

  const NO_TOKEN := "Token não fornecido"
  const INVALID_TOKEN := "Token inválido ou expirado"

  // ---------------------------------------------------------------------------------------------
  // JavaScript's `s.split(' ')`

  /**
   * The fields of `s` between single spaces, as `String.prototype.split(' ')` returns them: a
   * string with k spaces has k + 1 fields, and adjacent spaces give empty fields.
   */
  function Split(s: string): (fields: seq<string>)
    ensures |fields| >= 1
    ensures forall i :: 0 <= i < |fields| ==> ' ' !in fields[i]
  {
    if s == [] then
      [""]
    else
      var rest := Split(s[1..]);
      if s[0] == ' ' then [""] + rest else [[s[0]] + rest[0]] + rest[1..]
  }

  /** `fields.join(' ')`, the inverse of `Split`. */
  function Join(fields: seq<string>): (s: string)
    requires |fields| >= 1
  {
    if |fields| == 1 then fields[0] else fields[0] + " " + Join(fields[1..])
  }

  lemma {:induction false} JoinSplit(s: string)
    ensures Join(Split(s)) == s
  {
    if s != [] {
      JoinSplit(s[1..]);
      var rest := Split(s[1..]);
      if s[0] == ' ' {
        assert Split(s)[1..] == rest;
        assert s == [' '] + s[1..];
      } else {
        var fields := Split(s);
        assert fields[1..] == rest[1..];
        if |rest| == 1 {
          assert Join(fields) == [s[0]] + rest[0];
        } else {
          assert Join(fields) == [s[0]] + rest[0] + " " + Join(rest[1..]);
          assert Join(rest) == rest[0] + " " + Join(rest[1..]);
        }
        assert s == [s[0]] + s[1..];
      }
    }
  }

  /** A word without spaces splits into itself. */
  lemma {:induction false} SplitWord(w: string)
    requires ' ' !in w
    ensures Split(w) == [w]
  {
    if w != [] {
      assert ' ' !in w[1..] by { assert forall k :: 0 <= k < |w[1..]| ==> w[1..][k] == w[k + 1]; }
      SplitWord(w[1..]);
      assert [w[0]] + w[1..] == w;
    }
  }

  /** A leading space-free word, then a space: the word is the first field, the rest splits on. */
  lemma {:induction false} SplitAfterWord(w: string, s: string)
    requires ' ' !in w
    ensures Split(w + " " + s) == [w] + Split(s)
  {
    if w == [] {
      assert w + " " + s == [' '] + s;
      assert (w + " " + s)[1..] == s;
    } else {
      var t := w + " " + s;
      assert ' ' !in w[1..] by { assert forall k :: 0 <= k < |w[1..]| ==> w[1..][k] == w[k + 1]; }
      assert t[1..] == w[1..] + " " + s;
      SplitAfterWord(w[1..], s);
      assert [w[0]] + w[1..] == w;
    }
  }

  /** `Split` and `Join` are inverse on field lists, so `Split` loses nothing. */
  lemma {:induction false} SplitJoin(fields: seq<string>)
    requires |fields| >= 1
    requires forall i :: 0 <= i < |fields| ==> ' ' !in fields[i]
    ensures Split(Join(fields)) == fields
  {
    if |fields| == 1 {
      SplitWord(fields[0]);
    } else {
      SplitJoin(fields[1..]);
      SplitAfterWord(fields[0], Join(fields[1..]));
      assert [fields[0]] + fields[1..] == fields;
    }
  }

  // ---------------------------------------------------------------------------------------------
  // The token: `authHeader.split(' ')[1]`

  /** The second field of the header, or `undefined` when the header has no space. */
  function BearerToken(header: string): (token: Option<string>)
  {
    var fields := Split(header);
    if |fields| >= 2 then Some(fields[1]) else None
  }

  /** A token is found exactly when the header holds a space. */
  lemma BearerTokenPresent(header: string)
    ensures BearerToken(header).Some? <==> ' ' in header
  {
    if ' ' !in header {
      SplitWord(header);
    } else {
      JoinSplit(header);
    }
  }

  /**
   * Reading the header the right way round: a found token is the text between the first and the
   * second space (or the end), and holds no space itself.
   */
  lemma BearerTokenParts(header: string) returns (scheme: string, tail: string)
    requires BearerToken(header).Some?
    ensures ' ' !in scheme && ' ' !in BearerToken(header).value
    ensures tail == [] || tail[0] == ' '
    ensures header == scheme + " " + BearerToken(header).value + tail
  {
    var fields := Split(header);
    JoinSplit(header);
    scheme := fields[0];
    if |fields| == 2 {
      tail := [];
      assert Join(fields[1..]) == fields[1];
    } else {
      tail := " " + Join(fields[2..]);
      assert Join(fields[1..]) == fields[1] + " " + Join(fields[2..]);
    }
  }

  /**
   * Writing the header: whatever space-free word comes first (it is never compared with
   * "Bearer"), the token is the word after the first space, up to the next space.
   */
  lemma BearerTokenOf(scheme: string, token: string, tail: string)
    requires ' ' !in scheme && ' ' !in token
    requires tail == [] || tail[0] == ' '
    ensures BearerToken(scheme + " " + token + tail) == Some(token)
  {
    assert scheme + " " + token + tail == scheme + " " + (token + tail);
    SplitAfterWord(scheme, token + tail);
    if tail == [] {
      SplitWord(token);
      assert token + tail == token;
    } else {
      assert tail == " " + tail[1..];
      assert token + tail == token + " " + tail[1..];
      SplitAfterWord(token, tail[1..]);
    }
  }

  /** The scheme word does not matter: two headers that agree after the first space give one token. */
  lemma SchemeIgnored(scheme1: string, scheme2: string, rest: string)
    requires ' ' !in scheme1 && ' ' !in scheme2
    ensures BearerToken(scheme1 + " " + rest) == BearerToken(scheme2 + " " + rest)
  {
    SplitAfterWord(scheme1, rest);
    SplitAfterWord(scheme2, rest);
  }

  /** Two spaces after the scheme give the empty token. */
  lemma DoubleSpaceGivesEmptyToken(scheme: string, rest: string)
    requires ' ' !in scheme
    ensures BearerToken(scheme + "  " + rest) == Some("")
  {
    assert scheme + "  " + rest == scheme + " " + "" + (" " + rest);
    BearerTokenOf(scheme, "", " " + rest);
  }

  // ---------------------------------------------------------------------------------------------
  // `use(req, res, next)`

  /** What the middleware decides for a request: let it through with this identity, or reject it. */
  datatype Verdict = Pass(identity: CurrentUser) | Reject(error: Exception)

  /** The decision `use` takes, as a function of the header and the codec. */
  function Authenticate(header: Option<string>, verify: string -> Option<Claims>): (v: Verdict)
  {
    if header.None? || header.value == "" then
      Reject(Unauthorized(NO_TOKEN))
    else
      var token := BearerToken(header.value);
      match Decode(verify, token)
      case None => Reject(Unauthorized(INVALID_TOKEN))
      case Some(decoded) => Pass(CurrentUser(decoded.sub, token.value))
  }

  /**
   * The middleware on one request. `nextRaises` says whether the synchronous call to `next`
   * throws; the result is the exception `use` throws, if any. Verification, attaching
   * `currentUser` and `next` run inside one try block, so an exception from `next` is reported as
   * a bad token although `currentUser` is already set.
   */
  method Use(req: Request, verify: string -> Option<Claims>, nextRaises: bool) returns (thrown: Option<Exception>)
    modifies req
    ensures req.authorization == old(req.authorization)
    ensures match Authenticate(old(req.authorization), verify)
      case Reject(e) =>
        thrown == Some(e) && req.currentUser == old(req.currentUser) && req.nextCalls == old(req.nextCalls)
      case Pass(identity) =>
        && req.currentUser == Some(identity)
        && req.nextCalls == old(req.nextCalls) + 1
        && thrown == (if nextRaises then Some(Unauthorized(INVALID_TOKEN)) else None)
  {
    var authHeader := req.authorization;
    if authHeader.Some? && authHeader.value != "" {
      var token := BearerToken(authHeader.value);
      var decoded := Decode(verify, token);
      if decoded.None? {
        thrown := Some(Unauthorized(INVALID_TOKEN));
        return;
      }
      req.currentUser := Some(CurrentUser(decoded.value.sub, token.value));
      req.nextCalls := req.nextCalls + 1;
      thrown := if nextRaises then Some(Unauthorized(INVALID_TOKEN)) else None;
    } else {
      thrown := Some(Unauthorized(NO_TOKEN));
    }
  }

  // ---------------------------------------------------------------------------------------------
  // Properties of the decision

  /** A missing or empty header is rejected as "no token", whatever the codec says. */
  lemma MissingHeaderRejected(header: Option<string>, verify: string -> Option<Claims>)
    requires header.None? || header.value == ""
    ensures Authenticate(header, verify) == Reject(Unauthorized(NO_TOKEN))
  {
  }

  /** A non-empty header without a space has no token, so it is rejected as invalid. */
  lemma HeaderWithoutSpaceRejected(header: string, verify: string -> Option<Claims>)
    requires header != "" && ' ' !in header
    ensures Authenticate(Some(header), verify) == Reject(Unauthorized(INVALID_TOKEN))
  {
    BearerTokenPresent(header);
  }

  /** A double space after the scheme gives the empty token, which is rejected as invalid. */
  lemma DoubleSpaceRejected(scheme: string, rest: string, verify: string -> Option<Claims>)
    requires ' ' !in scheme
    ensures Authenticate(Some(scheme + "  " + rest), verify) == Reject(Unauthorized(INVALID_TOKEN))
  {
    DoubleSpaceGivesEmptyToken(scheme, rest);
  }

  /**
   * The request passes exactly when the header is present, has a non-empty second field, and the
   * codec accepts that field; the identity carries the claims' subject and exactly that field.
   */
  lemma PassExactly(header: Option<string>, verify: string -> Option<Claims>)
    ensures Authenticate(header, verify).Pass? <==>
      && header.Some? && header.value != ""
      && BearerToken(header.value).Some? && BearerToken(header.value).value != ""
      && verify(BearerToken(header.value).value).Some?
    ensures Authenticate(header, verify).Pass? ==>
      Authenticate(header, verify).identity ==
        CurrentUser(verify(BearerToken(header.value).value).value.sub, BearerToken(header.value).value)
  {
  }

  /** Every rejection is an Unauthorized with one of the two messages, and a bad token is never "no token". */
  lemma RejectionsAreUnauthorized(header: Option<string>, verify: string -> Option<Claims>)
    ensures Authenticate(header, verify).Reject? ==>
      Authenticate(header, verify).error in {Unauthorized(NO_TOKEN), Unauthorized(INVALID_TOKEN)}
    ensures Authenticate(header, verify) == Reject(Unauthorized(NO_TOKEN)) <==> header.None? || header.value == ""
  {
  }

  /** A header "<scheme> <token>" carrying a compact token passes exactly when the codec accepts it. */
  lemma BearerHeaderAuthenticates(scheme: string, token: string, verify: string -> Option<Claims>)
    requires ' ' !in scheme && Compact(token)
    ensures verify(token).Some? ==>
      Authenticate(Some(scheme + " " + token), verify) == Pass(CurrentUser(verify(token).value.sub, token))
    ensures verify(token).None? ==>
      Authenticate(Some(scheme + " " + token), verify) == Reject(Unauthorized(INVALID_TOKEN))
  {
    assert scheme + " " + token + [] == scheme + " " + token;
    BearerTokenOf(scheme, token, []);
  }
}
