/** The login handler's outcome mapping and the bearer-token middleware
    that guards the create, update and delete routes. Password comparison,
    token signing and token verification are library calls; they are
    parameters here. */
module Auth {
  import opened Js
  import opened Http

  /** What a token carries: the id and username it was issued for. */
  datatype Claims = Claims(id: int, username: string)

  // ---------------------------------------------------------------------
  // verifyToken

  /** `req.headers['authorization']?.split(' ')[1]`, with `!token` read as
      "absent": the second space-separated piece of the header, when there
      is one and it is not empty. The first piece (the scheme) is not looked at. */
  function BearerToken(header: Option<string>): (token: Option<string>)
    ensures token.Some? ==> token.value != "" && ' ' !in token.value
  {
    match header
    case None => None
    case Some(h) =>
      var pieces := Split(h, ' ');
      if |pieces| < 2 || pieces[1] == "" then None else Some(pieces[1])
  }

  /** `h` is a scheme without spaces, one space, the token, and then either
      nothing or more text starting at a space. */
  ghost predicate SecondPiece(h: string, scheme: string, token: string, rest: string) {
    && h == scheme + " " + token + rest
    && ' ' !in scheme
    && ' ' !in token
    && (rest == "" || rest[0] == ' ')
  }

  /** The extracted token is exactly the non-empty text between the first
      and the second space of the header (or its end). */
  lemma BearerTokenIsSecondPiece(h: string, token: string)
    ensures BearerToken(Some(h)) == Some(token) <==>
              token != "" && exists scheme, rest :: SecondPiece(h, scheme, token, rest)
  {
    var pieces := Split(h, ' ');
    if BearerToken(Some(h)) == Some(token) {
      JoinSplit(h, ' ');
      var rest := if |pieces| > 2 then " " + Join(pieces[2..], " ") else "";
      assert Join(pieces, " ") == pieces[0] + " " + Join(pieces[1..], " ");
      assert pieces[1..][1..] == pieces[2..];
      assert Join(pieces[1..], " ") == pieces[1] + rest;
      assert h == pieces[0] + " " + token + rest;
      assert SecondPiece(h, pieces[0], token, rest);
    }
    if token != "" && exists scheme, rest :: SecondPiece(h, scheme, token, rest) {
      var scheme, rest :| SecondPiece(h, scheme, token, rest);
      SplitPrefix(scheme, " " + (token + rest), ' ');
      assert h == scheme + (" " + (token + rest));
      assert Split(" " + (token + rest), ' ') == [""] + Split(token + rest, ' ') by {
        assert (" " + (token + rest))[1..] == token + rest;
      }
      SplitPrefix(token, rest, ' ');
      if rest == "" {
        assert token + rest == token;
        assert Split(rest, ' ')[0] == "";
      } else {
        assert rest == " " + rest[1..];
        assert Split(rest, ' ')[0] == "";
      }
      assert pieces[1] == token;
    }
  }

  /** Only the second piece matters: `Bearer` is not checked, any first
      word will do. */
  lemma SchemeIsNotChecked(scheme: string, token: string)
    requires ' ' !in scheme && ' ' !in token && token != ""
    ensures BearerToken(Some(scheme + " " + token)) == Some(token)
  {
    assert SecondPiece(scheme + " " + token, scheme, token, "") by {
      assert scheme + " " + token + "" == scheme + " " + token;
    }
    BearerTokenIsSecondPiece(scheme + " " + token, token);
  }

  const TokenRequired := Send(403, "Token is required")
  const InvalidToken := Send(401, "Invalid or expired token")

  /** The middleware's decision: answer the request itself, or attach the
      decoded identity to it and call the route's handler. */
  datatype Gate = Deny(response: Response) | Proceed(user: Claims)

  /** `verifyToken`; `verify` stands for `jwt.verify` with the server's
      secret, giving the decoded payload or nothing for a bad signature or
      an expired token. */
  function VerifyToken(header: Option<string>, verify: string -> Option<Claims>): (g: Gate)
    ensures g == Deny(TokenRequired) <==> BearerToken(header).None?
    ensures g == Deny(InvalidToken) <==> BearerToken(header).Some? && verify(BearerToken(header).value).None?
    ensures g.Proceed? <==> BearerToken(header).Some? && verify(BearerToken(header).value).Some?
    ensures g.Proceed? ==> Some(g.user) == verify(BearerToken(header).value)
  {
    match BearerToken(header)
    case None => Deny(TokenRequired)
    case Some(token) =>
      match verify(token)
      case None => Deny(InvalidToken)
      case Some(decoded) => Proceed(decoded)
  }

  /** With no token in the header the verifier is never consulted: the
      outcome is the same whatever it would have said. */
  lemma NoTokenNoVerification(header: Option<string>, verify1: string -> Option<Claims>,
                              verify2: string -> Option<Claims>)
    requires BearerToken(header).None?
    ensures VerifyToken(header, verify1) == VerifyToken(header, verify2) == Deny(TokenRequired)
  {
  }

  // ---------------------------------------------------------------------
  // POST /login

  /** A row of the `users` table. */
  datatype User = User(id: int, username: string, passwordHash: string)

  /** What `SELECT * FROM users WHERE username = ?` gave the callback. */
  datatype UserQuery = QueryFailed | Users(rows: seq<User>)

  /** The login handler either answers, or never answers: `bcrypt.compare`
      rejects a password that is not a string, and the awaited rejection
      escapes the query callback unhandled. */
  datatype LoginResult = Answered(response: Response) | CompareRejected

  const InvalidCredentials := Send(400, "Invalid username or password")

  /** The login handler after its query; `compare` stands for
      `bcrypt.compare` on two strings and `sign` for `jwt.sign` with the
      server's secret and a one-hour expiry. */
  function Login(query: UserQuery, password: Value, compare: (string, string) -> bool,
                 sign: Claims -> string): (r: LoginResult)
    ensures r.Answered? ==> r.response == InvalidCredentials || r.response.status == 200
    ensures r.Answered? && r.response.status == 200 <==>
              && query.Users? && |query.rows| > 0 && password.Str?
              && compare(password.s, query.rows[0].passwordHash)
    ensures r.Answered? && r.response.status == 200 ==>
              r.response.payload == TokenJson(sign(Claims(query.rows[0].id, query.rows[0].username)))
    ensures r.CompareRejected? <==> query.Users? && |query.rows| > 0 && !password.Str?
  {
    if query.QueryFailed? || |query.rows| == 0 then
      Answered(InvalidCredentials)
    else
      var user := query.rows[0];
      if !password.Str? then
        CompareRejected
      else if !compare(password.s, user.passwordHash) then
        Answered(InvalidCredentials)
      else
        Answered(Response(200, TokenJson(sign(Claims(user.id, user.username)))))
  }

  /** A failed query, an unknown username and a wrong password give the
      very same response, so a caller cannot tell them apart. */
  lemma LoginFailuresAreIndistinguishable(user: User, password: string,
                                         compare: (string, string) -> bool, sign: Claims -> string)
    requires !compare(password, user.passwordHash)
    ensures Login(QueryFailed, Str(password), compare, sign)
         == Login(Users([]), Str(password), compare, sign)
         == Login(Users([user]), Str(password), compare, sign)
         == Answered(InvalidCredentials)
  {
  }
}
