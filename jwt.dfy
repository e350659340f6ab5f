/** Bearer-token authentication (backend/jwt.js). Signing and verification
    are modelled symbolically: a token records the claims it carries, the
    secret it was signed with and its validity window; verifying checks the
    secret and the expiry. Parsing the compact text form of a token is a
    parameter (`parse`), since its encoding is not part of this model. */
module Jwt {
  import opened Common
  import opened JsString

  /** The claims the routes put in a token: the user id and, normally,
      the role. */
  datatype Claims = Claims(id: string, role: Option<string>)

  /** What verification hands back: the claims plus the issued-at and expiry
      times the signing library adds (in seconds). */
  datatype Decoded = Decoded(claims: Claims, iat: int, exp: int)

  /** A signed token. */
  datatype Token = Token(claims: Claims, secret: string, iat: int, exp: int)

  /** `expiresIn: '1d'`. */
  const OneDaySeconds := 86400

  datatype TokenResult = Issued(token: Token) | SecretMissing

  /** `generateToken`: refuses when the secret is unset or empty; otherwise
      signs the claims with it, valid for one day from `now`. */
  function GenerateToken(claims: Claims, secret: Option<string>, now: int): (r: TokenResult)
    ensures r.SecretMissing? <==> !Truthy(secret)
    ensures r.Issued? ==> r.token.claims == claims && r.token.secret == secret.value
    ensures r.Issued? ==> r.token.exp == r.token.iat + OneDaySeconds && r.token.iat == now
  {
    if !Truthy(secret) then SecretMissing
    else Issued(Token(claims, secret.value, now, now + OneDaySeconds))
  }

  /** `jwt.verify(token, secret)`: succeeds only with a secret, the same one
      the token was signed with, strictly before the expiry time. */
  function VerifyToken(t: Token, secret: Option<string>, now: int): (r: Option<Decoded>)
    ensures !Truthy(secret) || t.secret != secret.value || now >= t.exp ==> r.None?
    ensures r.Some? ==> r.value.claims == t.claims && r.value.iat == t.iat && r.value.exp == t.exp
  {
    if Truthy(secret) && t.secret == secret.value && now < t.exp then Some(Decoded(t.claims, t.iat, t.exp))
    else None
  }

  /** The middleware's outcome: three kinds of 401, or the request's user. */
  datatype AuthOutcome =
    | MissingOrMalformed
    | TokenNotFound
    | InvalidToken
    | Authenticated(user: Decoded)
  {
    function Status(): int {
      if Authenticated? then 200 else 401
    }
  }

  const BearerPrefix := "Bearer "

  /** `authHeader.split(' ')[1]`, with a missing second field read as the
      empty string (both are falsy). */
  function SecondField(header: string): string {
    var fields := Split(header, ' ');
    if |fields| >= 2 then fields[1] else ""
  }

  /** `jwtAuthMiddleware`: the header must be present and start with
      "Bearer "; the token is the second space-separated field and must be
      non-empty; the token must parse and verify; the request's user is
      then exactly what verification decoded. */
  function Authenticate(header: Option<string>, parse: string -> Option<Token>,
                        secret: Option<string>, now: int): (r: AuthOutcome)
    ensures !Truthy(secret) ==> !r.Authenticated?
    ensures r.Authenticated? ==>
      && Truthy(header) && StartsWith(header.value, BearerPrefix) && SecondField(header.value) != ""
      && parse(SecondField(header.value)).Some?
      && VerifyToken(parse(SecondField(header.value)).value, secret, now) == Some(r.user)
  {
    if !Truthy(header) || !StartsWith(header.value, BearerPrefix) then MissingOrMalformed
    else
      var text := SecondField(header.value);
      if text == "" then TokenNotFound
      else if parse(text).None? then InvalidToken
      else
        match VerifyToken(parse(text).value, secret, now)
        case None => InvalidToken
        case Some(decoded) => Authenticated(decoded)
  }

  /** The characters of `s` before the first occurrence of `sep`. */
  function TakeUntil(s: string, sep: char): (r: string)
    ensures r <= s && sep !in r
    ensures |r| < |s| ==> s[|r|] == sep
  {
    if s == [] || s[0] == sep then [] else [s[0]] + TakeUntil(s[1..], sep)
  }

  /** The first field of a split runs up to the first separator. */
  lemma {:induction false} FirstFieldIsPrefix(s: string, sep: char)
    ensures Split(s, sep)[0] == TakeUntil(s, sep)
  {
    if s != [] && s[0] != sep {
      FirstFieldIsPrefix(s[1..], sep);
    }
  }

  /** Under a well-formed prefix the token is whatever follows "Bearer " up
      to the next space. */
  lemma TokenFollowsPrefix(header: string)
    requires StartsWith(header, BearerPrefix)
    ensures SecondField(header) == TakeUntil(header[|BearerPrefix|..], ' ')
  {
    var rest := header[|BearerPrefix|..];
    assert header == "Bearer" + (" " + rest);
    SplitField("Bearer", " " + rest, ' ');
    assert (" " + rest)[1..] == rest;
    FirstFieldIsPrefix(rest, ' ');
  }

  /** "Bearer " alone, or "Bearer" followed by two spaces, has an empty
      second field and is answered "Token not found". */
  lemma EmptyTokenNotFound(rest: string, parse: string -> Option<Token>, secret: Option<string>, now: int)
    requires rest == [] || rest[0] == ' '
    ensures Authenticate(Some(BearerPrefix + rest), parse, secret, now) == TokenNotFound
  {
    var header := BearerPrefix + rest;
    assert StartsWith(header, BearerPrefix);
    assert header[|BearerPrefix|..] == rest;
    TokenFollowsPrefix(header);
  }

  /** A missing header, or one that does not begin with "Bearer ", is
      answered "missing or malformed" whatever else it holds. */
  lemma MalformedHeaderRejected(header: Option<string>, parse: string -> Option<Token>, secret: Option<string>, now: int)
    requires header.None? || !StartsWith(header.value, BearerPrefix)
    ensures Authenticate(header, parse, secret, now) == MissingOrMalformed
  {
  }

  /** A freshly generated token sent as "Bearer <text>" authenticates, during
      its day of validity and under the same secret, as exactly the claims it
      was issued for; after that day it is rejected. */
  lemma {:induction false} IssuedTokenAuthenticates(claims: Claims, secret: Option<string>, issuedAt: int,
                                        text: string, parse: string -> Option<Token>, now: int)
    requires GenerateToken(claims, secret, issuedAt).Issued?
    requires text != [] && ' ' !in text
    requires parse(text) == Some(GenerateToken(claims, secret, issuedAt).token)
    ensures issuedAt <= now < issuedAt + OneDaySeconds ==>
      Authenticate(Some(BearerPrefix + text), parse, secret, now)
        == Authenticated(Decoded(claims, issuedAt, issuedAt + OneDaySeconds))
    ensures now >= issuedAt + OneDaySeconds ==>
      Authenticate(Some(BearerPrefix + text), parse, secret, now) == InvalidToken
  {
    var header := BearerPrefix + text;
    assert StartsWith(header, BearerPrefix);
    assert header[|BearerPrefix|..] == text;
    TokenFollowsPrefix(header);
    TakeUntilWhole(text, ' ');
  }

  /** A string without the separator is taken whole. */
  lemma {:induction false} TakeUntilWhole(s: string, sep: char)
    requires sep !in s
    ensures TakeUntil(s, sep) == s
  {
    if s != [] {
      TakeUntilWhole(s[1..], sep);
    }
  }
}
