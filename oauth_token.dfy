/** The OAuth 2.0 token endpoint (app/oauth/token/route.ts): the authorization-code and
    refresh-token grants of sections 4.1.3 and 6 of RFC 6749, with the error codes of
    section 5.2 and the success response of section 5.1. The three tables it queries
    are a value passed in; a query ending in `.single()` yields a row only when exactly
    one row matches. The generated tokens, the id the database gives a new token row and
    the outcome of the insert or update are parameters. */
module OAuthToken {
  import opened Wrappers
  import opened Alphanumeric
  import opened Text

  /** `.single()`: the one matching row, or an error (None) for zero or several. */
  function Single<T>(rows: seq<T>): (r: Option<T>)
    ensures r.Some? <==> |rows| == 1
    ensures r.Some? ==> r.value == rows[0]
  {
    if |rows| == 1 then Some(rows[0]) else None
  }

  datatype App = App(clientId: string, clientSecret: string)

  datatype CodeRecord = CodeRecord(code: string, clientId: string, userId: int, redirectUri: string,
                                   scopes: string, expiresAt: int)

  datatype TokenRecord = TokenRecord(id: int, accessToken: string, refreshToken: string, clientId: string,
                                     userId: int, scopes: string, expiresAt: int)

  /** oauth_applications, oauth_authorization_codes and oauth_tokens. */
  datatype Db = Db(apps: seq<App>, codes: seq<CodeRecord>, tokens: seq<TokenRecord>)

  /** The destructured JSON body; None is an absent or null property. */
  datatype TokenRequest = TokenRequest(grantType: Option<string>, code: Option<string>,
                                       refreshToken: Option<string>, clientId: Option<string>,
                                       clientSecret: Option<string>, redirectUri: Option<string>)

  datatype TokenResponse =
    | Tokens(accessToken: string, tokenType: string, expiresIn: int, refreshToken: string, scope: string)
    | OAuthError(status: int, error: string, description: string)

  predicate Falsy(v: Option<string>)
  {
    v.None? || v.value == ""
  }

  const TokenLifetimeSeconds: int := 3600

  function ClientRow(db: Db, clientId: string, clientSecret: string): Option<App>
  {
    Single(Filter(db.apps, (a: App) => a.clientId == clientId && a.clientSecret == clientSecret))
  }

  function CodeRow(db: Db, code: string, clientId: string): Option<CodeRecord>
  {
    Single(Filter(db.codes, (c: CodeRecord) => c.code == code && c.clientId == clientId))
  }

  function TokenRow(db: Db, refreshToken: string, clientId: string): Option<TokenRecord>
  {
    Single(Filter(db.tokens, (t: TokenRecord) => t.refreshToken == refreshToken && t.clientId == clientId))
  }

  const InvalidClient := OAuthError(401, "invalid_client", "无效的客户端凭证")
  const MissingParams := OAuthError(400, "invalid_request", "缺少必需参数")

  /** The authorization_code branch. */
  function ExchangeCode(req: TokenRequest, db: Db, now: int, access: string, refresh: string,
                        newTokenId: int, insertFails: bool): (TokenResponse, Db)
  {
    if Falsy(req.code) || Falsy(req.clientId) || Falsy(req.clientSecret) || Falsy(req.redirectUri) then
      (MissingParams, db)
    else
      var code, clientId := req.code.value, req.clientId.value;
      if ClientRow(db, clientId, req.clientSecret.value).None? then (InvalidClient, db)
      else match CodeRow(db, code, clientId)
        case None => (OAuthError(400, "invalid_grant", "无效的授权码"), db)
        case Some(row) =>
          if row.expiresAt < now then (OAuthError(400, "invalid_grant", "授权码已过期"), db)
          else if row.redirectUri != req.redirectUri.value then (OAuthError(400, "invalid_grant", "重定向URI不匹配"), db)
          else if insertFails then (OAuthError(500, "server_error", "令牌保存失败"), db)
          else
            var saved := TokenRecord(newTokenId, access, refresh, clientId, row.userId, row.scopes,
                                     now + TokenLifetimeSeconds * 1000);
            var db' := db.(tokens := db.tokens + [saved],
                           codes := Filter(db.codes, (c: CodeRecord) => c.code != code));
            (Tokens(access, "Bearer", TokenLifetimeSeconds, refresh, row.scopes), db')
  }

  /** The row update of the refresh branch: every row with the looked-up id. */
  function Rotated(tokens: seq<TokenRecord>, id: int, access: string, refresh: string, expiresAt: int): (r: seq<TokenRecord>)
    ensures |r| == |tokens|
    ensures forall i :: 0 <= i < |tokens| ==>
      r[i] == if tokens[i].id == id then tokens[i].(accessToken := access, refreshToken := refresh, expiresAt := expiresAt)
              else tokens[i]
  {
    if tokens == [] then []
    else
      [if tokens[0].id == id then tokens[0].(accessToken := access, refreshToken := refresh, expiresAt := expiresAt)
       else tokens[0]] + Rotated(tokens[1..], id, access, refresh, expiresAt)
  }

  /** The refresh_token branch. */
  function RefreshTokens(req: TokenRequest, db: Db, now: int, access: string, refresh: string,
                         updateFails: bool): (TokenResponse, Db)
  {
    if Falsy(req.refreshToken) || Falsy(req.clientId) || Falsy(req.clientSecret) then (MissingParams, db)
    else
      var clientId := req.clientId.value;
      if ClientRow(db, clientId, req.clientSecret.value).None? then (InvalidClient, db)
      else match TokenRow(db, req.refreshToken.value, clientId)
        case None => (OAuthError(400, "invalid_grant", "无效的刷新令牌"), db)
        case Some(row) =>
          if updateFails then (OAuthError(500, "server_error", "令牌更新失败"), db)
          else
            var db' := db.(tokens := Rotated(db.tokens, row.id, access, refresh, now + TokenLifetimeSeconds * 1000));
            (Tokens(access, "Bearer", TokenLifetimeSeconds, refresh, row.scopes), db')
  }

  /** POST /oauth/token. `body` is None when request.json() throws. Every error leaves the
      tables as they were; a success hands out the two given tokens. */
  function TokenEndpoint(body: Option<TokenRequest>, db: Db, now: int, access: string, refresh: string,
                         newTokenId: int, insertFails: bool, updateFails: bool): (r: (TokenResponse, Db))
    ensures r.0.OAuthError? ==> r.1 == db
    ensures r.0.Tokens? ==>
      body.Some? && body.value.clientId.Some? && body.value.clientSecret.Some? &&
      ClientRow(db, body.value.clientId.value, body.value.clientSecret.value).Some? &&
      r.0.accessToken == access && r.0.refreshToken == refresh &&
      r.0.tokenType == "Bearer" && r.0.expiresIn == 3600
  {
    match body
    case None => (OAuthError(500, "server_error", "服务器内部错误"), db)
    case Some(req) =>
      if Falsy(req.grantType) then (OAuthError(400, "invalid_request", "缺少grant_type参数"), db)
      else if req.grantType.value == "authorization_code" then
        ExchangeCode(req, db, now, access, refresh, newTokenId, insertFails)
      else if req.grantType.value == "refresh_token" then
        RefreshTokens(req, db, now, access, refresh, updateFails)
      else (OAuthError(400, "unsupported_grant_type", "不支持的授权类型"), db)
  }

  /** Requests rejected for their shape alone are rejected whatever the tables hold: a
      missing grant type, a missing parameter of either grant, an unknown grant type. */
  lemma ShapeErrorsBeforeLookup(req: TokenRequest, db1: Db, db2: Db, now: int, access: string, refresh: string,
                                newTokenId: int, insertFails: bool, updateFails: bool)
    ensures Falsy(req.grantType) ==>
      TokenEndpoint(Some(req), db1, now, access, refresh, newTokenId, insertFails, updateFails).0 ==
      OAuthError(400, "invalid_request", "缺少grant_type参数")
    ensures (req.grantType == Some("authorization_code") &&
             (Falsy(req.code) || Falsy(req.clientId) || Falsy(req.clientSecret) || Falsy(req.redirectUri))) ==>
      TokenEndpoint(Some(req), db1, now, access, refresh, newTokenId, insertFails, updateFails).0 == MissingParams
    ensures (req.grantType == Some("refresh_token") &&
             (Falsy(req.refreshToken) || Falsy(req.clientId) || Falsy(req.clientSecret))) ==>
      TokenEndpoint(Some(req), db1, now, access, refresh, newTokenId, insertFails, updateFails).0 == MissingParams
    ensures !Falsy(req.grantType) && req.grantType.value != "authorization_code" && req.grantType.value != "refresh_token" ==>
      TokenEndpoint(Some(req), db1, now, access, refresh, newTokenId, insertFails, updateFails).0 ==
      OAuthError(400, "unsupported_grant_type", "不支持的授权类型")
    ensures (Falsy(req.grantType) ||
             (req.grantType == Some("authorization_code") &&
              (Falsy(req.code) || Falsy(req.clientId) || Falsy(req.clientSecret) || Falsy(req.redirectUri))) ||
             (req.grantType == Some("refresh_token") &&
              (Falsy(req.refreshToken) || Falsy(req.clientId) || Falsy(req.clientSecret))) ||
             (req.grantType.value != "authorization_code" && req.grantType.value != "refresh_token")) ==>
      TokenEndpoint(Some(req), db1, now, access, refresh, newTokenId, insertFails, updateFails).0 ==
      TokenEndpoint(Some(req), db2, now, access, refresh, newTokenId, insertFails, updateFails).0
  {
  }

  /** Credentials matching no application (or several) give invalid_client with status
      401 in both grants, whatever the code and token tables hold. */
  lemma BadClientIs401(req: TokenRequest, db: Db, now: int, access: string, refresh: string,
                       newTokenId: int, insertFails: bool, updateFails: bool)
    requires req.grantType == Some("authorization_code") || req.grantType == Some("refresh_token")
    requires !Falsy(req.clientId) && !Falsy(req.clientSecret)
    requires req.grantType == Some("authorization_code") ==> !Falsy(req.code) && !Falsy(req.redirectUri)
    requires req.grantType == Some("refresh_token") ==> !Falsy(req.refreshToken)
    requires ClientRow(db, req.clientId.value, req.clientSecret.value).None?
    ensures TokenEndpoint(Some(req), db, now, access, refresh, newTokenId, insertFails, updateFails).0 == InvalidClient
  {
  }

  /** A well-formed code request from a known client: the code checks in order (unknown
      for this client, expired strictly before now, redirect URI differing), then the
      insert; success returns Bearer, 3600 and the code's scopes, saves one token row for
      the code's user and only then deletes the code. */
  lemma CodeExchange(req: TokenRequest, db: Db, now: int, access: string, refresh: string,
                     newTokenId: int, insertFails: bool, updateFails: bool)
    requires req.grantType == Some("authorization_code")
    requires !Falsy(req.code) && !Falsy(req.clientId) && !Falsy(req.clientSecret) && !Falsy(req.redirectUri)
    requires ClientRow(db, req.clientId.value, req.clientSecret.value).Some?
    ensures var (resp, db') := TokenEndpoint(Some(req), db, now, access, refresh, newTokenId, insertFails, updateFails);
      var row := CodeRow(db, req.code.value, req.clientId.value);
      (row.None? ==> resp == OAuthError(400, "invalid_grant", "无效的授权码")) &&
      (row.Some? && row.value.expiresAt < now ==> resp == OAuthError(400, "invalid_grant", "授权码已过期")) &&
      (row.Some? && row.value.expiresAt >= now && row.value.redirectUri != req.redirectUri.value ==>
        resp == OAuthError(400, "invalid_grant", "重定向URI不匹配")) &&
      (row.Some? && row.value.expiresAt >= now && row.value.redirectUri == req.redirectUri.value ==>
        (insertFails ==> resp == OAuthError(500, "server_error", "令牌保存失败") && db' == db) &&
        (!insertFails ==>
          resp == Tokens(access, "Bearer", 3600, refresh, row.value.scopes) &&
          db'.apps == db.apps &&
          db'.tokens == db.tokens + [TokenRecord(newTokenId, access, refresh, req.clientId.value,
                                                 row.value.userId, row.value.scopes, now + 3600000)] &&
          (forall i :: 0 <= i < |db'.codes| ==> db'.codes[i] in db.codes && db'.codes[i].code != req.code.value) &&
          (forall i :: 0 <= i < |db.codes| && db.codes[i].code != req.code.value ==> db.codes[i] in db'.codes)))
  {
    var code := req.code.value;
    FilterContents(db.codes, (c: CodeRecord) => c.code != code);
  }

  /** A code works once: after a successful exchange the same request is refused as an
      unknown code. */
  lemma CodeSingleUse(req: TokenRequest, db: Db, now: int, access: string, refresh: string,
                      newTokenId: int, access2: string, refresh2: string, newTokenId2: int,
                      insertFails2: bool, updateFails: bool)
    requires req.grantType == Some("authorization_code")
    requires TokenEndpoint(Some(req), db, now, access, refresh, newTokenId, false, updateFails).0.Tokens?
    ensures var db' := TokenEndpoint(Some(req), db, now, access, refresh, newTokenId, false, updateFails).1;
      TokenEndpoint(Some(req), db', now, access2, refresh2, newTokenId2, insertFails2, updateFails).0 ==
      OAuthError(400, "invalid_grant", "无效的授权码")
  {
    var db' := TokenEndpoint(Some(req), db, now, access, refresh, newTokenId, false, updateFails).1;
    var code, clientId := req.code.value, req.clientId.value;
    assert db'.apps == db.apps;
    FilterContents(db.codes, (c: CodeRecord) => c.code != code);
    assert forall i :: 0 <= i < |db'.codes| ==> db'.codes[i].code != code;
    FilterContents(db'.codes, (c: CodeRecord) => c.code == code && c.clientId == clientId);
  }

  /** A well-formed refresh request from a known client: an unknown refresh token for that
      client gives invalid_grant; otherwise a failed update gives server_error 500 and
      leaves the tables as they were, and a successful one replaces both tokens of the
      row, returns the old scopes, and retires the old refresh token once it differs from
      the new one. */
  lemma RefreshRotation(req: TokenRequest, db: Db, now: int, access: string, refresh: string,
                        newTokenId: int, insertFails: bool, updateFails: bool)
    requires req.grantType == Some("refresh_token")
    requires !Falsy(req.refreshToken) && !Falsy(req.clientId) && !Falsy(req.clientSecret)
    requires ClientRow(db, req.clientId.value, req.clientSecret.value).Some?
    ensures var (resp, db') := TokenEndpoint(Some(req), db, now, access, refresh, newTokenId, insertFails, updateFails);
      var row := TokenRow(db, req.refreshToken.value, req.clientId.value);
      (row.None? ==> resp == OAuthError(400, "invalid_grant", "无效的刷新令牌")) &&
      (row.Some? && updateFails ==> resp == OAuthError(500, "server_error", "令牌更新失败") && db' == db) &&
      (row.Some? && !updateFails ==>
        resp == Tokens(access, "Bearer", 3600, refresh, row.value.scopes) &&
        db'.apps == db.apps && db'.codes == db.codes &&
        db'.tokens == Rotated(db.tokens, row.value.id, access, refresh, now + 3600000) &&
        (refresh != req.refreshToken.value ==> TokenRow(db', req.refreshToken.value, req.clientId.value).None?))
  {
    var row := TokenRow(db, req.refreshToken.value, req.clientId.value);
    if row.Some? && !updateFails && refresh != req.refreshToken.value {
      RotationRetiresToken(db, req.refreshToken.value, req.clientId.value, access, refresh, now + 3600000);
    }
  }

  /** When a filter keeps exactly one element, no other element satisfies the predicate. */
  lemma OnlyMatch<T>(s: seq<T>, p: T -> bool)
    requires |Filter(s, p)| == 1
    ensures forall i :: 0 <= i < |s| && p(s[i]) ==> s[i] == Filter(s, p)[0]
  {
    FilterContents(s, p);
  }

  /** Rotating the one row a refresh token matched leaves no row matching it. */
  lemma RotationRetiresToken(db: Db, rt: string, clientId: string, access: string, refresh: string, expiresAt: int)
    requires TokenRow(db, rt, clientId).Some? && refresh != rt
    ensures TokenRow(db.(tokens := Rotated(db.tokens, TokenRow(db, rt, clientId).value.id, access, refresh, expiresAt)),
                     rt, clientId).None?
  {
    var row := TokenRow(db, rt, clientId).value;
    var tokens' := Rotated(db.tokens, row.id, access, refresh, expiresAt);
    var p := (t: TokenRecord) => t.refreshToken == rt && t.clientId == clientId;
    OnlyMatch(db.tokens, p);
    // a rotated row now holds `refresh`; an untouched one has another id than the
    // looked-up row, the only one that matched before
    forall i | 0 <= i < |tokens'| ensures !p(tokens'[i]) {
      if db.tokens[i].id != row.id {
        assert tokens'[i] == db.tokens[i] != row;
      }
    }
    FilterContents(tokens', p);
  }

  /** generateToken(n): n random letters and digits. */
  method GenerateToken(n: nat) returns (token: string)
    ensures |token| == n && forall i :: 0 <= i < n ==> IsAlnum(token[i])
  {
    token := RandomString(n);
  }

  /** The handler with its two 64-character tokens drawn. */
  method HandleTokenRequest(body: Option<TokenRequest>, db: Db, now: int, newTokenId: int,
                            insertFails: bool, updateFails: bool)
    returns (resp: TokenResponse, db': Db)
    ensures exists access: string, refresh: string ::
      |access| == 64 && |refresh| == 64 &&
      (forall i :: 0 <= i < 64 ==> IsAlnum(access[i]) && IsAlnum(refresh[i])) &&
      (resp, db') == TokenEndpoint(body, db, now, access, refresh, newTokenId, insertFails, updateFails)
  {
    var access := GenerateToken(64);
    var refresh := GenerateToken(64);
    resp, db' := TokenEndpoint(body, db, now, access, refresh, newTokenId, insertFails, updateFails).0,
                 TokenEndpoint(body, db, now, access, refresh, newTokenId, insertFails, updateFails).1;
  }
}
