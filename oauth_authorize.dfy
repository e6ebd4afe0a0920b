/** The OAuth 2.0 authorization page (app/oauth/authorize/page.tsx): validation of the
    requested redirect URI against the application's registered one, the approval and
    denial redirects of sections 4.1.2 and 4.1.2.1 of RFC 6749, and the authorization
    code. The database insert, the URL parser, query-string encoding and JSON encoding of
    the profile are outside the model: the insert's outcome, whether `new URL` accepts the
    redirect URI, and the two encoders are parameters. */
module OAuthAuthorize {
  import opened Wrappers
  import opened Text
  import opened Alphanumeric

  /** JavaScript truthiness of a string that may be null. */
  predicate Truthy(v: Option<string>)
  {
    v.Some? && v.value != ""
  }

  /** `registered.split('://')[1] === ''` behind `registered.includes('://')`: the piece
      between the first "://" and the next one (or the end) is empty. */
  predicate SchemeOnlyAsWritten(registered: string)
  {
    match IndexOf(registered, "://")
    case None => false
    case Some(i) =>
      var rest := registered[i + 3..];
      var piece := match IndexOf(rest, "://") case None => rest case Some(j) => rest[..j];
      piece == ""
  }

  /** The second piece is empty exactly when the first "://" ends the string or is
      immediately followed by another "://". */
  lemma SchemeOnlyAsWrittenCases(registered: string)
    ensures SchemeOnlyAsWritten(registered) <==>
      IndexOf(registered, "://").Some? &&
      var rest := registered[IndexOf(registered, "://").value + 3..];
      rest == "" || StartsWith(rest, "://")
  {
    if IndexOf(registered, "://").Some? {
      var rest := registered[IndexOf(registered, "://").value + 3..];
      if StartsWith(rest, "://") {
        assert IndexOf(rest, "://") == Some(0);
      }
    }
  }

  /** isValidRedirectUri as written in checkSession (both copies are the same expression). */
  predicate IsValidRedirectUri(registered: string, requested: Option<string>)
  {
    Truthy(requested) &&
    var r := requested.value;
    registered == r ||
    (EndsWith(registered, "/") && StartsWith(r, registered)) ||
    (!EndsWith(registered, "/") && StartsWith(r, registered + "/")) ||
    (Contains(registered, "://") && SchemeOnlyAsWritten(registered) && StartsWith(r, registered))
  }

  /** The rules of the validator: nothing is accepted without a redirect URI; the
      registered URI itself is; a registered URI ending in '/' accepts exactly the URIs
      extending it; any other registered URI (outside the scheme clause) accepts itself
      and the URIs extending it past a '/'. */
  lemma RedirectUriRules(registered: string, requested: Option<string>)
    ensures !Truthy(requested) ==> !IsValidRedirectUri(registered, requested)
    ensures registered != "" ==> IsValidRedirectUri(registered, Some(registered))
    ensures Truthy(requested) && EndsWith(registered, "/") ==>
      (IsValidRedirectUri(registered, requested) <==> StartsWith(requested.value, registered))
    ensures Truthy(requested) && !EndsWith(registered, "/") && !SchemeOnlyAsWritten(registered) ==>
      (IsValidRedirectUri(registered, requested) <==>
        requested.value == registered || StartsWith(requested.value, registered + "/"))
  {
  }

  /** indexOf finds the position of an occurrence with no earlier one. */
  lemma IndexOfFirst(s: string, sub: string, i: nat)
    requires i + |sub| <= |s| && s[i..i + |sub|] == sub
    requires forall k :: 0 <= k < i ==> !StartsWith(s[k..], sub)
    ensures IndexOf(s, sub) == Some(i)
  {
    ContainsAt(s, sub, i);
    assert StartsWith(s[i..], sub) by { assert s[i..][..|sub|] == s[i..i + |sub|]; }
  }

  /** The first "://" of a URI whose scheme holds no ':' ends its scheme. */
  lemma {:induction false} SeparatorAfterScheme(scheme: string, rest: string)
    requires ':' !in scheme
    ensures IndexOf(scheme + "://" + rest, "://") == Some(|scheme|)
    decreases |scheme|
  {
    var s := scheme + "://" + rest;
    if scheme == [] {
      assert s[..3] == "://";
    } else {
      assert s[..3][0] == scheme[0];
      assert s[1..] == scheme[1..] + "://" + rest;
      assert ':' !in scheme[1..] by { assert forall c :: c in scheme[1..] ==> c in scheme; }
      SeparatorAfterScheme(scheme[1..], rest);
    }
  }

  /** A URI made of a scheme, "://" and a non-empty path, neither holding a ':', is
      outside the scheme clause. */
  lemma SchemeAndPath(scheme: string, path: string)
    requires ':' !in scheme && ':' !in path && path != ""
    ensures IndexOf(scheme + "://" + path, "://") == Some(|scheme|)
    ensures !SchemeOnlyAsWritten(scheme + "://" + path)
  {
    var reg := scheme + "://" + path;
    SeparatorAfterScheme(scheme, path);
    assert reg[|scheme| + 3..] == path;
    MissingHeadNotContained(path, "://");
  }

  /** Outside the scheme clause, a registered URI without a trailing slash accepts an
      extension of itself exactly when the extension is empty or starts with '/'. */
  lemma PrefixNeedsSlash(registered: string, ext: string)
    requires registered != "" && !EndsWith(registered, "/") && !SchemeOnlyAsWritten(registered)
    ensures IsValidRedirectUri(registered, Some(registered + ext)) <==> ext == "" || ext[0] == '/'
  {
    var r := registered + ext;
    if ext != "" && ext[0] == '/' {
      assert r[..|registered| + 1] == registered + "/";
    }
    if StartsWith(r, registered + "/") {
      assert r[|registered|] == '/';
    }
  }

  /** So a registered https://a/cb accepts https://a/cb/x but not https://a/cbx: for a
      URI of scheme, "://" and a path not ending in '/', what follows it must begin with
      '/'. */
  lemma SlashRuleForPlainUris(scheme: string, path: string, c: char, rest: string)
    requires ':' !in scheme && ':' !in path && path != "" && path[|path| - 1] != '/'
    requires c != '/'
    ensures var reg := scheme + "://" + path;
      !IsValidRedirectUri(reg, Some(reg + [c] + rest)) && IsValidRedirectUri(reg, Some(reg + "/" + rest))
  {
    var reg := scheme + "://" + path;
    SchemeAndPath(scheme, path);
    assert reg[|reg| - 1] == path[|path| - 1];
    assert reg[|reg| - 1..] != "/" by {
      assert reg[|reg| - 1..][0] == reg[|reg| - 1];
    }
    PrefixNeedsSlash(reg, [c] + rest);
    assert reg + [c] + rest == reg + ([c] + rest);
    PrefixNeedsSlash(reg, "/" + rest);
    assert reg + "/" + rest == reg + ("/" + rest);
  }

  /** The scheme clause accepts more than a bare scheme: any registered URI whose first
      "://" is immediately repeated (a scheme, "://", "://", then anything) passes the
      clause, so it accepts every URI beginning with it, also where the slash rule would
      not. */
  lemma SchemeClauseAcceptsRepeatedSeparator(scheme: string, tail: string, extra: string)
    requires ':' !in scheme
    ensures IndexOf(scheme + "://" + "://" + tail, "://") == Some(|scheme|)
    ensures var reg := scheme + "://" + "://" + tail;
      SchemeOnlyAsWritten(reg) && IsValidRedirectUri(reg, Some(reg + extra))
  {
    var reg := scheme + "://" + "://" + tail;
    assert reg == scheme + "://" + ("://" + tail);
    SeparatorAfterScheme(scheme, "://" + tail);
    assert StartsWith(reg[|scheme| + 3..], "://") by { assert reg[|scheme| + 3..][..3] == "://"; }
    SchemeOnlyAsWrittenCases(reg);
    ContainsAt(reg, "://", |scheme|);
    assert StartsWith(reg + extra, reg) by { assert (reg + extra)[..|reg|] == reg; }
  }

  /** A registered URI such as "a://://b" is no bare scheme, yet it accepts
      "a://://bevil", which the slash rule and the intended clause both reject: so does
      every scheme, "://", "://" and a path not ending in '/', followed by anything not
      starting with '/'. */
  lemma SchemeClauseAcceptsLongerPaths(scheme: string, tail: string, extra: string)
    requires ':' !in scheme && tail != "" && tail[|tail| - 1] != '/' && extra != "" && extra[0] != '/'
    ensures var reg := scheme + "://" + "://" + tail;
      !EndsWith(reg, "/") && IsValidRedirectUri(reg, Some(reg + extra)) &&
      !IsValidRedirectUriIntended(reg, Some(reg + extra))
  {
    var reg := scheme + "://" + "://" + tail;
    var r := reg + extra;
    SchemeClauseAcceptsRepeatedSeparator(scheme, tail, extra);
    assert reg[|reg| - 1..] != "/" by {
      assert reg[|reg| - 1..][0] == reg[|reg| - 1] == tail[|tail| - 1];
    }
    IntendedSchemeClause(reg, Some(r));
    assert r[|reg|] == extra[0];
    assert !StartsWith(r, reg + "/") by {
      assert (reg + "/")[|reg|] == '/';
      if |reg + "/"| <= |r| {
        assert r[..|reg + "/"|][|reg|] == r[|reg|];
      }
    }
  }

  /** The evident intent of the scheme clause ("the application registered only a
      protocol, such as ruanmow://"): nothing follows the first "://". */
  predicate SchemeOnly(registered: string)
  {
    match IndexOf(registered, "://")
    case None => false
    case Some(i) => i + 3 == |registered|
  }

  predicate IsValidRedirectUriIntended(registered: string, requested: Option<string>)
  {
    Truthy(requested) &&
    var r := requested.value;
    registered == r ||
    (EndsWith(registered, "/") && StartsWith(r, registered)) ||
    (!EndsWith(registered, "/") && StartsWith(r, registered + "/")) ||
    (SchemeOnly(registered) && StartsWith(r, registered))
  }

  /** With the intended clause, a bare scheme such as "ruanmow://" accepts every URI of
      that scheme, and the clause adds nothing to the slash rules: the registered URI then
      ends in "://" and hence in '/'. */
  lemma IntendedSchemeClause(registered: string, requested: Option<string>)
    ensures SchemeOnly(registered) ==> EndsWith(registered, "://")
    ensures SchemeOnly(registered) && Truthy(requested) ==>
      (IsValidRedirectUriIntended(registered, requested) <==> StartsWith(requested.value, registered))
    ensures IsValidRedirectUriIntended(registered, requested) <==>
      Truthy(requested) &&
      (registered == requested.value ||
       (EndsWith(registered, "/") && StartsWith(requested.value, registered)) ||
       (!EndsWith(registered, "/") && StartsWith(requested.value, registered + "/")))
  {
    if SchemeOnly(registered) {
      var i := IndexOf(registered, "://").value;
      assert registered[|registered| - 3..] == registered[i..][..3];
    }
  }

  /** The outcome of checkSession once the application row is fetched: an error message,
      or None when the page may ask the user for consent. */
  function ClientCheck(registered: Option<string>, requested: Option<string>): (r: Option<string>)
    ensures r.None? <==> registered.Some? && IsValidRedirectUri(registered.value, requested)
    ensures registered.None? ==> r == Some("无效的客户端ID")
    ensures registered.Some? && r.Some? ==> r == Some("无效的重定向URI")
  {
    match registered
    case None => Some("无效的客户端ID")
    case Some(uri) => if IsValidRedirectUri(uri, requested) then None else Some("无效的重定向URI")
  }

  /** Consent is asked only for a known client and a requested redirect URI that begins
      with the registered one: whatever the validator's clauses accept, the code can only
      be delivered below the application's own URI. */
  lemma ConsentNeedsRegisteredPrefix(registered: Option<string>, requested: Option<string>)
    ensures ClientCheck(registered, requested).None? ==>
      registered.Some? && requested.Some? && requested.value != "" &&
      StartsWith(requested.value, registered.value)
  {
    if ClientCheck(registered, requested).None? {
      var reg, r := registered.value, requested.value;
      if reg == r {
        assert r[..|reg|] == r;
      } else if !EndsWith(reg, "/") && StartsWith(r, reg + "/") {
        assert r[..|reg|] == r[..|reg + "/"|][..|reg|];
      }
    }
  }

  /** One query parameter, as set on URL.searchParams or URLSearchParams. */
  datatype Param = Param(key: string, value: string)

  function Keys(ps: seq<Param>): (r: seq<string>)
    ensures |r| == |ps| && forall i :: 0 <= i < |ps| ==> r[i] == ps[i].key
  {
    if ps == [] then [] else [ps[0].key] + Keys(ps[1..])
  }

  /** The stored profile; `rest` stands for every other property it may hold. */
  datatype Profile = Profile(id: Option<int>, name: Option<string>, email: Option<string>,
                             avatarUrl: Option<string>, hasBetaAccess: Option<bool>,
                             rest: seq<(string, string)>)

  /** The profile sent to the client: id, name, email, avatar_url and has_beta_access only. */
  datatype SafeProfile = SafeProfile(id: Option<int>, name: Option<string>, email: Option<string>,
                                     avatarUrl: Option<string>, hasBetaAccess: Option<bool>)

  function Safe(p: Profile): (r: SafeProfile)
    ensures r.id == p.id && r.name == p.name && r.email == p.email
    ensures r.avatarUrl == p.avatarUrl && r.hasBetaAccess == p.hasBetaAccess
  {
    SafeProfile(p.id, p.name, p.email, p.avatarUrl, p.hasBetaAccess)
  }

  /** localStorage 'userProfile': absent or empty, not JSON, or a parsed profile. */
  datatype StoredProfile = NoProfile | Unparseable | Parsed(profile: Profile)

  /** The user id read from the stored profile; a missing or zero id is falsy. */
  function UserId(stored: StoredProfile): (r: Option<int>)
    ensures r.Some? <==> stored.Parsed? && stored.profile.id.Some? && stored.profile.id.value != 0
    ensures r.Some? ==> r == stored.profile.id
  {
    if stored.Parsed? && stored.profile.id.Some? && stored.profile.id.value != 0 then stored.profile.id else None
  }

  /** The approval parameters of section 4.1.2 of RFC 6749 plus the profile: code, then
      state when one was supplied, then user_profile. */
  function ApprovalParams(code: string, state: Option<string>, profileParam: string): seq<Param>
  {
    [Param("code", code)] + (if Truthy(state) then [Param("state", state.value)] else []) +
    [Param("user_profile", profileParam)]
  }

  /** The denial parameters of section 4.1.2.1 of RFC 6749. */
  function DenialParams(state: Option<string>): seq<Param>
  {
    [Param("error", "access_denied"), Param("error_description", "用户取消了授权")] +
    (if Truthy(state) then [Param("state", state.value)] else [])
  }

  /** The approval redirect carries the code first, state exactly when supplied and with
      the client's value, the profile last, and nothing else. */
  lemma RedirectParams(code: string, state: Option<string>, profileParam: string)
    ensures var ps := ApprovalParams(code, state, profileParam);
      ps[0] == Param("code", code) && ps[|ps| - 1] == Param("user_profile", profileParam) &&
      ("state" in Keys(ps) <==> Truthy(state)) &&
      (Truthy(state) ==> Param("state", state.value) in ps) &&
      forall k :: k in Keys(ps) ==> k in ["code", "state", "user_profile"]
  {
    var ps := ApprovalParams(code, state, profileParam);
    if !Truthy(state) {
      assert Keys(ps) == ["code", "user_profile"];
    } else {
      assert Keys(ps) == ["code", "state", "user_profile"];
    }
  }

  /** The denial redirect carries access_denied, a description and the same state, and
      no code. */
  lemma DenialRedirectParams(state: Option<string>)
    ensures var ps := DenialParams(state);
      ps[0] == Param("error", "access_denied") && "error_description" in Keys(ps) &&
      ("state" in Keys(ps) <==> Truthy(state)) &&
      (Truthy(state) ==> Param("state", state.value) in ps) &&
      !("code" in Keys(ps))
  {
    var ds := DenialParams(state);
    if !Truthy(state) {
      assert Keys(ds) == ["error", "error_description"];
    } else {
      assert Keys(ds) == ["error", "error_description", "state"];
    }
  }

  /** The string-concatenation fallback for redirect URIs `new URL` rejects (custom schemes
      such as app://): None when the URI is blank, otherwise the URI, then '&' if it
      already holds a '?' and '?' if not, then the encoded parameters. */
  function FallbackUrl(uri: string, query: string): (r: Option<string>)
    ensures r.None? <==> AllSpace(uri)
    ensures r.Some? ==>
      |r.value| == |uri| + 1 + |query| && StartsWith(r.value, uri) &&
      r.value[|uri|] == (if Contains(uri, "?") then '&' else '?') && r.value[|uri| + 1..] == query
  {
    TrimEmptyIff(uri);
    if Trim(uri) == "" then None else Some(uri + [if Contains(uri, "?") then '&' else '?'] + query)
  }

  /** Where the browser is sent: a parsed URL with parameters set on it (its serialisation
      is the URL parser's), or a concatenated string. */
  datatype Target = ParsedUrl(base: string, params: seq<Param>) | Concatenated(url: string)

  datatype Outcome = NoAction | Redirect(target: Target) | ShowError(message: string)

  /** The last step of both handlers: the URL-object path when the URI parses, otherwise
      the concatenation fallback, failing with `blankError` on a blank URI. */
  function RedirectTo(uri: string, parsesAsUrl: bool, ps: seq<Param>,
                      query: seq<Param> -> string, blankError: string): (r: Outcome)
    ensures r.ShowError? <==> !parsesAsUrl && AllSpace(uri)
    ensures r.ShowError? ==> r.message == blankError
    ensures parsesAsUrl ==> r == Redirect(ParsedUrl(uri, ps))
    ensures !parsesAsUrl && !AllSpace(uri) ==> r == Redirect(Concatenated(FallbackUrl(uri, query(ps)).value))
  {
    if parsesAsUrl then Redirect(ParsedUrl(uri, ps))
    else match FallbackUrl(uri, query(ps))
         case None => ShowError(blankError)
         case Some(url) => Redirect(Concatenated(url))
  }

  /** The row saved in oauth_authorization_codes. */
  datatype CodeRow = CodeRow(code: string, clientId: Option<string>, userId: int,
                             redirectUri: Option<string>, scopes: string, expiresAt: int)

  /** The error's message, or 未知错误 when it is empty. */
  function ErrorMessage(message: string): string
  {
    if message == "" then "未知错误" else message
  }

  const CodeLifetimeMs: int := 10 * 60 * 1000

  /** generateAuthorizationCode: 32 random letters and digits. */
  method GenerateAuthorizationCode() returns (code: string)
    ensures |code| == 32 && forall i :: 0 <= i < |code| ==> IsAlnum(code[i])
  {
    code := RandomString(32);
  }

  /** handleAuthorize. `insertError` is the database's error message when the insert
      fails; `parsesAsUrl` says whether `new URL(redirectUri)` succeeds; `profileParam`
      is encodeURIComponent(JSON.stringify(·)) and `query` is URLSearchParams.toString(). */
  method HandleAuthorize(hasUser: bool, hasClientInfo: bool, clientId: Option<string>,
                         redirectUri: Option<string>, scope: string, state: Option<string>,
                         stored: StoredProfile, now: int, insertError: Option<string>,
                         parsesAsUrl: bool, profileParam: SafeProfile -> string,
                         query: seq<Param> -> string)
    returns (inserted: Option<CodeRow>, outcome: Outcome)
    ensures !(hasUser && hasClientInfo) ==> inserted == None && outcome == NoAction
    ensures hasUser && hasClientInfo && UserId(stored).None? ==>
      inserted == None && outcome == ShowError("授权失败：无法获取用户ID")
    ensures hasUser && hasClientInfo && UserId(stored).Some? ==>
      inserted.Some? &&
      var row := inserted.value;
      |row.code| == 32 && (forall i :: 0 <= i < 32 ==> IsAlnum(row.code[i])) &&
      row.clientId == clientId && row.userId == UserId(stored).value &&
      row.redirectUri == redirectUri && row.scopes == scope && row.expiresAt == now + CodeLifetimeMs &&
      var ps := ApprovalParams(row.code, state, profileParam(Safe(stored.profile)));
      outcome ==
        if insertError.Some? then ShowError("授权失败：" + ErrorMessage(insertError.value))
        else if !Truthy(redirectUri) then ShowError("授权失败：缺少重定向URI")
        else RedirectTo(redirectUri.value, parsesAsUrl, ps, query, "授权失败：重定向URI不能为空")
  {
    if !hasUser || !hasClientInfo {
      return None, NoAction;
    }
    var code := GenerateAuthorizationCode();
    var expiresAt := now + CodeLifetimeMs;
    var userId := UserId(stored);
    if userId.None? {
      return None, ShowError("授权失败：无法获取用户ID");
    }
    inserted := Some(CodeRow(code, clientId, userId.value, redirectUri, scope, expiresAt));
    if insertError.Some? {
      return inserted, ShowError("授权失败：" + ErrorMessage(insertError.value));
    }
    if !Truthy(redirectUri) {
      return inserted, ShowError("授权失败：缺少重定向URI");
    }
    var params := [Param("code", code)];
    if Truthy(state) {
      params := params + [Param("state", state.value)];
    }
    params := params + [Param("user_profile", profileParam(Safe(stored.profile)))];
    assert params == ApprovalParams(code, state, profileParam(Safe(stored.profile)));
    if parsesAsUrl {
      outcome := Redirect(ParsedUrl(redirectUri.value, params));
    } else {
      var url := FallbackUrl(redirectUri.value, query(params));
      if url.None? {
        outcome := ShowError("授权失败：重定向URI不能为空");
      } else {
        outcome := Redirect(Concatenated(url.value));
      }
    }
  }

  /** handleCancel: the denial redirect, with the same two error paths but without the
      "授权失败：" prefix. */
  method HandleCancel(redirectUri: Option<string>, state: Option<string>, parsesAsUrl: bool,
                      query: seq<Param> -> string)
    returns (outcome: Outcome)
    ensures !Truthy(redirectUri) ==> outcome == ShowError("缺少重定向URI")
    ensures Truthy(redirectUri) ==>
      outcome == RedirectTo(redirectUri.value, parsesAsUrl, DenialParams(state), query, "重定向URI不能为空")
  {
    if !Truthy(redirectUri) {
      return ShowError("缺少重定向URI");
    }
    var params := [Param("error", "access_denied"), Param("error_description", "用户取消了授权")];
    if Truthy(state) {
      params := params + [Param("state", state.value)];
    }
    assert params == DenialParams(state);
    if parsesAsUrl {
      outcome := Redirect(ParsedUrl(redirectUri.value, params));
    } else {
      var url := FallbackUrl(redirectUri.value, query(params));
      if url.None? {
        outcome := ShowError("重定向URI不能为空");
      } else {
        outcome := Redirect(Concatenated(url.value));
      }
    }
  }
}
