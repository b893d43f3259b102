/**
  The client object of strava_client/client.py: its settings fields, which
  the token lifecycle updates in place, and its methods. The outside world is
  passed in: endpoint replies, the pasted redirect URL, the current time in
  whole seconds, and the scope query text. Two ghost logs record what the
  client did: `sent`, the outbound calls in order, and `persisted`, the
  settings snapshots written by each dump, in order.
 */
module Client {
  import opened Wrappers
  import opened Requests
  import opened Authorization
  import opened ClientSpec

  class StravaClient {
    var clientId: int
    var clientSecret: string
    var accessToken: Option<string>
    var refreshToken: Option<string>
    var expiresAt: Option<int>
    var scopes: seq<Scope>
    ghost var sent: seq<Call>
    ghost var persisted: seq<Credentials>

    /** The current settings are the last ones persisted, when any were. */
    ghost predicate Durable()
      reads this
    {
      persisted == [] || persisted[|persisted| - 1] == Settings()
    }

    /** The settings as one value. */
    function Settings(): Credentials
      reads this
    {
      Credentials(clientId, clientSecret, accessToken, refreshToken, expiresAt)
    }

    /** The client over freshly loaded settings and already converted scopes, before any call. */
    constructor (loaded: Credentials, scopes: seq<Scope>)
      ensures Settings() == loaded && this.scopes == scopes
      ensures sent == [] && persisted == []
    {
      clientId := loaded.clientId;
      clientSecret := loaded.clientSecret;
      accessToken := loaded.accessToken;
      refreshToken := loaded.refreshToken;
      expiresAt := loaded.expiresAt;
      this.scopes := scopes;
      sent := [];
      persisted := [];
    }

    /** `_update_settings_and_dump`: the three token fields, then one dump of the result. */
    method UpdateSettingsAndDump(t: TokenResponse)
      modifies this
      ensures Settings() == Install(old(Settings()), t)
      ensures persisted == old(persisted) + [Settings()] && Durable()
      ensures sent == old(sent) && scopes == old(scopes)
    {
      accessToken := Some(t.accessToken);
      refreshToken := Some(t.refreshToken);
      expiresAt := Some(t.expiresAt);
      persisted := persisted + [Settings()];
    }

    /** `_refresh_token`. */
    method RefreshToken(reply: TokenReply) returns (r: Result<TokenResponse, ClientError>)
      modifies this`sent
      ensures var e := RefreshTokenSpec(Settings(), reply);
        r == e.result && sent == old(sent) + e.calls
    {
      if refreshToken.None? {
        return Failure(MissingRefreshToken);
      }
      var form := DumpRefreshTokenRequest(RefreshTokenRequest(clientId, clientSecret, refreshToken.value));
      sent := sent + [Post(TokenUrl, form)];
      if reply.status != 200 {
        return Failure(TokenRefreshFailed(reply.status));
      }
      if reply.token.None? {
        return Failure(InvalidTokenResponse);
      }
      return Success(reply.token.value);
    }

    /** `_get_access_token`. */
    method GetAccessToken(code: string, reply: TokenReply) returns (r: Result<TokenResponse, ClientError>)
      modifies this`sent
      ensures var e := GetAccessTokenSpec(Settings(), code, reply);
        r == e.result && sent == old(sent) + e.calls
    {
      var form := DumpTokenRequest(TokenRequest(clientId, clientSecret, code));
      sent := sent + [Post(TokenUrl, form)];
      if reply.status != 200 {
        return Failure(TokenExchangeFailed(reply.status, reply.text));
      }
      if reply.token.None? {
        return Failure(InvalidTokenResponse);
      }
      return Success(reply.token.value);
    }

    /**
      `_request_auth_code`: the authorize URL is built by appending each
      parameter in turn, the browser is sent there, and the code is taken
      from the pasted redirect URL.
     */
    method RequestAuthCode(scopeQuery: seq<Scope> -> string, pasted: string) returns (r: Result<string, ClientError>)
      modifies this`sent
      ensures var e := RequestAuthCodeSpec(Settings(), scopeQuery(scopes), pasted);
        r == e.result && sent == old(sent) + e.calls
    {
      var url := AuthorizePath;
      url := url + "?client_id=" + IntToDecimal(clientId);
      url := url + "&response_type=code";
      url := url + "&redirect_uri=" + RedirectUri;
      url := url + "&approval_prompt=force";
      url := url + "&scope=" + scopeQuery(scopes);
      AuthorizeUrlAppended(clientId, scopeQuery(scopes));
      sent := sent + [OpenBrowser(url)];
      var code := ExtractCode(pasted);
      if code.None? {
        return Failure(AuthorizationCodeMissing);
      }
      return Success(code.value);
    }

    /** `_verify_token`: the expiry gate. */
    method VerifyToken(now: int, reply: TokenReply) returns (r: Result<(), ClientError>)
      modifies this
      ensures var e := VerifyTokenSpec(old(Settings()), now, reply);
        r == e.result && Settings() == e.after
        && sent == old(sent) + e.calls && persisted == old(persisted) + e.saved
      ensures scopes == old(scopes)
      ensures old(Durable()) ==> Durable()
    {
      if expiresAt.None? {
        return Failure(ExpiryUnset);
      }
      if now >= expiresAt.value {
        var refreshed := RefreshToken(reply);
        if refreshed.Failure? {
          return Failure(refreshed.error);
        }
        UpdateSettingsAndDump(refreshed.value);
      }
      return Success(());
    }

    /** `_verify_initialization`: the initialization gate. */
    method VerifyInitialization(scopeQuery: seq<Scope> -> string, pasted: string, reply: TokenReply)
      returns (r: Result<(), ClientError>)
      modifies this
      ensures var e := VerifyInitializationSpec(old(Settings()), scopeQuery(old(scopes)), pasted, reply);
        r == e.result && Settings() == e.after
        && sent == old(sent) + e.calls && persisted == old(persisted) + e.saved
      ensures scopes == old(scopes)
      ensures old(Durable()) ==> Durable()
    {
      if refreshToken.None? || refreshToken.value == "" {
        var code := RequestAuthCode(scopeQuery, pasted);
        if code.Failure? {
          return Failure(code.error);
        }
        var token := GetAccessToken(code.value, reply);
        if token.Failure? {
          return Failure(token.error);
        }
        UpdateSettingsAndDump(token.value);
      }
      return Success(());
    }

    /** `get_activities`: the expiry gate, then the authenticated GET and its status check. */
    method GetActivities<A>(now: int, tokenReply: TokenReply, reply: ActivitiesReply<A>,
                            before: Option<int> := None, after: Option<int> := None,
                            page: int := 1, perPage: int := 30)
      returns (r: Result<seq<A>, ClientError>)
      modifies this
      ensures var e := GetActivitiesSpec(old(Settings()), now, tokenReply,
                                         ActivitiesQuery(before, after, page, perPage), reply);
        r == e.result && Settings() == e.after
        && sent == old(sent) + e.calls && persisted == old(persisted) + e.saved
      ensures scopes == old(scopes)
      ensures old(Durable()) ==> Durable()
    {
      var verified := VerifyToken(now, tokenReply);
      if verified.Failure? {
        return Failure(verified.error);
      }
      var authorization := Bearer(accessToken);
      sent := sent + [Get(ActivitiesUrl, authorization, ActivitiesQuery(before, after, page, perPage))];
      if reply.status != 200 {
        return Failure(ActivityFetchFailed(reply.status, reply.text));
      }
      return Success(reply.activities);
    }
  }

  /**
    `StravaClient.__init__`: load the settings, convert the requested scopes
    (the defaults when none are given), then pass the initialization gate.
    Any error is raised and no client results.
   */
  method Open(loaded: Credentials, defaults: seq<Scope>, members: set<string>,
              scopeQuery: seq<Scope> -> string, pasted: string, reply: TokenReply,
              requested: Option<seq<ScopeArg>> := None)
    returns (r: Result<StravaClient, ClientError>)
    ensures NormaliseScopes(requested, defaults, members).Failure? ==>
      r == Failure(NormaliseScopes(requested, defaults, members).error)
    ensures NormaliseScopes(requested, defaults, members).Success? ==>
      var scopes := NormaliseScopes(requested, defaults, members).value;
      var e := VerifyInitializationSpec(loaded, scopeQuery(scopes), pasted, reply);
      (r.Success? <==> e.result.Success?)
      && (r.Failure? ==> r.error == e.result.error)
      && (r.Success? ==>
            fresh(r.value) && r.value.scopes == scopes && r.value.Settings() == e.after
            && r.value.sent == e.calls && r.value.persisted == e.saved)
  {
    var scopes := NormaliseScopes(requested, defaults, members);
    if scopes.Failure? {
      return Failure(scopes.error);
    }
    var client := new StravaClient(loaded, scopes.value);
    var initialized := client.VerifyInitialization(scopeQuery, pasted, reply);
    if initialized.Failure? {
      return Failure(initialized.error);
    }
    return Success(client);
  }
}
