/**
  What each step of the client's token lifecycle (strava_client/client.py)
  does, as functions of the stored credentials and of what the outside world
  answers: the endpoint replies, the pasted redirect URL, the current time.
  Each step yields an Effect: its result or error, the credentials afterwards,
  the outbound calls it made, and the snapshots it persisted.
 */
module ClientSpec {
  import opened Wrappers
  import opened Requests
  import opened Authorization

  const ServerBase: string := "https://www.strava.com/api/v3"
  const TokenUrl: string := OAuthBase + "/token"
  const ActivitiesUrl: string := ServerBase + "/athlete/activities"

  /** The settings the client reads and updates; the three token fields may be absent. */
  datatype Credentials = Credentials(
    clientId: int,
    clientSecret: string,
    accessToken: Option<string>,
    refreshToken: Option<string>,
    expiresAt: Option<int>)

  /** The errors the client raises, one per raise site (and the comparison with an absent expiry). */
  datatype ClientError =
    | UnknownScope(name: string)                  // StravaScope(x) on a string that names no scope
    | AuthorizationCodeMissing                    // no code in the pasted redirect URL
    | TokenExchangeFailed(status: int, text: string)
    | TokenRefreshFailed(status: int)
    | MissingRefreshToken
    | InvalidTokenResponse                        // a 200 reply whose body is not a token response
    | ExpiryUnset                                 // `now >= expires_at` with no expiry stored
    | ActivityFetchFailed(status: int, text: string)

  /** A reply of the token endpoint; `token` is absent when the body does not validate as a token response. */
  datatype TokenReply = TokenReply(status: int, text: string, token: Option<TokenResponse>)

  /** The parameters of an activities listing; timestamps are epoch seconds. */
  datatype ActivitiesQuery = ActivitiesQuery(
    before: Option<int> := None,
    after: Option<int> := None,
    page: int := 1,
    perPage: int := 30)

  /** A reply of the activities endpoint, its body already decoded into activities. */
  datatype ActivitiesReply<A> = ActivitiesReply(status: int, text: string, activities: seq<A>)

  /** The calls the client makes to the outside world. */
  datatype Call =
    | OpenBrowser(url: string)
    | Post(url: string, form: Form)
    | Get(url: string, authorization: string, query: ActivitiesQuery)

  datatype Effect<T> = Effect(
    result: Result<T, ClientError>,
    after: Credentials,
    calls: seq<Call>,
    saved: seq<Credentials>)

  // ---------------------------------------------------------------------------
  // Scopes given to the constructor (client.py lines 30-35)

  /** A member of the scope enumeration, identified by its value. */
  datatype Scope = Scope(value: string)

  /** A requested scope: an enumeration member, or a string naming one. */
  datatype ScopeArg = Member(scope: Scope) | Name(name: string)

  /** A requested scope converts when it is a member or names one of `members`. */
  predicate Converts(arg: ScopeArg, members: set<string>)
  {
    arg.Member? || arg.name in members
  }

  function ScopeOf(arg: ScopeArg): Scope
  {
    match arg
    case Member(s) => s
    case Name(n) => Scope(n)
  }

  /**
    Strings become members, members stay; the first string that names no
    member is the error.
   */
  function ConvertScopes(args: seq<ScopeArg>, members: set<string>): (r: Result<seq<Scope>, ClientError>)
    ensures r.Success? <==> forall i :: 0 <= i < |args| ==> Converts(args[i], members)
    ensures r.Success? ==> |r.value| == |args| && forall i :: 0 <= i < |args| ==> r.value[i] == ScopeOf(args[i])
    ensures r.Failure? ==>
      exists i :: 0 <= i < |args| && !Converts(args[i], members) && r.error == UnknownScope(args[i].name)
               && forall j :: 0 <= j < i ==> Converts(args[j], members)
  {
    if args == [] then Success([])
    else if !Converts(args[0], members) then Failure(UnknownScope(args[0].name))
    else
      match ConvertScopes(args[1..], members)
      case Failure(e) =>
        assert forall j :: 1 <= j < |args| ==> args[j] == args[1..][j - 1];
        Failure(e)
      case Success(rest) =>
        assert forall j :: 1 <= j < |args| ==> args[j] == args[1..][j - 1];
        Success([ScopeOf(args[0])] + rest)
  }

  /** The default scopes when none are requested, else the requested ones converted. */
  function NormaliseScopes(requested: Option<seq<ScopeArg>>, defaults: seq<Scope>, members: set<string>)
    : (r: Result<seq<Scope>, ClientError>)
    ensures requested.None? ==> r == Success(defaults)
    ensures requested.Some? ==>
      (r.Success? <==> forall i :: 0 <= i < |requested.value| ==> Converts(requested.value[i], members))
    ensures requested.Some? && r.Success? ==>
      |r.value| == |requested.value|
      && forall i :: 0 <= i < |requested.value| ==> r.value[i] == ScopeOf(requested.value[i])
    ensures requested.Some? && r.Failure? ==>
      exists i :: 0 <= i < |requested.value| && !Converts(requested.value[i], members)
               && r.error == UnknownScope(requested.value[i].name)
               && forall j :: 0 <= j < i ==> Converts(requested.value[j], members)
  {
    match requested
    case None => Success(defaults)
    case Some(args) => ConvertScopes(args, members)
  }

  // ---------------------------------------------------------------------------
  // Token replies and the credential update

  /**
    The status check and the validation of a token-endpoint reply: anything
    but 200 raises `failed`; a 200 whose body is no token response is invalid.
   */
  function AcceptToken(reply: TokenReply, failed: ClientError): (r: Result<TokenResponse, ClientError>)
    ensures r.Success? <==> reply.status == 200 && reply.token.Some?
    ensures r.Success? ==> r.value == reply.token.value
    ensures reply.status != 200 ==> r == Failure(failed)
    ensures reply.status == 200 && reply.token.None? ==> r == Failure(InvalidTokenResponse)
  {
    if reply.status != 200 then Failure(failed)
    else if reply.token.None? then Failure(InvalidTokenResponse)
    else Success(reply.token.value)
  }

  /** The credentials after a token response is installed (client.py lines 97-99). */
  function Install(c: Credentials, t: TokenResponse): (d: Credentials)
    ensures d.accessToken == Some(t.accessToken) && d.refreshToken == Some(t.refreshToken)
    ensures d.expiresAt == Some(t.expiresAt)
    ensures d.clientId == c.clientId && d.clientSecret == c.clientSecret
  {
    c.(accessToken := Some(t.accessToken), refreshToken := Some(t.refreshToken), expiresAt := Some(t.expiresAt))
  }

  // ---------------------------------------------------------------------------
  // The steps of the lifecycle

  /** `_refresh_token`: one POST of the stored credentials, unless no refresh token is stored. */
  function RefreshTokenSpec(c: Credentials, reply: TokenReply): (e: Effect<TokenResponse>)
    ensures e.after == c && e.saved == []
    ensures c.refreshToken.None? ==> e.result == Failure(MissingRefreshToken) && e.calls == []
    ensures c.refreshToken.Some? ==>
      |e.calls| == 1 && e.calls[0].Post? && e.calls[0].url == TokenUrl
      && ParseRefreshTokenRequest(e.calls[0].form)
         == Some(RefreshTokenRequest(c.clientId, c.clientSecret, c.refreshToken.value, RefreshTokenGrant))
    ensures e.result.Success? <==> c.refreshToken.Some? && reply.status == 200 && reply.token.Some?
    ensures e.result.Success? ==> e.result.value == reply.token.value
    ensures c.refreshToken.Some? && reply.status != 200 ==> e.result == Failure(TokenRefreshFailed(reply.status))
    ensures c.refreshToken.Some? && reply.status == 200 && reply.token.None? ==> e.result == Failure(InvalidTokenResponse)
  {
    match c.refreshToken
    case None => Effect(Failure(MissingRefreshToken), c, [], [])
    case Some(refreshToken) =>
      var form := DumpRefreshTokenRequest(RefreshTokenRequest(c.clientId, c.clientSecret, refreshToken));
      Effect(AcceptToken(reply, TokenRefreshFailed(reply.status)), c, [Post(TokenUrl, form)], [])
  }

  /** `_get_access_token`: one POST exchanging the code together with the stored client credentials. */
  function GetAccessTokenSpec(c: Credentials, code: string, reply: TokenReply): (e: Effect<TokenResponse>)
    ensures e.after == c && e.saved == []
    ensures |e.calls| == 1 && e.calls[0].Post? && e.calls[0].url == TokenUrl
    ensures ParseTokenRequest(e.calls[0].form)
         == Some(TokenRequest(c.clientId, c.clientSecret, code, AuthorizationCodeGrant))
    ensures e.result.Success? <==> reply.status == 200 && reply.token.Some?
    ensures e.result.Success? ==> e.result.value == reply.token.value
    ensures reply.status != 200 ==> e.result == Failure(TokenExchangeFailed(reply.status, reply.text))
    ensures reply.status == 200 && reply.token.None? ==> e.result == Failure(InvalidTokenResponse)
  {
    var form := DumpTokenRequest(TokenRequest(c.clientId, c.clientSecret, code));
    Effect(AcceptToken(reply, TokenExchangeFailed(reply.status, reply.text)), c, [Post(TokenUrl, form)], [])
  }

  /**
    `_request_auth_code`: the browser is sent to the authorize URL, then the
    code is taken from the pasted redirect URL. `scope` is the query text of
    the client's scopes.
   */
  function RequestAuthCodeSpec(c: Credentials, scope: string, pasted: string): (e: Effect<string>)
    ensures e.after == c && e.saved == []
    ensures e.calls == [OpenBrowser(AuthorizeUrl(c.clientId, scope))]
    ensures '&' !in scope ==> ParseUrl(e.calls[0].url) == Some((AuthorizePath, AuthorizeParams(c.clientId, scope)))
    ensures e.result.Success? <==> exists i :: MatchesAt(pasted, i)
    ensures e.result.Success? ==>
      exists i :: IsFirstMatch(pasted, i) && IsMaximalRun(pasted, i + |CodeKey|, e.result.value)
    ensures e.result.Failure? ==> e.result.error == AuthorizationCodeMissing
  {
    var browse := [OpenBrowser(AuthorizeUrl(c.clientId, scope))];
    match ExtractCode(pasted)
    case None => Effect(Failure(AuthorizationCodeMissing), c, browse, [])
    case Some(code) => Effect(Success(code), c, browse, [])
  }

  /** The access token has expired: the current time is at or past the stored expiry. */
  predicate Expired(c: Credentials, now: int)
  {
    c.expiresAt.Some? && now >= c.expiresAt.value
  }

  /** `now >= expires_at`, which fails when no expiry is stored. */
  function ExpiryCheck(now: int, expiresAt: Option<int>): (r: Result<bool, ClientError>)
    ensures r.Failure? <==> expiresAt.None?
    ensures r.Failure? ==> r.error == ExpiryUnset
    ensures r.Success? ==> (r.value <==> now >= expiresAt.value)
  {
    match expiresAt
    case None => Failure(ExpiryUnset)
    case Some(t) => Success(now >= t)
  }

  /**
    `_verify_token`: refresh, install and persist exactly when the token has
    expired. A refresh is attempted if and only if the token has expired and a
    refresh token is stored; any failure leaves the credentials as they were
    and persists nothing; a success installs the reply's triple and persists
    it once.
   */
  function VerifyTokenSpec(c: Credentials, now: int, reply: TokenReply): (e: Effect<()>)
    ensures e.result.Failure? ==> e.after == c && e.saved == []
    ensures e.saved == [] || e.saved == [e.after]
    ensures e.saved == [] ==> e.after == c
    ensures |e.calls| <= 1
    ensures |e.calls| == 1 <==> Expired(c, now) && c.refreshToken.Some?
    ensures e.calls != [] ==> e.calls == RefreshTokenSpec(c, reply).calls && e.calls[0].Post?
    ensures c.expiresAt.None? ==> e == Effect(Failure(ExpiryUnset), c, [], [])
    ensures c.expiresAt.Some? && now < c.expiresAt.value ==> e == Effect(Success(()), c, [], [])
    ensures Expired(c, now) ==>
      (e.result.Success? <==> c.refreshToken.Some? && reply.status == 200 && reply.token.Some?)
    ensures Expired(c, now) && e.result.Success? ==>
      e.after == Install(c, reply.token.value) && e.saved == [e.after]
    ensures Expired(c, now) && c.refreshToken.None? ==> e.result == Failure(MissingRefreshToken)
    ensures Expired(c, now) && c.refreshToken.Some? && reply.status != 200 ==>
      e.result == Failure(TokenRefreshFailed(reply.status))
    ensures Expired(c, now) && c.refreshToken.Some? && reply.status == 200 && reply.token.None? ==>
      e.result == Failure(InvalidTokenResponse)
  {
    match ExpiryCheck(now, c.expiresAt)
    case Failure(err) => Effect(Failure(err), c, [], [])
    case Success(expired) =>
      if !expired then Effect(Success(()), c, [], [])
      else
        var refresh := RefreshTokenSpec(c, reply);
        match refresh.result
        case Failure(err) => Effect(Failure(err), c, refresh.calls, [])
        case Success(t) =>
          var d := Install(c, t);
          Effect(Success(()), d, refresh.calls, [d])
  }

  /** The client counts as initialized when a non-empty refresh token is stored. */
  predicate Initialized(c: Credentials)
  {
    c.refreshToken.Some? && c.refreshToken.value != ""
  }

  /**
    `_verify_initialization`: without a non-empty refresh token, obtain a code
    through the browser and exchange it; otherwise do nothing. A failure at
    either stage leaves the credentials as they were and persists nothing.
   */
  function VerifyInitializationSpec(c: Credentials, scope: string, pasted: string, reply: TokenReply)
    : (e: Effect<()>)
    ensures Initialized(c) ==> e == Effect(Success(()), c, [], [])
    ensures !Initialized(c) ==> 1 <= |e.calls| <= 2 && e.calls[0] == OpenBrowser(AuthorizeUrl(c.clientId, scope))
    ensures e.result.Failure? ==> e.after == c && e.saved == []
    ensures e.saved == [] || e.saved == [e.after]
    ensures e.saved == [] ==> e.after == c
    ensures !Initialized(c) && ExtractCode(pasted).None? ==>
      e.result == Failure(AuthorizationCodeMissing) && |e.calls| == 1
    ensures !Initialized(c) && ExtractCode(pasted).Some? ==>
      |e.calls| == 2 && e.calls[1] == GetAccessTokenSpec(c, ExtractCode(pasted).value, reply).calls[0]
    ensures !Initialized(c) ==>
      (e.result.Success? <==> ExtractCode(pasted).Some? && reply.status == 200 && reply.token.Some?)
    ensures !Initialized(c) && e.result.Success? ==>
      e.after == Install(c, reply.token.value) && e.saved == [e.after]
    ensures !Initialized(c) && ExtractCode(pasted).Some? && reply.status != 200 ==>
      e.result == Failure(TokenExchangeFailed(reply.status, reply.text))
    ensures !Initialized(c) && ExtractCode(pasted).Some? && reply.status == 200 && reply.token.None? ==>
      e.result == Failure(InvalidTokenResponse)
  {
    if Initialized(c) then Effect(Success(()), c, [], [])
    else
      var auth := RequestAuthCodeSpec(c, scope, pasted);
      match auth.result
      case Failure(err) => Effect(Failure(err), c, auth.calls, [])
      case Success(code) =>
        var exchange := GetAccessTokenSpec(c, code, reply);
        match exchange.result
        case Failure(err) => Effect(Failure(err), c, auth.calls + exchange.calls, [])
        case Success(t) =>
          var d := Install(c, t);
          Effect(Success(()), d, auth.calls + exchange.calls, [d])
  }

  /** The Authorization header: the access token, written as `None` when absent. */
  function Bearer(accessToken: Option<string>): string
  {
    "Bearer " + match accessToken case Some(t) => t case None => "None"
  }

  /**
    `get_activities`: the expiry gate first, then one GET carrying the
    access token the gate leaves behind. The gate's credential update stands
    even when the GET fails.
   */
  function GetActivitiesSpec<A>(c: Credentials, now: int, tokenReply: TokenReply, query: ActivitiesQuery,
                                reply: ActivitiesReply<A>): (e: Effect<seq<A>>)
    ensures var gate := VerifyTokenSpec(c, now, tokenReply);
      e.after == gate.after && e.saved == gate.saved
      && (gate.result.Failure? ==> e.result == Failure(gate.result.error) && e.calls == gate.calls)
      && (gate.result.Success? ==>
            e.calls == gate.calls + [Get(ActivitiesUrl, Bearer(gate.after.accessToken), query)])
    ensures c.expiresAt.Some? && now < c.expiresAt.value ==>
      e.after == c && e.saved == [] && e.calls == [Get(ActivitiesUrl, Bearer(c.accessToken), query)]
    ensures Expired(c, now) && c.refreshToken.Some? && tokenReply.status == 200 && tokenReply.token.Some? ==>
      var t := tokenReply.token.value;
      |e.calls| == 2 && e.calls[0] == RefreshTokenSpec(c, tokenReply).calls[0]
      && e.calls[1] == Get(ActivitiesUrl, "Bearer " + t.accessToken, query)
      && e.saved == [Install(c, t)]
    ensures (exists i :: 0 <= i < |e.calls| && e.calls[i].Get?) <==> VerifyTokenSpec(c, now, tokenReply).result.Success?
    ensures e.calls == [Get(ActivitiesUrl, Bearer(c.accessToken), query)] ==> c.expiresAt.Some? && now < c.expiresAt.value
    ensures VerifyTokenSpec(c, now, tokenReply).result.Success? ==>
      (e.result.Success? <==> reply.status == 200)
      && (reply.status == 200 ==> e.result.value == reply.activities)
      && (reply.status != 200 ==> e.result == Failure(ActivityFetchFailed(reply.status, reply.text)))
  {
    var gate := VerifyTokenSpec(c, now, tokenReply);
    match gate.result
    case Failure(err) => Effect(Failure(err), gate.after, gate.calls, gate.saved)
    case Success(_) =>
      var get := Get(ActivitiesUrl, Bearer(gate.after.accessToken), query);
      var result := if reply.status != 200 then Failure(ActivityFetchFailed(reply.status, reply.text))
                    else Success(reply.activities);
      var calls := gate.calls + [get];
      assert calls[|calls| - 1].Get?;
      Effect(result, gate.after, calls, gate.saved)
  }

  // ---------------------------------------------------------------------------
  // The lifecycle across calls

  /**
    A token refreshed to an expiry later than `now` is not refreshed again at
    `now`: the next gate makes no call and changes nothing.
   */
  lemma RefreshedTokenNotRefreshedAgain(c: Credentials, now: int, reply: TokenReply, next: TokenReply)
    requires Expired(c, now) && c.refreshToken.Some?
    requires reply.status == 200 && reply.token.Some? && now < reply.token.value.expiresAt
    ensures var e := VerifyTokenSpec(c, now, reply);
      e.result.Success? && VerifyTokenSpec(e.after, now, next) == Effect(Success(()), e.after, [], [])
  {
    var e := VerifyTokenSpec(c, now, reply);
    assert e.after.expiresAt == Some(reply.token.value.expiresAt);
  }

  /**
    Once an exchange has installed a non-empty refresh token, the
    initialization gate does nothing on the next construction.
   */
  lemma InitializationRunsOnce(c: Credentials, scope: string, pasted: string, reply: TokenReply,
                               scope': string, pasted': string, reply': TokenReply)
    requires VerifyInitializationSpec(c, scope, pasted, reply).result.Success?
    requires !Initialized(c) ==> reply.token.Some? && reply.token.value.refreshToken != ""
    ensures var e := VerifyInitializationSpec(c, scope, pasted, reply);
      VerifyInitializationSpec(e.after, scope', pasted', reply') == Effect(Success(()), e.after, [], [])
  {
  }

  /**
    A refresh that the endpoint refuses leaves the credentials and what was
    persisted as they were, and no activities are fetched.
   */
  lemma RefusedRefreshChangesNothing<A>(c: Credentials, now: int, tokenReply: TokenReply,
                                        query: ActivitiesQuery, reply: ActivitiesReply<A>)
    requires Expired(c, now) && c.refreshToken.Some? && tokenReply.status != 200
    ensures var e := GetActivitiesSpec(c, now, tokenReply, query, reply);
      e.result == Failure(TokenRefreshFailed(tokenReply.status)) && e.after == c && e.saved == []
      && |e.calls| == 1 && e.calls[0].Post?
  {
  }
}
