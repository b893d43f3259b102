# Strava client token lifecycle, modelled in Dafny

This project models the core of a small client library for the Strava REST API. The core is the OAuth 2.0 token lifecycle of `StravaClient`: the authorization-code grant (section 4.1 of RFC 6749) and the access-token refresh (section 6 of RFC 6749). It has four parts:

- **Initialization gate.** When no non-empty refresh token is stored, the client sends the browser to the authorize URL. It then takes the authorization code from the redirect URL the user pastes and exchanges it for tokens.
- **Expiry gate.** When the current whole-second time is at or past `expires_at`, the client refreshes the token.
- **Credential update.** The client overwrites the access token, the refresh token and the expiry, then persists the settings once.
- **Activity listing.** The client always passes the expiry gate before the authenticated GET.

The token request and response records are Dafny datatypes, together with the form bodies they are posted as.

Files:

- `wrappers.dfy`: `Option` and `Result`.
- `requests.dfy` (module `Requests`): the two request records `TokenRequest` and `RefreshTokenRequest`, each with its fixed default `grant_type`, and `TokenResponse`. Also the form body each request is dumped to, and a reader of that body.
- `authorization.dfy` (module `Authorization`): the authorize URL and the code extraction.
  - The URL is specified as the authorize path plus five query parameters in a fixed order. When the scope text holds no `&`, a URL parser shows that the built URL decodes back to exactly those parameters, and that the client id decodes back to the same integer. For every scope text, the URL equals the five parameters appended one after the other.
  - The code extractor is specified by what a leftmost regex match of `code=(\w+)` means.
- `client_spec.dfy` (module `ClientSpec`): each step of the lifecycle as a function. Each takes the stored credentials and what the outside world answers, and returns an `Effect`: the result or error, the credentials afterwards, the outbound calls made, and the snapshots persisted. The ensures clauses state the lifecycle rules, for example:
  - a refresh is attempted if and only if the token has expired and a refresh token is stored;
  - a failed refresh, exchange, code extraction or gate leaves the credentials untouched and persists nothing, but a failed activities GET keeps a refresh that succeeded before it;
  - a success installs exactly the returned triple and persists it once.
- `client.dfy` (module `Client`): class `StravaClient`.
  - Its fields are the settings the source mutates: client id and secret, access token, refresh token, expiry, and scopes.
  - Two ghost logs record behaviour: `sent` holds the outbound calls in order, and `persisted` holds the snapshots written by each dump.
  - Each method is proved equal to its `ClientSpec` function on the old state, and keeps the invariant that the last persisted snapshot is the current settings.
  - `Open` models `__init__`.

The outside world is passed in as parameters:

| source call | parameter in the model |
|---|---|
| token endpoint | a `TokenReply`: a status, a body text, and a token triple that is absent when the body does not validate |
| activities endpoint | an `ActivitiesReply`: a status, a body text, and the already-decoded activities |
| `input()` | the pasted redirect URL, a string |
| `int(datetime.now().timestamp())` | `now: int` |
| `StravaScope.to_query_string_list` | a function from scopes to text |
| `DEFAULT_SCOPES` | the `defaults` parameter |
| the values of `StravaScope` | the `members` set |

## Model

| member | source | states |
|---|---|---|
| `Requests.DumpTokenRequest` | strava_client/models/requests.py:4-25 | The form body of a code exchange reads back as the same request: client id, secret, code and grant type. |
| `Requests.DumpRefreshTokenRequest` | strava_client/models/requests.py:45-66 | The form body of a refresh reads back as the same request: client id, secret, refresh token and grant type. |
| `Requests.RequestFormsDifferOnlyInCredential` | strava_client/models/requests.py:22-66 | Built without a grant type, the two requests carry `authorization_code` and `refresh_token`. Their bodies agree on the integer client id and the string secret, and differ only in the credential field and the grant type. Neither body reads as the other kind of request. |
| `Authorization.NatToDecimal` | strava_client/client.py:157 | The decimal text of a natural number is non-empty and all digits, with no leading zero: it starts with `0` exactly when the number is 0. |
| `Authorization.IntToDecimalRoundTrip` | strava_client/client.py:157 | The client id written into the URL as decimal text, negative ids included, reads back as the same integer. |
| `Authorization.AuthorizeUrl` | strava_client/client.py:156-161 | When the scope text holds no `&`, the URL parses to the authorize path with exactly `client_id`, `response_type=code`, `redirect_uri=http://localhost/exchange_token`, `approval_prompt=force` and `scope`, in that order. The `client_id` value reads back as the client id. |
| `Authorization.AuthorizeUrlAppended` | strava_client/client.py:156-161 | The specified URL equals the text obtained by appending the five parameters one after the other, as the client does. |
| `Authorization.QueryRoundTrip` | strava_client/client.py:157-161 | A query encoded from a non-empty list of parameters whose keys hold no `=` or `&`, and whose values hold no `&`, decodes back to the same parameters in the same order. |
| `Authorization.WordRun` | strava_client/client.py:176 | The run counted from a position is all word characters and ends at the end of the text or at a non-word character. |
| `Authorization.FirstMatchFrom` | strava_client/client.py:176 | The position returned is a match of `code=` plus a word character, with no match between `from` and it. With no result, there is no match from `from` on. |
| `Authorization.ExtractCode` | strava_client/client.py:176-183 | Fails exactly when no `code=` is followed by a word character. Otherwise returns the whole, non-empty run of word characters after the first such `code=`. |
| `Authorization.ExtractFromRedirect` | strava_client/client.py:170-183 | A pasted URL with no earlier `code=`, then `code=<c>`, then a non-word character or the end, yields exactly `c`. |
| `Authorization.ExtractFailsWithoutKey` | strava_client/client.py:176-179 | Text with no `code=` in it yields no code. |
| `ClientSpec.ConvertScopes` | strava_client/client.py:30-35 | Succeeds exactly when every string names a scope. The result keeps length and order, with members kept and strings converted. A failure reports the first string that names no scope. |
| `ClientSpec.AcceptToken` | strava_client/client.py:135-141 | Succeeds exactly on status 200 with a valid body, and returns that body's triple. Any other status raises the given error. A 200 with an invalid body is an invalid-response error. |
| `ClientSpec.Install` | strava_client/client.py:97-99 | The three token fields become exactly the response's. The client id and secret are unchanged. |
| `ClientSpec.RefreshTokenSpec` | strava_client/client.py:185-207 | With no refresh token: fails with no request made. Otherwise: exactly one POST to the token URL, whose body reads as a refresh request with the current id, secret, refresh token and `refresh_token` grant. Succeeds iff 200 with a valid body; a non-200 raises the refresh error with the status; a 200 with an invalid body is the invalid-response error. Never changes or persists credentials. |
| `ClientSpec.GetAccessTokenSpec` | strava_client/client.py:120-141 | Exactly one POST to the token URL, whose body reads as a code exchange with the current id and secret, the code and the `authorization_code` grant. Succeeds iff 200 with a valid body; a non-200 raises the exchange error with status and body; a 200 with an invalid body is the invalid-response error. Never changes or persists credentials. |
| `ClientSpec.RequestAuthCodeSpec` | strava_client/client.py:143-183 | Exactly one call: the browser is opened at the authorize URL for the client id and scope text. When the scope text holds no `&`, that URL parses to the five authorize parameters. Succeeds exactly when the pasted text has a match, returning the maximal run after the first match. Otherwise fails with the missing-code error. |
| `ClientSpec.ExpiryCheck` | strava_client/client.py:85 | With an expiry stored, true exactly when `now` is at or past it. With none, the comparison fails. |
| `ClientSpec.VerifyTokenSpec` | strava_client/client.py:79-89 | The token is refreshed iff it has expired and a refresh token is stored; at most one token call is made. Before expiry, nothing changes and no call is made. A failure leaves credentials unchanged and persists nothing. A refresh answered with a non-200 raises the refresh error, and one answered with a 200 and an invalid body is the invalid-response error. A success after expiry installs the reply's triple and persists it once. Every change is persisted. |
| `ClientSpec.VerifyInitializationSpec` | strava_client/client.py:103-118 | With a non-empty refresh token: no call and no change. Otherwise the browser opens first, then one exchange POST if a code was found. Succeeds iff a code is found and the reply is 200 with a valid body, and then installs and persists the triple once. An exchange answered with a non-200 raises the exchange error, and one answered with a 200 and an invalid body is the invalid-response error. A failure leaves credentials unchanged and persists nothing. |
| `ClientSpec.GetActivitiesSpec` | strava_client/client.py:39-77 | The expiry gate runs first, and its credential changes stand. The GET is issued iff the gate passes, after any refresh call, and its Bearer header carries the access token the gate leaves. Before expiry the only call is the GET with the stored token. Once the gate passes, the call succeeds iff the status is 200 and returns the server's activities; otherwise it raises the fetch error with status and body. |
| `ClientSpec.RefreshedTokenNotRefreshedAgain` | strava_client/client.py:85-89 | After a successful refresh to an expiry later than `now`, the expiry gate at `now` makes no call and changes nothing. |
| `ClientSpec.InitializationRunsOnce` | strava_client/client.py:109-118 | Once an exchange has stored a non-empty refresh token, the initialization gate does nothing. |
| `ClientSpec.RefusedRefreshChangesNothing` | strava_client/client.py:50-59 | An expired token whose refresh is refused raises the refresh error. Credentials and persisted settings stay unchanged, only the refresh POST is made, and no GET is issued. |
| `Client.StravaClient.constructor` | strava_client/client.py:27-28 | The client starts with the loaded settings and the given scopes, with no call made and nothing persisted. |
| `Client.StravaClient.UpdateSettingsAndDump` | strava_client/client.py:91-101 | The three fields are assigned from the response, then exactly one snapshot is persisted: the settings after the assignments. |
| `Client.StravaClient.RefreshToken` | strava_client/client.py:185-207 | The result and the calls made are those of `RefreshTokenSpec` on the current settings. |
| `Client.StravaClient.GetAccessToken` | strava_client/client.py:120-141 | The result and the calls made are those of `GetAccessTokenSpec` on the current settings. |
| `Client.StravaClient.RequestAuthCode` | strava_client/client.py:143-183 | The URL built by successive appends is the specified authorize URL. The result and the calls made are those of `RequestAuthCodeSpec`. |
| `Client.StravaClient.VerifyToken` | strava_client/client.py:79-89 | Result, new settings, calls and persisted snapshots are those of `VerifyTokenSpec` on the old settings. The last persisted snapshot stays the current settings. |
| `Client.StravaClient.VerifyInitialization` | strava_client/client.py:103-118 | Result, new settings, calls and persisted snapshots are those of `VerifyInitializationSpec` on the old settings and scopes. |
| `Client.StravaClient.GetActivities` | strava_client/client.py:39-77 | Result, new settings, calls and persisted snapshots are those of `GetActivitiesSpec` on the old settings. The query defaults are no `before`, no `after`, page 1 and 30 per page. |
| `ClientSpec.NormaliseScopes` | strava_client/client.py:30-35 | With no scopes requested, the result is the default scopes. Otherwise it succeeds exactly when every string names a scope, keeps length and order, and a failure reports the first string that names no scope. |
| `Client.Open` | strava_client/client.py:27-37 | Scopes default to none requested, so the default scopes are used. A bad scope name raises before anything else happens. Otherwise the client exists iff the initialization gate passes, with the normalised scopes and the gate's settings, calls and persisted snapshots. |

## Behaviour of note

- Only status 200 counts as success. Any other status raises, including other 2xx statuses.
- The refresh error carries only the status, not the response body.
- The initialization gate treats an empty refresh token as absent. `_refresh_token` treats only a missing one as absent, so it would post an empty refresh token.
- With no expiry stored, the comparison `now >= expires_at` raises. The model reports this as `ExpiryUnset` and makes no call.
- When a refresh succeeds and the activities GET then fails, the refreshed credentials stay installed and persisted.
- When no access token is stored, the header is the text `Bearer None`.

## Left out

- HTTP is not modelled: the GET and POST calls are replaced by the reply values passed in. Timeouts, transport errors and retries are absent.
- The browser launch and the console prompt are left out. The model records the browser call with its URL, and the pasted text is a parameter.
- The clock is a parameter, `now`, already truncated to whole seconds.
- Loading and dumping `StravaSettings` is not part of this model. A dump is an entry in the ghost `persisted` log, and loading is the `loaded` value given to the constructor. A file I/O failure is not modelled.
- The scope enumeration `StravaScope`, `StravaScope.to_query_string_list` and `DEFAULT_SCOPES` are not part of this model. They are parameters: a set of member values, a function to query text, and a default list.
- strava_client/models/api.py and the decoding of the activities JSON are left out. The reply carries already-decoded activities, and the model returns them unchanged.
- `before` and `after` are `datetime` values in the source. The model takes them as epoch seconds.
- `StravaGetActivitiesRequest` and how it serializes the query parameters are not part of this model. The query is a record of four fields, so the serialization round trip for the activities query is not stated.
- Validation of the token response body is reduced to present-or-absent. Field coercions done by the validation library are not modelled.
- The text of the raised error messages is not modelled. Each error carries the status and body the message embeds.
- `\w` is read as ASCII letters, digits and `_`. Other Unicode word characters are not modelled.
- Authorization.AuthorizeUrl: the parse round trip is stated only for scope text without `&`, because the function producing that text is not part of this model.
- example.py is left out. Its assertions depend on a live account's data.
