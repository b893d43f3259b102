/**
  The request and response records exchanged with the token endpoint
  (strava_client/models/requests.py), and the form body each request is
  sent as.
 */
module Requests {
  import opened Wrappers

  /** The `grant_type` defaults of the two request records. */
  const AuthorizationCodeGrant: string := "authorization_code"
  const RefreshTokenGrant: string := "refresh_token"

  /** Exchange of an authorization code for tokens. */
  datatype TokenRequest = TokenRequest(
    clientId: int,
    clientSecret: string,
    code: string,
    grantType: string := AuthorizationCodeGrant)

  /** What the token endpoint answers, for an exchange and for a refresh alike. */
  datatype TokenResponse = TokenResponse(
    accessToken: string,
    refreshToken: string,
    expiresAt: int)

  /** Refresh of an expired access token. */
  datatype RefreshTokenRequest = RefreshTokenRequest(
    clientId: int,
    clientSecret: string,
    refreshToken: string,
    grantType: string := RefreshTokenGrant)

  /** One value of a dumped record: the client id stays an integer, the rest are text. */
  datatype FormValue = IntValue(i: int) | TextValue(s: string)

  /** A dumped record: its fields, in declaration order, keyed by field name. */
  type Form = seq<(string, FormValue)>

  /** Entry `i` is the first one of `form` under `key`. */
  predicate FirstKeyAt(form: Form, key: string, i: int)
  {
    0 <= i < |form| && form[i].0 == key && forall j :: 0 <= j < i ==> form[j].0 != key
  }

  /** The value stored under `key`, taken from its first entry. */
  function Lookup(form: Form, key: string): (v: Option<FormValue>)
    ensures v.Some? <==> exists i :: 0 <= i < |form| && form[i].0 == key
    ensures forall i :: FirstKeyAt(form, key, i) ==> v == Some(form[i].1)
  {
    if |form| == 0 then None
    else if form[0].0 == key then Some(form[0].1)
    else
      var v := Lookup(form[1..], key);
      assert forall i :: 1 <= i < |form| ==> form[i] == form[1..][i - 1];
      v
  }

  function LookupInt(form: Form, key: string): Option<int>
  {
    match Lookup(form, key)
    case Some(IntValue(i)) => Some(i)
    case _ => None
  }

  function LookupText(form: Form, key: string): Option<string>
  {
    match Lookup(form, key)
    case Some(TextValue(s)) => Some(s)
    case _ => None
  }

  /** The form body sent to the token endpoint for an authorization-code exchange. */
  function DumpTokenRequest(r: TokenRequest): (form: Form)
    ensures ParseTokenRequest(form) == Some(r)
  {
    var form := [("client_id", IntValue(r.clientId)),
                 ("client_secret", TextValue(r.clientSecret)),
                 ("code", TextValue(r.code)),
                 ("grant_type", TextValue(r.grantType))];
    assert FirstKeyAt(form, "client_id", 0) && FirstKeyAt(form, "client_secret", 1);
    assert FirstKeyAt(form, "code", 2) && FirstKeyAt(form, "grant_type", 3);
    form
  }

  /** Reads an authorization-code exchange back from a form body; fails when a field is missing or ill-typed. */
  function ParseTokenRequest(form: Form): Option<TokenRequest>
  {
    match (LookupInt(form, "client_id"), LookupText(form, "client_secret"),
           LookupText(form, "code"), LookupText(form, "grant_type"))
    case (Some(id), Some(secret), Some(code), Some(grant)) => Some(TokenRequest(id, secret, code, grant))
    case _ => None
  }

  /** The form body sent to the token endpoint for a refresh. */
  function DumpRefreshTokenRequest(r: RefreshTokenRequest): (form: Form)
    ensures ParseRefreshTokenRequest(form) == Some(r)
  {
    var form := [("client_id", IntValue(r.clientId)),
                 ("client_secret", TextValue(r.clientSecret)),
                 ("refresh_token", TextValue(r.refreshToken)),
                 ("grant_type", TextValue(r.grantType))];
    assert FirstKeyAt(form, "client_id", 0) && FirstKeyAt(form, "client_secret", 1);
    assert FirstKeyAt(form, "refresh_token", 2) && FirstKeyAt(form, "grant_type", 3);
    form
  }

  /** Reads a refresh back from a form body; fails when a field is missing or ill-typed. */
  function ParseRefreshTokenRequest(form: Form): Option<RefreshTokenRequest>
  {
    match (LookupInt(form, "client_id"), LookupText(form, "client_secret"),
           LookupText(form, "refresh_token"), LookupText(form, "grant_type"))
    case (Some(id), Some(secret), Some(rt), Some(grant)) => Some(RefreshTokenRequest(id, secret, rt, grant))
    case _ => None
  }

  /**
    Built without an explicit grant type, the two requests carry their fixed
    grant types, and their form bodies agree on the client credentials and
    differ only in the credential field and in the grant type.
   */
  lemma RequestFormsDifferOnlyInCredential(clientId: int, clientSecret: string, code: string, refreshToken: string)
    ensures var exchange := DumpTokenRequest(TokenRequest(clientId, clientSecret, code));
            var refresh := DumpRefreshTokenRequest(RefreshTokenRequest(clientId, clientSecret, refreshToken));
            |exchange| == |refresh| == 4
            && exchange[0] == refresh[0] == ("client_id", IntValue(clientId))
            && exchange[1] == refresh[1] == ("client_secret", TextValue(clientSecret))
            && exchange[2] == ("code", TextValue(code))
            && refresh[2] == ("refresh_token", TextValue(refreshToken))
            && exchange[3] == ("grant_type", TextValue(AuthorizationCodeGrant))
            && refresh[3] == ("grant_type", TextValue(RefreshTokenGrant))
            && ParseTokenRequest(refresh) == None
            && ParseRefreshTokenRequest(exchange) == None
  {
    RefreshFormHasNoCode(DumpRefreshTokenRequest(RefreshTokenRequest(clientId, clientSecret, refreshToken)));
    ExchangeFormHasNoRefreshToken(DumpTokenRequest(TokenRequest(clientId, clientSecret, code)));
  }

  /** A form keyed like a refresh body carries no `code`, so it does not read as an exchange. */
  lemma RefreshFormHasNoCode(form: Form)
    requires |form| == 4 && form[0].0 == "client_id" && form[1].0 == "client_secret"
    requires form[2].0 == "refresh_token" && form[3].0 == "grant_type"
    ensures ParseTokenRequest(form) == None
  {
    assert |"code"| == 4 && |"client_id"| == 9 && |"client_secret"| == 13;
    assert |"refresh_token"| == 13 && |"grant_type"| == 10;
    KeyAbsent(form, "code");
  }

  /** A form keyed like an exchange body carries no `refresh_token`, so it does not read as a refresh. */
  lemma ExchangeFormHasNoRefreshToken(form: Form)
    requires |form| == 4 && form[0].0 == "client_id" && form[1].0 == "client_secret"
    requires form[2].0 == "code" && form[3].0 == "grant_type"
    ensures ParseRefreshTokenRequest(form) == None
  {
    assert |"code"| == 4 && |"client_id"| == 9 && |"grant_type"| == 10;
    assert "client_secret"[0] != "refresh_token"[0];
    KeyAbsent(form, "refresh_token");
  }

  /** A key that no entry carries is looked up as nothing. */
  lemma KeyAbsent(form: Form, key: string)
    requires forall i :: 0 <= i < |form| ==> form[i].0 != key
    ensures Lookup(form, key) == None
  {
  }
}
