/**
  The two pieces of string logic of the interactive authorization step in
  strava_client/client.py: the authorize URL the browser is sent to, and the
  extraction of the authorization code from the redirect URL the user pastes.
 */
module Authorization {
  import opened Wrappers

  const OAuthBase: string := "https://www.strava.com/oauth"
  const AuthorizePath: string := OAuthBase + "/authorize"
  const RedirectUri: string := "http://localhost/exchange_token"

  // ---------------------------------------------------------------------------
  // Decimal text of the client id, as an f-string writes an integer

  predicate IsDigit(ch: char) { '0' <= ch <= '9' }

  predicate AllDigits(s: string) { forall i :: 0 <= i < |s| ==> IsDigit(s[i]) }

  function DigitChar(d: nat): (ch: char)
    requires d < 10
    ensures IsDigit(ch) && DigitValue(ch) == d
  {
    ('0' as int + d) as char
  }

  function DigitValue(ch: char): int { ch as int - '0' as int }

  /** Decimal digits of `n`, most significant first, with no leading zero. */
  function NatToDecimal(n: nat): (s: string)
    ensures |s| >= 1 && AllDigits(s)
    ensures s[0] == '0' <==> n == 0
    ensures |s| > 1 ==> s[0] != '0'
  {
    if n < 10 then [DigitChar(n)] else NatToDecimal(n / 10) + [DigitChar(n % 10)]
  }

  /** The text of an integer: a minus sign for negative values, then its decimal digits. */
  function IntToDecimal(i: int): (s: string)
    ensures |s| >= 1
    ensures forall k :: 0 <= k < |s| ==> IsDigit(s[k]) || s[k] == '-'
  {
    if i < 0 then "-" + NatToDecimal(-i) else NatToDecimal(i)
  }

  /** The number a string of digits denotes. */
  function DecimalValue(s: string): nat
    requires AllDigits(s)
  {
    if s == [] then 0 else DecimalValue(s[..|s| - 1]) * 10 + DigitValue(s[|s| - 1])
  }

  /** Reads an optionally negative decimal integer; fails on anything else. */
  function ParseInt(s: string): Option<int>
  {
    if |s| >= 2 && s[0] == '-' && AllDigits(s[1..]) then Some(-(DecimalValue(s[1..]) as int))
    else if |s| >= 1 && AllDigits(s) then Some(DecimalValue(s))
    else None
  }

  lemma {:induction false} NatToDecimalRoundTrip(n: nat)
    ensures DecimalValue(NatToDecimal(n)) == n
  {
    if n >= 10 {
      var s := NatToDecimal(n);
      var prefix := NatToDecimal(n / 10);
      assert s[..|s| - 1] == prefix;
      NatToDecimalRoundTrip(n / 10);
    }
  }

  /** The client id written into the URL reads back as the same integer. */
  lemma IntToDecimalRoundTrip(i: int)
    ensures ParseInt(IntToDecimal(i)) == Some(i)
  {
    if i < 0 {
      var s := IntToDecimal(i);
      assert s[1..] == NatToDecimal(-i);
      NatToDecimalRoundTrip(-i);
    } else {
      NatToDecimalRoundTrip(i);
    }
  }

  // ---------------------------------------------------------------------------
  // Splitting and joining on a separator character

  /** The parts separated by one `sep` each. */
  function Join(parts: seq<string>, sep: char): string
  {
    if |parts| == 0 then ""
    else if |parts| == 1 then parts[0]
    else parts[0] + [sep] + Join(parts[1..], sep)
  }

  /** The maximal `sep`-free pieces of `s`, including empty ones, in order. */
  function Split(s: string, sep: char): (parts: seq<string>)
    ensures |parts| >= 1
    ensures forall i :: 0 <= i < |parts| ==> sep !in parts[i]
    ensures Join(parts, sep) == s
    decreases |s|
  {
    if s == [] then [[]]
    else
      var rest := Split(s[1..], sep);
      if s[0] == sep then
        var parts := [[]] + rest;
        assert parts[1..] == rest;
        parts
      else
        var parts := [[s[0]] + rest[0]] + rest[1..];
        assert |rest| >= 2 ==> parts[1..] == rest[1..];
        parts
  }

  /** The text before the first `c` and the text after it; none when `c` does not occur. */
  function Cut(s: string, c: char): (r: Option<(string, string)>)
    ensures r.None? <==> c !in s
    ensures r.Some? ==> c !in r.value.0 && s == r.value.0 + [c] + r.value.1
  {
    if s == [] then None
    else if s[0] == c then Some(([], s[1..]))
    else
      match Cut(s[1..], c)
      case None => None
      case Some((before, after)) => Some(([s[0]] + before, after))
  }

  lemma {:induction false} CutAtFirst(a: string, c: char, b: string)
    requires c !in a
    ensures Cut(a + [c] + b, c) == Some((a, b))
  {
    var s := a + [c] + b;
    if a == [] {
      assert s[1..] == b;
    } else {
      assert s[0] == a[0] != c;
      assert s[1..] == a[1..] + [c] + b;
      CutAtFirst(a[1..], c, b);
      assert [a[0]] + a[1..] == a;
    }
  }

  lemma {:induction false} SplitAfterFirst(a: string, sep: char, b: string)
    requires sep !in a
    ensures Split(a + [sep] + b, sep) == [a] + Split(b, sep)
  {
    var s := a + [sep] + b;
    if a == [] {
      assert s[1..] == b;
    } else {
      assert s[0] == a[0] != sep;
      assert s[1..] == a[1..] + [sep] + b;
      SplitAfterFirst(a[1..], sep, b);
      var rest := Split(s[1..], sep);
      assert rest[0] == a[1..] && rest[1..] == Split(b, sep);
      assert [a[0]] + a[1..] == a;
    }
  }

  lemma {:induction false} SplitWithoutSeparator(a: string, sep: char)
    requires sep !in a
    ensures Split(a, sep) == [a]
  {
    if a != [] {
      SplitWithoutSeparator(a[1..], sep);
    }
  }

  /** Splitting undoes joining when no part holds the separator. */
  lemma {:induction false} SplitJoin(parts: seq<string>, sep: char)
    requires |parts| >= 1
    requires forall i :: 0 <= i < |parts| ==> sep !in parts[i]
    ensures Split(Join(parts, sep), sep) == parts
  {
    if |parts| == 1 {
      SplitWithoutSeparator(parts[0], sep);
    } else {
      SplitAfterFirst(parts[0], sep, Join(parts[1..], sep));
      SplitJoin(parts[1..], sep);
    }
  }

  // ---------------------------------------------------------------------------
  // Query strings

  /** The `key=value` fields of a query, in order. */
  function Fields(params: seq<(string, string)>): seq<string>
  {
    seq(|params|, i requires 0 <= i < |params| => params[i].0 + "=" + params[i].1)
  }

  function EncodeQuery(params: seq<(string, string)>): string
  {
    Join(Fields(params), '&')
  }

  /** Each field cut at its first `=`; fails when a field has none. */
  function DecodeFields(fields: seq<string>): Option<seq<(string, string)>>
  {
    if fields == [] then Some([])
    else
      match (Cut(fields[0], '='), DecodeFields(fields[1..]))
      case (Some(pair), Some(rest)) => Some([pair] + rest)
      case _ => None
  }

  function DecodeQuery(query: string): Option<seq<(string, string)>>
  {
    DecodeFields(Split(query, '&'))
  }

  /** A URL's path, before the first `?`, and its decoded query parameters. */
  function ParseUrl(url: string): Option<(string, seq<(string, string)>)>
  {
    match Cut(url, '?')
    case None => None
    case Some((path, query)) =>
      match DecodeQuery(query)
      case None => None
      case Some(params) => Some((path, params))
  }

  /** Keys hold neither `=` nor `&`; values hold no `&`. */
  predicate Encodable(params: seq<(string, string)>)
  {
    forall i :: 0 <= i < |params| ==>
      '=' !in params[i].0 && '&' !in params[i].0 && '&' !in params[i].1
  }

  lemma {:induction false} DecodeEncodedFields(params: seq<(string, string)>)
    requires Encodable(params)
    ensures DecodeFields(Fields(params)) == Some(params)
  {
    if params != [] {
      var (k, v) := params[0];
      assert Fields(params)[0] == k + "=" + v == k + ['='] + v;
      assert Fields(params)[1..] == Fields(params[1..]);
      CutAtFirst(k, '=', v);
      assert Encodable(params[1..]) by {
        forall i | 0 <= i < |params[1..]|
          ensures '=' !in params[1..][i].0 && '&' !in params[1..][i].0 && '&' !in params[1..][i].1
        {
          assert params[1..][i] == params[i + 1];
        }
      }
      DecodeEncodedFields(params[1..]);
      assert [params[0]] + params[1..] == params;
    }
  }

  lemma {:induction false} FieldsHaveNoAmpersand(params: seq<(string, string)>)
    requires Encodable(params)
    ensures forall i :: 0 <= i < |Fields(params)| ==> '&' !in Fields(params)[i]
  {
    if params != [] {
      assert Encodable(params[1..]) by {
        forall i | 0 <= i < |params[1..]|
          ensures '=' !in params[1..][i].0 && '&' !in params[1..][i].0 && '&' !in params[1..][i].1
        {
          assert params[1..][i] == params[i + 1];
        }
      }
      FieldsHaveNoAmpersand(params[1..]);
      assert Fields(params)[1..] == Fields(params[1..]);
      var f := params[0].0 + "=" + params[0].1;
      assert '&' !in f by {
        assert f == params[0].0 + ['='] + params[0].1;
      }
    }
  }

  /** Decoding recovers every encoded parameter, in order. */
  lemma QueryRoundTrip(params: seq<(string, string)>)
    requires |params| >= 1 && Encodable(params)
    ensures DecodeQuery(EncodeQuery(params)) == Some(params)
  {
    FieldsHaveNoAmpersand(params);
    SplitJoin(Fields(params), '&');
    DecodeEncodedFields(params);
  }

  // ---------------------------------------------------------------------------
  // The authorize URL (client.py lines 156-161)

  /** The parameters of the authorize URL, in the order they are appended. */
  function AuthorizeParams(clientId: int, scope: string): seq<(string, string)>
  {
    [("client_id", IntToDecimal(clientId)),
     ("response_type", "code"),
     ("redirect_uri", RedirectUri),
     ("approval_prompt", "force"),
     ("scope", scope)]
  }

  lemma AuthorizeParamsEncodable(clientId: int, scope: string)
    requires '&' !in scope
    ensures Encodable(AuthorizeParams(clientId, scope))
  {
    var params := AuthorizeParams(clientId, scope);
    assert '&' !in IntToDecimal(clientId);
    AuthorizeKeysEncodable();
    RedirectUriHasNoAmpersand();
    forall i | 0 <= i < |params|
      ensures '=' !in params[i].0 && '&' !in params[i].0 && '&' !in params[i].1
    {
      if i == 0 { } else if i == 1 { } else if i == 2 { } else if i == 3 { } else { }
    }
  }

  lemma AuthorizeKeysEncodable()
    ensures '=' !in "client_id" && '&' !in "client_id"
    ensures '=' !in "response_type" && '&' !in "response_type" && '&' !in "code"
    ensures '=' !in "redirect_uri" && '&' !in "redirect_uri"
    ensures '=' !in "approval_prompt" && '&' !in "approval_prompt" && '&' !in "force"
    ensures '=' !in "scope" && '&' !in "scope"
  {
  }

  lemma RedirectUriHasNoAmpersand()
    ensures '&' !in RedirectUri
  {
  }

  /** The query the authorize URL carries decodes to its five parameters, the first being the client id. */
  lemma AuthorizeQueryDecodes(clientId: int, scope: string)
    ensures var params := AuthorizeParams(clientId, scope);
            '&' !in scope ==>
              ParseUrl(AuthorizePath + "?" + EncodeQuery(params)) == Some((AuthorizePath, params))
              && ParseInt(params[0].1) == Some(clientId)
  {
    var params := AuthorizeParams(clientId, scope);
    if '&' !in scope {
      AuthorizeParamsEncodable(clientId, scope);
      QueryRoundTrip(params);
      assert AuthorizePath + "?" + EncodeQuery(params) == AuthorizePath + ['?'] + EncodeQuery(params);
      CutAtFirst(AuthorizePath, '?', EncodeQuery(params));
      IntToDecimalRoundTrip(clientId);
    }
  }

  /**
    The URL the browser is sent to for the user to grant the scopes: the
    authorize path, then exactly the five parameters above, in that order.
   */
  function AuthorizeUrl(clientId: int, scope: string): (url: string)
    ensures '&' !in scope ==> ParseUrl(url) == Some((AuthorizePath, AuthorizeParams(clientId, scope)))
    ensures '&' !in scope ==> ParseInt(AuthorizeParams(clientId, scope)[0].1) == Some(clientId)
  {
    AuthorizeQueryDecodes(clientId, scope);
    AuthorizePath + "?" + EncodeQuery(AuthorizeParams(clientId, scope))
  }

  /** The authorize URL is the five parameters appended one after the other, as the client builds it. */
  lemma AuthorizeUrlAppended(clientId: int, scope: string)
    ensures AuthorizePath + "?" + EncodeQuery(AuthorizeParams(clientId, scope))
         == AuthorizePath + "?client_id=" + IntToDecimal(clientId) + "&response_type=code"
            + "&redirect_uri=" + RedirectUri + "&approval_prompt=force"
            + "&scope=" + scope
  {
    var id := IntToDecimal(clientId);
    AuthorizeFields(clientId, scope);
    AppendedFields(AuthorizePath + "?", id, scope);
    assert AuthorizePath + "?" + "client_id=" == AuthorizePath + "?client_id=";
  }

  lemma AppendedFields(head: string, id: string, scope: string)
    ensures head + Join(["client_id=" + id, "response_type=code", "redirect_uri=" + RedirectUri,
                         "approval_prompt=force", "scope=" + scope], '&')
         == head + "client_id=" + id + "&response_type=code" + "&redirect_uri=" + RedirectUri
            + "&approval_prompt=force" + "&scope=" + scope
  {
    var f0, f1, f2, f3, f4 := "client_id=" + id, "response_type=code",
      "redirect_uri=" + RedirectUri, "approval_prompt=force", "scope=" + scope;
    JoinFive(head, f0, f1, f2, f3, f4,
      "&response_type=code", "&redirect_uri=" + RedirectUri, "&approval_prompt=force", "&scope=" + scope);
    assert head + f0 == head + "client_id=" + id;
    assert head + "client_id=" + id + "&response_type=code" + ("&redirect_uri=" + RedirectUri)
        == head + "client_id=" + id + "&response_type=code" + "&redirect_uri=" + RedirectUri;
  }

  /** Five parameters joined: the first, then each further one behind its separator. */
  lemma JoinFive(head: string, f0: string, f1: string, f2: string, f3: string, f4: string,
                 p1: string, p2: string, p3: string, p4: string)
    requires p1 == "&" + f1 && p2 == "&" + f2 && p3 == "&" + f3 && p4 == "&" + f4
    ensures head + Join([f0, f1, f2, f3, f4], '&') == head + f0 + p1 + p2 + p3 + p4
  {
    assert head + Join([f0], '&') == head + f0;
    AppendField(head, [f0], f1, [f0, f1], p1);
    AppendField(head, [f0, f1], f2, [f0, f1, f2], p2);
    AppendField(head, [f0, f1, f2], f3, [f0, f1, f2, f3], p3);
    AppendField(head, [f0, f1, f2, f3], f4, [f0, f1, f2, f3, f4], p4);
  }

  /** One more parameter appended to a query of at least one parameter. */
  lemma AppendField(head: string, fields: seq<string>, field: string, extended: seq<string>, piece: string)
    requires |fields| >= 1 && extended == fields + [field] && "&" + field == piece
    ensures head + Join(extended, '&') == head + Join(fields, '&') + piece
  {
    JoinSnoc(fields, field, '&');
  }

  lemma {:induction false} JoinSnoc(parts: seq<string>, last: string, sep: char)
    requires |parts| >= 1
    ensures Join(parts + [last], sep) == Join(parts, sep) + [sep] + last
  {
    if |parts| == 1 {
      assert (parts + [last])[1..] == [last];
    } else {
      assert (parts + [last])[1..] == parts[1..] + [last];
      JoinSnoc(parts[1..], last, sep);
    }
  }

  lemma AuthorizeFields(clientId: int, scope: string)
    ensures Fields(AuthorizeParams(clientId, scope))
         == ["client_id=" + IntToDecimal(clientId), "response_type=code",
             "redirect_uri=" + RedirectUri, "approval_prompt=force", "scope=" + scope]
  {
    var params := AuthorizeParams(clientId, scope);
    var fields := Fields(params);
    assert fields[0] == "client_id" + "=" + IntToDecimal(clientId);
    assert "client_id" + "=" + IntToDecimal(clientId) == "client_id=" + IntToDecimal(clientId);
    assert fields[1] == "response_type" + "=" + "code";
    assert "response_type" + "=" + "code" == "response_type=code";
    assert fields[2] == "redirect_uri" + "=" + RedirectUri;
    assert "redirect_uri" + "=" + RedirectUri == "redirect_uri=" + RedirectUri;
    assert fields[3] == "approval_prompt" + "=" + "force";
    assert "approval_prompt" + "=" + "force" == "approval_prompt=force";
    assert fields[4] == "scope" + "=" + scope;
    assert "scope" + "=" + scope == "scope=" + scope;
  }

  // ---------------------------------------------------------------------------
  // Authorization code extraction (client.py line 176): the first match of
  // `code=(\w+)`, with `\w` read as ASCII letters, digits and `_`

  const CodeKey: string := "code="

  predicate IsWordChar(ch: char)
  {
    'a' <= ch <= 'z' || 'A' <= ch <= 'Z' || '0' <= ch <= '9' || ch == '_'
  }

  /** `code=` stands at position `i` of `s`. */
  predicate KeyAt(s: string, i: int)
  {
    0 <= i && i + |CodeKey| <= |s| && s[i..i + |CodeKey|] == CodeKey
  }

  /** The pattern matches at `i`: the key, then at least one word character. */
  predicate MatchesAt(s: string, i: int)
  {
    KeyAt(s, i) && i + |CodeKey| < |s| && IsWordChar(s[i + |CodeKey|])
  }

  /** `i` is the leftmost position where the pattern matches, the one a regex search reports. */
  predicate IsFirstMatch(s: string, i: int)
  {
    MatchesAt(s, i) && forall j :: 0 <= j < i ==> !MatchesAt(s, j)
  }

  /** `code` is the whole run of word characters that starts at `from`. */
  predicate IsMaximalRun(s: string, from: int, code: string)
  {
    0 <= from && from + |code| <= |s| && s[from..from + |code|] == code
    && (forall k :: 0 <= k < |code| ==> IsWordChar(code[k]))
    && (from + |code| == |s| || !IsWordChar(s[from + |code|]))
  }

  /** The length of the run of word characters starting at `from`. */
  function WordRun(s: string, from: nat): (n: nat)
    requires from <= |s|
    ensures from + n <= |s|
    ensures forall k :: from <= k < from + n ==> IsWordChar(s[k])
    ensures from + n == |s| || !IsWordChar(s[from + n])
    decreases |s| - from
  {
    if from < |s| && IsWordChar(s[from]) then 1 + WordRun(s, from + 1) else 0
  }

  /** A run of `m` word characters ended by a non-word character or the end has length `m`. */
  lemma {:induction false} WordRunIs(s: string, from: nat, m: nat)
    requires from + m <= |s|
    requires forall k :: from <= k < from + m ==> IsWordChar(s[k])
    requires from + m == |s| || !IsWordChar(s[from + m])
    ensures WordRun(s, from) == m
    decreases m
  {
    if m > 0 {
      WordRunIs(s, from + 1, m - 1);
    }
  }

  /** The leftmost match at or after `from`, if any. */
  function FirstMatchFrom(s: string, from: nat): (r: Option<nat>)
    requires from <= |s|
    ensures r.Some? ==> from <= r.value < |s| && MatchesAt(s, r.value)
    ensures r.Some? ==> forall j :: from <= j < r.value ==> !MatchesAt(s, j)
    ensures r.None? ==> forall j :: from <= j ==> !MatchesAt(s, j)
    decreases |s| - from
  {
    if from == |s| then None
    else if MatchesAt(s, from) then Some(from)
    else FirstMatchFrom(s, from + 1)
  }

  /**
    The authorization code in a pasted redirect URL: the whole run of word
    characters after the first `code=` that is followed by one; none when
    there is no such occurrence.
   */
  function ExtractCode(redirect: string): (code: Option<string>)
    ensures code.None? <==> forall i :: !MatchesAt(redirect, i)
    ensures code.Some? ==>
      |code.value| >= 1
      && exists i :: IsFirstMatch(redirect, i) && IsMaximalRun(redirect, i + |CodeKey|, code.value)
  {
    match FirstMatchFrom(redirect, 0)
    case None => None
    case Some(i) =>
      var from := i + |CodeKey|;
      var code := redirect[from..from + WordRun(redirect, from)];
      assert IsFirstMatch(redirect, i) && IsMaximalRun(redirect, from, code);
      Some(code)
  }

  /** Without `code=` in it, `p` puts no match before a key that follows it. */
  lemma NoMatchBeforeKey(p: string, rest: string)
    requires forall j :: !KeyAt(p, j)
    ensures forall j :: 0 <= j < |p| ==> !MatchesAt(p + CodeKey + rest, j)
  {
    var s := p + CodeKey + rest;
    assert CodeKey[0] == 'c' && CodeKey[1] == 'o' && CodeKey[2] == 'd' && CodeKey[3] == 'e';
    forall j | 0 <= j < |p| ensures !KeyAt(s, j) {
      if j + |CodeKey| <= |p| {
        assert s[j..j + |CodeKey|] == p[j..j + |CodeKey|];
        assert !KeyAt(p, j);
      } else {
        var k := j + 4 - |p|;
        assert 0 <= k < 4;
        assert s[j + 4] == CodeKey[k];
        assert s[j..j + |CodeKey|][4] != CodeKey[4];
      }
    }
  }

  /**
    A redirect URL whose first `code=` is followed by the code and then by a
    non-word character or the end yields exactly that code.
   */
  lemma ExtractFromRedirect(p: string, code: string, q: string)
    requires forall j :: !KeyAt(p, j)
    requires |code| >= 1 && forall k :: 0 <= k < |code| ==> IsWordChar(code[k])
    requires q == [] || !IsWordChar(q[0])
    ensures ExtractCode(p + CodeKey + code + q) == Some(code)
  {
    var s := p + CodeKey + code + q;
    var from := |p| + |CodeKey|;
    assert s == p + CodeKey + (code + q);
    NoMatchBeforeKey(p, code + q);
    assert s[|p|..from] == CodeKey;
    assert s[from] == code[0];
    assert MatchesAt(s, |p|);
    var r := FirstMatchFrom(s, 0);
    assert r == Some(|p|);
    assert s[from..from + |code|] == code;
    WordRunIs(s, from, |code|);
  }

  /** Without any `code=` in the pasted text there is nothing to extract. */
  lemma ExtractFailsWithoutKey(s: string)
    requires forall j :: !KeyAt(s, j)
    ensures ExtractCode(s) == None
  {
  }
}
