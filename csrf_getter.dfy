/** CSRFGetter: fetches the header block of the advanced-search page and reads
    the XSRF-TOKEN cookie out of it. */
module Csrf {
  import opened Text
  import opened Boundary

  const ADVANCED_SEARCH_URL := "https://search.ipaustralia.gov.au/trademarks/search/advanced"
  const HTTP_STATUS_OK := 200
  const SET_COOKIE := "set-cookie"
  const TOKEN_COOKIE := "XSRF-TOKEN"

  /** explode("\n", rtrim(headerOutput)). */
  function HeaderLines(headerOutput: string): seq<string> {
    Split(TrimRight(headerOutput), '\n')
  }

  /** [$key, $value] = array_map('trim', explode(':', $header, 2) + [null, null]):
      the trimmed text before the first colon and after it ("" without a colon). */
  function KeyAndValue(header: string): (kv: (string, string))
    ensures ':' !in kv.0
  {
    var parts := SplitOnce(header, ':');
    (Trim(parts.0), Trim(parts.1.GetOr("")))
  }

  /** What one header line contributes: None unless its key is exactly
      `set-cookie` and the cookie name before the first '=' is exactly
      `XSRF-TOKEN`; then the first ';'-delimited token of the rest. strtok's
      false becomes "" through the ?string return type. */
  function LineToken(header: string): Option<string> {
    var kv := KeyAndValue(header);
    if kv.0 != SET_COOKIE then None
    else
      var cookie := SplitOnce(kv.1, '=');
      if cookie.0 != TOKEN_COOKIE then None
      else Some(StrTok(cookie.1.GetOr(""), ';').GetOr(""))
  }

  /** Only a `set-cookie` line (key compared case-sensitively) naming the
      XSRF-TOKEN cookie matches, and the token never contains ';'. */
  lemma LineTokenMatches(header: string)
    ensures LineToken(header).Some? <==> KeyAndValue(header).0 == SET_COOKIE && SplitOnce(KeyAndValue(header).1, '=').0 == TOKEN_COOKIE
    ensures LineToken(header).Some? ==> ';' !in LineToken(header).value
  {
  }

  /** The token each header line contributes, line by line. */
  function LineTokens(headers: seq<string>): (r: seq<Option<string>>)
    ensures |r| == |headers| && forall i :: 0 <= i < |headers| ==> r[i] == LineToken(headers[i])
  {
    if headers == [] then [] else [LineToken(headers[0])] + LineTokens(headers[1..])
  }

  /** The first present value of a sequence of options. */
  function FirstSome<T>(xs: seq<Option<T>>): Option<T> {
    if xs == [] then None else if xs[0].Some? then xs[0] else FirstSome(xs[1..])
  }

  /** The first present value wins; none present gives None. */
  lemma {:induction false} FirstSomeIsFirst<T>(xs: seq<Option<T>>)
    ensures FirstSome(xs).None? <==> forall i :: 0 <= i < |xs| ==> xs[i].None?
    ensures FirstSome(xs).Some? ==>
      exists i :: 0 <= i < |xs| && FirstSome(xs) == xs[i] && forall j :: 0 <= j < i ==> xs[j].None?
  {
    if xs != [] && xs[0].None? {
      FirstSomeIsFirst(xs[1..]);
      if FirstSome(xs).Some? {
        var i :| 0 <= i < |xs[1..]| && FirstSome(xs[1..]) == xs[1..][i] && forall j :: 0 <= j < i ==> xs[1..][j].None?;
        assert forall j :: 0 <= j < i + 1 ==> xs[j].None? by {
          forall j | 0 <= j < i + 1 ensures xs[j].None? {
            if j > 0 { assert xs[j] == xs[1..][j - 1]; }
          }
        }
        assert FirstSome(xs) == xs[i + 1];
      } else {
        forall i | 0 <= i < |xs| ensures xs[i].None? {
          if i > 0 { assert xs[i] == xs[1..][i - 1]; }
        }
      }
    }
  }

  /** The token of the first header line that yields one. */
  function FirstToken(headers: seq<string>): Option<string> {
    if headers == [] then None
    else if LineToken(headers[0]).Some? then LineToken(headers[0])
    else FirstToken(headers[1..])
  }

  /** The scan stops at the first line that yields a token. */
  lemma {:induction false} FirstTokenIsFirstSome(headers: seq<string>)
    ensures FirstToken(headers) == FirstSome(LineTokens(headers))
  {
    if headers != [] {
      FirstTokenIsFirstSome(headers[1..]);
      assert LineTokens(headers)[1..] == LineTokens(headers[1..]);
    }
  }

  /** One step of the scan: the first token from line i on. */
  lemma FirstTokenStep(headers: seq<string>, i: nat)
    requires i < |headers|
    ensures FirstToken(headers[i..]) == if LineToken(headers[i]).Some? then LineToken(headers[i]) else FirstToken(headers[i + 1..])
  {
    assert headers[i..][0] == headers[i] && headers[i..][1..] == headers[i + 1..];
  }

  /** Scans the header lines in order and returns at the first line that sets
      the XSRF-TOKEN cookie. */
  method ExtractCsrfTokenFromHeaders(headerOutput: string) returns (token: Option<string>)
    ensures token == FirstToken(HeaderLines(headerOutput))
  {
    var headers := HeaderLines(headerOutput);
    var i := 0;
    while i < |headers|
      invariant 0 <= i <= |headers|
      invariant FirstToken(headers[i..]) == FirstToken(headers)
    {
      FirstTokenStep(headers, i);
      if LineToken(headers[i]).Some? {
        return LineToken(headers[i]);
      }
      i := i + 1;
    }
    return None;
  }

  /** The token a header-only response yields: None after a transport error
      or any status other than 200. */
  function TokenOf(response: Response): (token: Option<string>)
    ensures token.Some? ==> response.Reply? && response.status == HTTP_STATUS_OK
  {
    match response
    case TransportError => None
    case Reply(status, text) => if status != HTTP_STATUS_OK then None else FirstToken(HeaderLines(text))
  }

  /** request($url): one header-only request; errors are absorbed into None. */
  method Request(url: string, net: Network) returns (token: Option<string>)
    modifies net
    ensures net.sent == old(net.sent) + [HeadersOnly(url)]
    ensures token == TokenOf(net.world.answer(HeadersOnly(url)))
  {
    var output := net.Send(HeadersOnly(url));
    if output.TransportError? || output.status != HTTP_STATUS_OK {
      return None;
    }
    token := ExtractCsrfTokenFromHeaders(output.text);
  }

  method GetCSRFToken(net: Network) returns (token: Option<string>)
    modifies net
    ensures net.sent == old(net.sent) + [HeadersOnly(ADVANCED_SEARCH_URL)]
    ensures token == TokenOf(net.world.answer(HeadersOnly(ADVANCED_SEARCH_URL)))
  {
    token := Request(ADVANCED_SEARCH_URL, net);
  }

  /** A header line `key: value` splits back into its key and its value when
      neither has surrounding whitespace and the key holds no colon. */
  lemma KeyAndValueOf(key: string, value: string)
    requires key != [] && ':' !in key && !IsTrimChar(key[0]) && !IsTrimChar(key[|key| - 1])
    requires value != [] && !IsTrimChar(value[0]) && !IsTrimChar(value[|value| - 1])
    ensures KeyAndValue(key + ": " + value) == (key, value)
  {
    assert key + ": " + value == key + [':'] + (" " + value);
    SplitOnceAt(key, ':', " " + value);
    assert (" " + value)[1..] == value;
  }

  /** A cookie value `XSRF-TOKEN=token;attributes` yields token. */
  lemma CookieValueToken(token: string, attributes: string)
    requires token != [] && ';' !in token
    ensures SplitOnce(TOKEN_COOKIE + "=" + token + ";" + attributes, '=') == (TOKEN_COOKIE, Some(token + ";" + attributes))
    ensures StrTok(token + ";" + attributes, ';') == Some(token)
  {
    assert TOKEN_COOKIE + "=" + token + ";" + attributes == TOKEN_COOKIE + ['='] + (token + ";" + attributes);
    SplitOnceAt(TOKEN_COOKIE, '=', token + ";" + attributes);
    assert token + ";" + attributes == token + [';'] + attributes;
    StrTokFirstToken(token, ';', attributes);
  }

  /** A `set-cookie` line for the XSRF-TOKEN cookie yields the cookie value up
      to its first ';', whatever attributes follow. */
  lemma CookieLineToken(token: string, attributes: string)
    requires token != [] && ';' !in token
    requires attributes == [] || !IsTrimChar(attributes[|attributes| - 1])
    ensures LineToken(SET_COOKIE + ": " + TOKEN_COOKIE + "=" + token + ";" + attributes) == Some(token)
  {
    var value := TOKEN_COOKIE + "=" + token + ";" + attributes;
    assert SET_COOKIE + ": " + TOKEN_COOKIE + "=" + token + ";" + attributes == SET_COOKIE + ": " + value;
    assert value[0] == 'X' && value[|value| - 1] == (token + ";" + attributes)[|token + ";" + attributes| - 1];
    KeyAndValueOf(SET_COOKIE, value);
    CookieValueToken(token, attributes);
  }

  /** A `key: value` line ending in "\r", as curl's header block has them,
      splits into the same key and value: trim() strips the "\r". */
  lemma KeyAndValueOfCrLf(key: string, value: string)
    requires key != [] && ':' !in key && !IsTrimChar(key[0]) && !IsTrimChar(key[|key| - 1])
    requires value != [] && !IsTrimChar(value[0]) && !IsTrimChar(value[|value| - 1])
    ensures KeyAndValue(key + ": " + value + "\r") == (key, value)
  {
    assert key + ": " + value + "\r" == key + [':'] + (" " + value + "\r");
    SplitOnceAt(key, ':', " " + value + "\r");
    TrimEnds(key);
    TrimPadded(" ", value, "\r");
  }

  /** The XSRF-TOKEN line as curl delivers it, ending in "\r" before the "\n"
      that explode removed, yields the same token. */
  lemma CookieLineTokenCrLf(token: string, attributes: string)
    requires token != [] && ';' !in token
    requires attributes == [] || !IsTrimChar(attributes[|attributes| - 1])
    ensures LineToken(SET_COOKIE + ": " + TOKEN_COOKIE + "=" + token + ";" + attributes + "\r") == Some(token)
  {
    var value := TOKEN_COOKIE + "=" + token + ";" + attributes;
    assert SET_COOKIE + ": " + TOKEN_COOKIE + "=" + token + ";" + attributes + "\r" == SET_COOKIE + ": " + value + "\r";
    assert value[0] == 'X' && value[|value| - 1] == (token + ";" + attributes)[|token + ";" + attributes| - 1];
    KeyAndValueOfCrLf(SET_COOKIE, value);
    CookieValueToken(token, attributes);
  }

  /** The documented example: `set-cookie: XSRF-TOKEN=abc123; Path=/` gives "abc123". */
  lemma SetCookieExample()
    ensures LineToken(SET_COOKIE + ": " + TOKEN_COOKIE + "=" + "abc123" + ";" + " Path=/") == Some("abc123")
  {
    CookieLineToken("abc123", " Path=/");
  }
}
