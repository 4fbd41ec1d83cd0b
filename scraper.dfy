/** Scraper: the search itself. It holds the CSRF token fetched at
    construction, counts the results for a keyword, posts the search form,
    follows the redirect to the paginated results (or reads an inline result
    page), and saves every record found. */
module Scraping {
  import opened Text
  import opened Boundary
  import opened Models
  import opened Storage
  import opened Parsing
  import Csrf
  import Pagination

  const SEARCH_URL := "https://search.ipaustralia.gov.au/trademarks/search/doSearch"
  const HTTP_STATUS_FOUND := 302
  const HTTP_STATUS_OK := 200
  const LOCATION_PREFIX := "location: "
  const PAGE_PARAMETER := "&p="

  /** generateUrl: page 0 is the redirect URL itself; any other page appends
      "&p=" and the page number. */
  function GenerateUrl(redirectUrl: string, pageNumber: int): (r: string)
    ensures redirectUrl <= r
    ensures r == redirectUrl <==> pageNumber == 0
  {
    if pageNumber == 0 then redirectUrl else redirectUrl + PAGE_PARAMETER + IntToDecimal(pageNumber)
  }

  /** The page number of a generated URL reads back from its query string. */
  lemma GeneratedPageReadsBack(redirectUrl: string, pageNumber: nat)
    requires pageNumber > 0
    ensures var r := GenerateUrl(redirectUrl, pageNumber);
      var digits := r[|redirectUrl| + |PAGE_PARAMETER|..];
      r[..|redirectUrl| + |PAGE_PARAMETER|] == redirectUrl + PAGE_PARAMETER &&
      IsDigits(digits) && DecimalValue(digits) == pageNumber
  {
    var r := GenerateUrl(redirectUrl, pageNumber);
    assert r[|redirectUrl| + |PAGE_PARAMETER|..] == NatToDecimal(pageNumber);
    DecimalRoundTrip(pageNumber);
  }

  /** Distinct page numbers give distinct URLs. */
  lemma GenerateUrlInjective(redirectUrl: string, p: nat, q: nat)
    requires GenerateUrl(redirectUrl, p) == GenerateUrl(redirectUrl, q)
    ensures p == q
  {
    if p > 0 && q > 0 {
      GeneratedPageReadsBack(redirectUrl, p);
      GeneratedPageReadsBack(redirectUrl, q);
    }
  }

  /** The URLs the page loop requests for n pages, in loop order. */
  function PageUrls(redirectUrl: string, n: int): seq<string> {
    if n <= 0 then [] else PageUrls(redirectUrl, n - 1) + [GenerateUrl(redirectUrl, n - 1)]
  }

  /** The loop requests pages 0 .. n-1: the URL at position i is that of page i. */
  lemma {:induction false} PageUrlsElements(redirectUrl: string, n: int)
    ensures |PageUrls(redirectUrl, n)| == if n < 0 then 0 else n
    ensures forall i :: 0 <= i < |PageUrls(redirectUrl, n)| ==> PageUrls(redirectUrl, n)[i] == GenerateUrl(redirectUrl, i)
  {
    if n > 0 {
      PageUrlsElements(redirectUrl, n - 1);
      var prev := PageUrls(redirectUrl, n - 1);
      var last := GenerateUrl(redirectUrl, n - 1);
      assert PageUrls(redirectUrl, n) == prev + [last];
      forall i | 0 <= i < n
        ensures PageUrls(redirectUrl, n)[i] == GenerateUrl(redirectUrl, i)
      {
        if i < n - 1 {
          assert (prev + [last])[i] == prev[i];
        }
      }
    }
  }

  /** No page URL is requested twice. */
  lemma PageUrlsDistinct(redirectUrl: string, n: int)
    ensures forall i, j :: 0 <= i < j < |PageUrls(redirectUrl, n)| ==> PageUrls(redirectUrl, n)[i] != PageUrls(redirectUrl, n)[j]
  {
    PageUrlsElements(redirectUrl, n);
    forall i, j | 0 <= i < j < |PageUrls(redirectUrl, n)|
      ensures PageUrls(redirectUrl, n)[i] != PageUrls(redirectUrl, n)[j]
    {
      if PageUrls(redirectUrl, n)[i] == PageUrls(redirectUrl, n)[j] {
        GenerateUrlInjective(redirectUrl, i, j);
      }
    }
  }

  /** Three pages of a redirect URL: the URL itself, then pages 1 and 2. */
  lemma PageUrlsExample()
    ensures PageUrls("/results?id=abc", 3) == ["/results?id=abc", "/results?id=abc&p=1", "/results?id=abc&p=2"]
  {
    var url := "/results?id=abc";
    assert NatToDecimal(1) == "1" && NatToDecimal(2) == "2";
    assert GenerateUrl(url, 1) == url + "&p=1";
    assert GenerateUrl(url, 2) == url + "&p=2";
    assert PageUrls(url, 1) == [url];
    assert PageUrls(url, 2) == [url, url + "&p=1"];
    assert PageUrls(url, 3) == [url, url + "&p=1", url + "&p=2"];
    assert url + "&p=1" == "/results?id=abc&p=1" && url + "&p=2" == "/results?id=abc&p=2";
  }

  /** /location: (.*)\r\n/ tried at the start of s: "location: " must
      start s, and the rest of that line (up to the first "\n") must end in
      "\r"; the capture is that rest without the "\r". */
  function MatchLine(s: string): Option<string> {
    if |s| < |LOCATION_PREFIX| || s[..|LOCATION_PREFIX|] != LOCATION_PREFIX then None
    else
      var rest := s[|LOCATION_PREFIX|..];
      var line := TakeUntil(rest, '\n');
      if |line| < |rest| && |line| >= 1 && line[|line| - 1] == '\r' then Some(line[..|line| - 1])
      else None
  }

  /** The pattern tried at position i of the response text. */
  function MatchAt(text: string, i: nat): Option<string>
    requires i <= |text|
  {
    MatchLine(text[i..])
  }

  /** A match is a whole `location: <capture>\r\n` line, and the capture
      holds no line break. */
  lemma MatchLineShape(s: string)
    ensures MatchLine(s).Some? ==> '\n' !in MatchLine(s).value && |LOCATION_PREFIX| + |MatchLine(s).value| + 2 <= |s|
    ensures MatchLine(s).Some? ==>
      s == LOCATION_PREFIX + MatchLine(s).value + "\r\n" + s[|LOCATION_PREFIX| + |MatchLine(s).value| + 2..]
  {
    if MatchLine(s).Some? {
      var p := |LOCATION_PREFIX|;
      var rest := s[p..];
      var line := TakeUntil(rest, '\n');
      var v := line[..|line| - 1];
      assert MatchLine(s) == Some(v);
      TakeUntilSplits(rest, '\n');
      assert line == v + "\r";
      assert s == s[..p] + rest;
      LineShape(s[..p], rest, line, v, rest[|line| + 1..]);
      assert rest[|line| + 1..] == s[p + |v| + 2..];
    }
  }

  /** Regrouping a line and its terminator after a prefix. */
  lemma LineShape(prefix: string, rest: string, line: string, v: string, tail: string)
    requires rest == line + "\n" + tail && line == v + "\r"
    ensures prefix + rest == prefix + v + "\r\n" + tail
  {
  }

  /** Any `location: <url>\r\n` line whose url holds no line break matches,
      capturing url. */
  lemma MatchLineOf(url: string, rest: string)
    requires '\n' !in url
    ensures MatchLine(LOCATION_PREFIX + url + "\r\n" + rest) == Some(url)
  {
    var s := LOCATION_PREFIX + url + "\r\n" + rest;
    assert s[..|LOCATION_PREFIX|] == LOCATION_PREFIX;
    assert s[|LOCATION_PREFIX|..] == (url + "\r") + ("\n" + rest);
    TakeUntilBefore(url + "\r", '\n', "\n" + rest);
    assert (url + "\r")[..|url|] == url;
  }

  /** preg_match's leftmost match from position i on. */
  function LocationFrom(text: string, i: nat): Option<string>
    requires i <= |text|
    decreases |text| - i
  {
    var here := MatchAt(text, i);
    if here.Some? then here
    else if i == |text| then None
    else LocationFrom(text, i + 1)
  }

  /** The search returns a match found at some position from i on, and finds
      nothing only when no position from i on matches. */
  lemma {:induction false} LocationFromSound(text: string, i: nat)
    requires i <= |text|
    ensures LocationFrom(text, i).Some? ==> exists k :: i <= k <= |text| && MatchAt(text, k) == LocationFrom(text, i)
    ensures LocationFrom(text, i).None? ==> forall k :: i <= k <= |text| ==> MatchAt(text, k).None?
    decreases |text| - i
  {
    if MatchAt(text, i).None? && i < |text| {
      LocationFromSound(text, i + 1);
    }
  }

  /** The capture of the first `location: ...\r\n` line of a response, if any. */
  function Location(text: string): Option<string> {
    LocationFrom(text, 0)
  }

  /** A location line is found after any text that holds none. */
  lemma LocationAfter(text: string, i: nat, url: string)
    requires i <= |text| && '\n' !in url
    requires forall k :: 0 <= k < i ==> MatchAt(text, k).None?
    requires i + |LOCATION_PREFIX| + |url| + 2 <= |text|
    requires text[i..] == LOCATION_PREFIX + url + "\r\n" + text[i + |LOCATION_PREFIX| + |url| + 2..]
    ensures Location(text) == Some(url)
  {
    MatchLineOf(url, text[i + |LOCATION_PREFIX| + |url| + 2..]);
    LocationFromAfter(text, 0, i);
  }

  /** The leftmost search from j reaches the first match at or after j. */
  lemma {:induction false} LocationFromAfter(text: string, j: nat, i: nat)
    requires j <= i <= |text| && MatchAt(text, i).Some?
    requires forall k :: j <= k < i ==> MatchAt(text, k).None?
    ensures LocationFrom(text, j) == MatchAt(text, i)
    decreases i - j
  {
    if j < i {
      LocationFromAfter(text, j + 1, i);
      LocationFromSkip(text, j);
    }
  }

  /** The search moves past a position where no line matches. */
  lemma LocationFromSkip(text: string, j: nat)
    requires j < |text| && MatchAt(text, j).None?
    ensures LocationFrom(text, j) == LocationFrom(text, j + 1)
  {
  }

  /** No line matches at a position that does not start with 'l'. */
  lemma NoMatchAt(text: string, k: nat)
    requires k < |text| && text[k] != 'l'
    ensures MatchAt(text, k).None?
  {
    var s := text[k..];
    if |s| >= |LOCATION_PREFIX| {
      assert s[..|LOCATION_PREFIX|][0] == text[k];
    }
  }

  /** A location line is found behind a head (such as the status line) that
      holds no 'l'. */
  lemma LocationBehindHead(head: string, url: string, tail: string)
    requires 'l' !in head && '\n' !in url
    ensures Location(head + LOCATION_PREFIX + url + "\r\n" + tail) == Some(url)
  {
    var text := head + LOCATION_PREFIX + url + "\r\n" + tail;
    forall k | 0 <= k < |head|
      ensures MatchAt(text, k).None?
    {
      assert text[k] == head[k];
      NoMatchAt(text, k);
    }
    assert text[|head|..] == LOCATION_PREFIX + url + "\r\n" + tail;
    assert text[|head| + |LOCATION_PREFIX| + |url| + 2..] == tail;
    LocationAfter(text, |head|, url);
  }

  /** A 302 whose header block carries `location: /results?id=abc` behind a
      status line leads to that URL and, for three pages, to its three page
      URLs. */
  lemma RedirectExample(statusLine: string, rest: string)
    requires 'l' !in statusLine
    ensures ResponseBranch(HTTP_STATUS_FOUND, statusLine + LOCATION_PREFIX + "/results?id=abc" + "\r\n" + rest)
      == FollowRedirect("/results?id=abc")
    ensures PageUrls("/results?id=abc", 3) == ["/results?id=abc", "/results?id=abc&p=1", "/results?id=abc&p=2"]
  {
    var url := "/results?id=abc";
    LocationBehindHead(statusLine, url, rest);
    TrimEnds(url);
    PageUrlsExample();
  }

  /** Where handleResponse goes for a status and a response text. */
  datatype Branch =
    | FollowRedirect(redirectUrl: string)  // 302 with a location line: fetch every page
    | ParseInline(body: string)            // 200: read the result table of the response
    | NoData                               // anything else: no records
    | UndefinedMethod                      // a call to a method the Parser does not have

  /** The branch as the code stands: on 200 it calls Parser::parseHtml, which
      the Parser does not define, so that branch ends in a fatal error. */
  function ResponseBranchAsWritten(status: int, text: string): Branch {
    if status == HTTP_STATUS_FOUND then
      match Location(text)
      case Some(capture) => FollowRedirect(Trim(capture))
      case None => NoData
    else if status == HTTP_STATUS_OK then UndefinedMethod
    else NoData
  }

  /** The branch as evidently intended: on 200 the response is read with
      extractDataFromHtml. */
  function ResponseBranch(status: int, text: string): (b: Branch)
    ensures b.FollowRedirect? <==> status == HTTP_STATUS_FOUND && Location(text).Some?
    ensures b.ParseInline? <==> status == HTTP_STATUS_OK
    ensures b.ParseInline? ==> b.body == text
    ensures b.FollowRedirect? ==> b.redirectUrl == Trim(Location(text).value)
    ensures !b.UndefinedMethod?
  {
    if status == HTTP_STATUS_FOUND then
      match Location(text)
      case Some(capture) => FollowRedirect(Trim(capture))
      case None => NoData
    else if status == HTTP_STATUS_OK then ParseInline(text)
    else NoData
  }

  /** The two readings differ on exactly the 200 responses, where the code as
      written fails. */
  lemma ParseHtmlIsUndefined(status: int, text: string)
    ensures status == HTTP_STATUS_OK ==> ResponseBranchAsWritten(status, text) == UndefinedMethod && ResponseBranch(status, text) == ParseInline(text)
    ensures status != HTTP_STATUS_OK ==> ResponseBranchAsWritten(status, text) == ResponseBranch(status, text)
  {
  }

  /** What Parser::parse yields for each URL, in a given world. */
  function PageReader(world: World): string -> Option<seq<Fields>> {
    url => PageFields(world, url)
  }

  /** The records of the pages at urls, read in order and concatenated; None
      as soon as one page is fatal. */
  function Gather(read: string -> Option<seq<Fields>>, urls: seq<string>): Option<seq<Fields>> {
    if urls == [] then Some([])
    else
      match Gather(read, urls[..|urls| - 1])
      case None => None
      case Some(done) =>
        match read(urls[|urls| - 1])
        case None => None
        case Some(page) => Some(done + page)
  }

  /** The requests for the pages at urls: one per page, in order, up to and
      including the first fatal page. */
  function Requested(read: string -> Option<seq<Fields>>, urls: seq<string>): seq<Request> {
    if urls == [] then []
    else if Gather(read, urls[..|urls| - 1]).None? then Requested(read, urls[..|urls| - 1])
    else Requested(read, urls[..|urls| - 1]) + [GetFollowing(urls[|urls| - 1])]
  }

  /** Reading one more page: a fatal result stays fatal and requests nothing
      more; otherwise the page is requested and its records are appended. */
  lemma GatherStep(read: string -> Option<seq<Fields>>, urls: seq<string>, url: string)
    ensures Gather(read, urls).None? ==> Gather(read, urls + [url]).None? && Requested(read, urls + [url]) == Requested(read, urls)
    ensures Gather(read, urls).Some? ==> Requested(read, urls + [url]) == Requested(read, urls) + [GetFollowing(url)]
    ensures Gather(read, urls).Some? && read(url).None? ==> Gather(read, urls + [url]).None?
    ensures Gather(read, urls).Some? && read(url).Some? ==> Gather(read, urls + [url]) == Some(Gather(read, urls).value + read(url).value)
  {
    assert (urls + [url])[..|urls|] == urls;
  }

  /** The pages read so far are a prefix of all the pages. */
  lemma {:induction false} GatherPrefix(read: string -> Option<seq<Fields>>, urls: seq<string>, k: nat)
    requires k <= |urls| && Gather(read, urls).Some?
    ensures Gather(read, urls[..k]).Some? && Gather(read, urls[..k]).value <= Gather(read, urls).value
    decreases |urls|
  {
    if k < |urls| {
      var prefix := urls[..|urls| - 1];
      assert prefix[..k] == urls[..k];
      GatherPrefix(read, prefix, k);
    } else {
      assert urls[..k] == urls;
    }
  }

  /** Once a page is fatal the whole result is, and no later page is requested. */
  lemma {:induction false} GatherAfterFatal(read: string -> Option<seq<Fields>>, urls: seq<string>, k: nat)
    requires k <= |urls| && Gather(read, urls[..k]).None?
    ensures Gather(read, urls).None?
    ensures Requested(read, urls) == Requested(read, urls[..k])
    decreases |urls|
  {
    if k < |urls| {
      var prefix := urls[..|urls| - 1];
      assert prefix[..k] == urls[..k];
      GatherAfterFatal(read, prefix, k);
      GatherStep(read, prefix, urls[|urls| - 1]);
      assert prefix + [urls[|urls| - 1]] == urls;
    } else {
      assert urls[..k] == urls;
    }
  }

  /** Without a fatal page, every page is requested, in order. */
  lemma {:induction false} RequestedAll(read: string -> Option<seq<Fields>>, urls: seq<string>)
    requires Gather(read, urls).Some?
    ensures Requested(read, urls) == Fetches(urls)
  {
    if urls != [] {
      var prefix := urls[..|urls| - 1];
      var last := urls[|urls| - 1];
      RequestedAll(read, prefix);
      FetchesAppend(prefix, last);
      assert prefix + [last] == urls;
    }
  }

  /** Every record gathered from parsed pages carries an id. */
  lemma {:induction false} GatherHasIds(world: World, urls: seq<string>)
    ensures Gather(PageReader(world), urls).Some? ==> AllHaveIds(Gather(PageReader(world), urls).value)
  {
    if urls != [] {
      GatherHasIds(world, urls[..|urls| - 1]);
      PageFieldsHaveIds(world, urls[|urls| - 1]);
    }
  }

  /** The records of pages 0 .. n-1 of the redirect, page after page; None as
      soon as one page is fatal. */
  function PagesFields(world: World, redirectUrl: string, n: int): Option<seq<Fields>> {
    Gather(PageReader(world), PageUrls(redirectUrl, n))
  }

  /** The requests the page loop issues for n pages. */
  function Fetched(world: World, redirectUrl: string, n: int): seq<Request> {
    Requested(PageReader(world), PageUrls(redirectUrl, n))
  }

  /** The request of each page URL, in order. */
  function Fetches(urls: seq<string>): (r: seq<Request>)
    ensures |r| == |urls| && forall i :: 0 <= i < |urls| ==> r[i] == GetFollowing(urls[i])
  {
    if urls == [] then [] else [GetFollowing(urls[0])] + Fetches(urls[1..])
  }

  lemma FetchesAppend(urls: seq<string>, url: string)
    ensures Fetches(urls + [url]) == Fetches(urls) + [GetFollowing(url)]
  {
  }

  /** Without a fatal page, exactly the n page URLs are fetched, in page order. */
  lemma FetchedAllPages(world: World, redirectUrl: string, n: int)
    requires PagesFields(world, redirectUrl, n).Some?
    ensures Fetched(world, redirectUrl, n) == Fetches(PageUrls(redirectUrl, n))
  {
    RequestedAll(PageReader(world), PageUrls(redirectUrl, n));
  }

  /** The records handleResponse returns for a branch; None for a fatal error. */
  function HandleResult(world: World, branch: Branch, pagesCount: int): (r: Option<seq<Fields>>)
    ensures r.Some? ==> AllHaveIds(r.value)
  {
    match branch
    case FollowRedirect(url) => GatherHasIds(world, PageUrls(url, pagesCount)); PagesFields(world, url, pagesCount)
    case ParseInline(body) => TableFieldsHaveIds(body, world.resultsTable); TableFields(body, world.resultsTable)
    case NoData => Some([])
    case UndefinedMethod => None
  }

  /** The requests handleResponse issues for a branch. */
  function HandleRequests(world: World, branch: Branch, pagesCount: int): seq<Request> {
    if branch.FollowRedirect? then Fetched(world, branch.redirectUrl, pagesCount) else []
  }

  /** A 200 response is read once, with no page request, whatever the page count. */
  lemma InlineResultIgnoresPageCount(world: World, text: string, pagesCount: int)
    ensures HandleResult(world, ResponseBranch(HTTP_STATUS_OK, text), pagesCount) == TableFields(text, world.resultsTable)
    ensures HandleRequests(world, ResponseBranch(HTTP_STATUS_OK, text), pagesCount) == []
  {
  }

  /** A 302 without a location line, and any status other than 302 and 200,
      yield no records and no request. */
  lemma NoDataWithoutRedirectOrPage(world: World, status: int, text: string, pagesCount: int)
    requires status != HTTP_STATUS_OK
    requires status != HTTP_STATUS_FOUND || Location(text).None?
    ensures HandleResult(world, ResponseBranch(status, text), pagesCount) == Some([])
    ensures HandleRequests(world, ResponseBranch(status, text), pagesCount) == []
  {
  }

  /** The fixed fields of the search form, after _csrf and wv[0]. */
  const FIXED_FORM_FIELDS: seq<(string, string)> := [
    ("wt[0]", "PART"), ("weOp[0]", "AND"), ("wv[1]", ""), ("wt[1]", "PART"), ("weOp[1]", "AND"),
    ("wrOp", "AND"), ("_sw", "on"), ("classList", ""), ("ct", "A"), ("status", ""),
    ("dateType", "LODGEMENT_DATE"), ("fromDate", ""), ("toDate", ""), ("ia", ""), ("gsd", ""),
    ("endo", ""), ("nameField[0]", "OWNER"), ("name[0]", ""), ("attorney", ""), ("oAcn", ""),
    ("idList", ""), ("ir", ""), ("publicationFromDate", ""), ("publicationToDate", ""), ("i", ""),
    ("c", ""), ("originalSegment", "")]

  /** buildPostData: the token, the keyword, then the fixed fields. */
  function BuildPostData(token: string, keyword: string): (fields: seq<(string, string)>)
    ensures |fields| == 29
  {
    [("_csrf", token), ("wv[0]", keyword)] + FIXED_FORM_FIELDS
  }

  /** Only the token and the keyword vary from one search to another. */
  lemma PostDataVariesOnlyInTokenAndKeyword(t1: string, k1: string, t2: string, k2: string)
    ensures BuildPostData(t1, k1)[0] == ("_csrf", t1) && BuildPostData(t1, k1)[1] == ("wv[0]", k1)
    ensures forall i :: 2 <= i < 29 ==> BuildPostData(t1, k1)[i] == BuildPostData(t2, k2)[i]
    ensures BuildPostData(t1, k1) == BuildPostData(t2, k2) <==> t1 == t2 && k1 == k2
  {
    if BuildPostData(t1, k1) == BuildPostData(t2, k2) {
      assert BuildPostData(t1, k1)[0] == BuildPostData(t2, k2)[0];
      assert BuildPostData(t1, k1)[1] == BuildPostData(t2, k2)[1];
    }
  }

  /** The fifteen fixed browser headers buildHeaders sends around the cookie
      line, in their order, each named by its header name; their literal
      values are not part of this model. */
  const BROWSER_HEADERS: seq<string> := ["accept", "accept-language", "cache-control", "content-type",
    "origin", "referer", "sec-ch-ua", "sec-ch-ua-mobile", "sec-ch-ua-platform", "sec-fetch-dest",
    "sec-fetch-mode", "sec-fetch-site", "sec-fetch-user", "upgrade-insecure-requests", "user-agent"]

  /** The header line that sends the token back as the XSRF-TOKEN cookie. */
  function CookieHeader(token: string): string {
    "cookie: " + Csrf.TOKEN_COOKIE + "=" + token
  }

  /** buildHeaders: the cookie line fifth, after the accept, language, cache
      and content-type headers, and before the other eleven. */
  function BuildHeaders(token: string): (headers: seq<string>)
    ensures |headers| == 16 && headers[4] == CookieHeader(token)
    ensures headers[..4] + headers[5..] == BROWSER_HEADERS
  {
    var headers := BROWSER_HEADERS[..4] + [CookieHeader(token)] + BROWSER_HEADERS[4..];
    assert headers[..4] + headers[5..] == BROWSER_HEADERS;
    headers
  }

  /** The cookie line, read back the way the header scan reads a header line,
      gives the cookie named XSRF-TOKEN with the very token. */
  lemma CookieHeaderCarriesToken(token: string)
    requires token != [] && !IsTrimChar(token[|token| - 1])
    ensures Csrf.KeyAndValue(CookieHeader(token)) == ("cookie", Csrf.TOKEN_COOKIE + "=" + token)
    ensures SplitOnce(Csrf.KeyAndValue(CookieHeader(token)).1, '=') == (Csrf.TOKEN_COOKIE, Some(token))
  {
    CookieHeaderSplits(token);
    CookieValueSplits(token);
  }

  lemma CookieValueSplits(token: string)
    ensures SplitOnce(Csrf.TOKEN_COOKIE + "=" + token, '=') == (Csrf.TOKEN_COOKIE, Some(token))
  {
    assert Csrf.TOKEN_COOKIE + "=" + token == Csrf.TOKEN_COOKIE + ['='] + token;
    SplitOnceAt(Csrf.TOKEN_COOKIE, '=', token);
  }

  lemma CookieHeaderSplits(token: string)
    requires token != [] && !IsTrimChar(token[|token| - 1])
    ensures Csrf.KeyAndValue(CookieHeader(token)) == ("cookie", Csrf.TOKEN_COOKIE + "=" + token)
  {
    var value := Csrf.TOKEN_COOKIE + "=" + token;
    assert CookieHeader(token) == "cookie" + ": " + value;
    assert value[0] == 'X' && value[|value| - 1] == token[|token| - 1];
    Csrf.KeyAndValueOf("cookie", value);
  }

  /** The search request for a token and a keyword. */
  function SearchRequest(token: string, keyword: string): Request {
    PostForm(SEARCH_URL, BuildPostData(token, keyword), BuildHeaders(token))
  }

  /** How a search ends. */
  datatype Outcome =
    | EmptyToken                      // no CSRF token: nothing is done
    | EmptyPages                      // the count gives no page: no search is posted
    | RequestError                    // the search request failed in transport
    | Fatal                           // a fatal error while reading the results: nothing is saved
    | Finished(records: seq<Fields>)  // every record found has been saved

  /** The page count the count endpoint's answer gives. */
  function PagesCountFor(world: World, keyword: string): int {
    Pagination.PagesFor(Pagination.FoundItemsCount(world.answer(Get(Pagination.CountUrl(keyword))), world.jsonDecode))
  }

  /** sendSearchRequest once the request is built: a transport error ends
      the search, otherwise the records of the response are the result. */
  function PostOutcome(world: World, post: Request, pagesCount: int): (o: Outcome)
    ensures o.Finished? ==> AllHaveIds(o.records)
  {
    match world.answer(post)
    case TransportError => RequestError
    case Reply(status, text) =>
      match HandleResult(world, ResponseBranch(status, text), pagesCount)
      case None => Fatal
      case Some(records) => Finished(records)
  }

  /** sendSearchRequest as the code stands, with the 200 branch calling the
      undefined Parser::parseHtml: a 200 answer ends the search in a fatal
      error before anything is stored; every other answer is handled as in
      PostOutcome. */
  function PostOutcomeAsWritten(world: World, post: Request, pagesCount: int): (o: Outcome)
    ensures world.answer(post).Reply? && world.answer(post).status == HTTP_STATUS_OK ==> o == Fatal
    ensures world.answer(post).TransportError? || world.answer(post).status != HTTP_STATUS_OK ==>
      o == PostOutcome(world, post, pagesCount)
  {
    match world.answer(post)
    case TransportError => RequestError
    case Reply(status, text) =>
      ParseHtmlIsUndefined(status, text);
      match HandleResult(world, ResponseBranchAsWritten(status, text), pagesCount)
      case None => Fatal
      case Some(records) => Finished(records)
  }

  /** The requests sendSearchRequest issues: the post, then those of the
      response's branch. */
  function PostRequests(world: World, post: Request, pagesCount: int): seq<Request> {
    [post] +
    match world.answer(post)
    case TransportError => []
    case Reply(status, text) => HandleRequests(world, ResponseBranch(status, text), pagesCount)
  }

  /** search(keyword), as a function of the World and the token. */
  function SearchOutcome(world: World, token: Option<string>, keyword: string): (o: Outcome)
    ensures o.Finished? ==> AllHaveIds(o.records)
  {
    if token.None? then EmptyToken
    else if PagesCountFor(world, keyword) == 0 then EmptyPages
    else PostOutcome(world, SearchRequest(token.value, keyword), PagesCountFor(world, keyword))
  }

  /** The requests search(keyword) issues, in order. */
  function SearchRequests(world: World, token: Option<string>, keyword: string): seq<Request> {
    if token.None? then []
    else if PagesCountFor(world, keyword) == 0 then [Get(Pagination.CountUrl(keyword))]
    else [Get(Pagination.CountUrl(keyword))] + PostRequests(world, SearchRequest(token.value, keyword), PagesCountFor(world, keyword))
  }

  /** Past both guards, the log of a search is the count request followed by
      the post and the requests its answer leads to. */
  lemma SearchLogAfterCount(sent: seq<Request>, world: World, token: string, keyword: string)
    requires PagesCountFor(world, keyword) != 0
    ensures (sent + [Get(Pagination.CountUrl(keyword))]) + PostRequests(world, SearchRequest(token, keyword), PagesCountFor(world, keyword))
      == sent + SearchRequests(world, Some(token), keyword)
  {
  }

  /** Once the post is answered, the log goes on with what handleResponse requests. */
  lemma PostLogAfterPost(sent: seq<Request>, world: World, post: Request, pagesCount: int, status: int, text: string)
    requires world.answer(post) == Reply(status, text)
    ensures (sent + [post]) + HandleRequests(world, ResponseBranch(status, text), pagesCount) == sent + PostRequests(world, post, pagesCount)
  {
  }

  /** Without a token, search issues no request at all; with no page, it
      issues the count request only and posts nothing. */
  lemma GuardsStopEarly(world: World, token: Option<string>, keyword: string)
    ensures token.None? ==> SearchOutcome(world, token, keyword) == EmptyToken && SearchRequests(world, token, keyword) == []
    ensures token.Some? && PagesCountFor(world, keyword) == 0 ==>
      SearchOutcome(world, token, keyword) == EmptyPages && SearchRequests(world, token, keyword) == [Get(Pagination.CountUrl(keyword))]
  {
  }

  /** A search post answered by a redirect, when no page is fatal, is
      followed by exactly the pagesCount page requests, in page order. */
  lemma RedirectFetchesEveryPage(world: World, post: Request, pagesCount: int)
    requires world.answer(post).Reply?
    requires ResponseBranch(world.answer(post).status, world.answer(post).text).FollowRedirect?
    requires PostOutcome(world, post, pagesCount).Finished?
    ensures PostRequests(world, post, pagesCount) ==
      [post] + Fetches(PageUrls(ResponseBranch(world.answer(post).status, world.answer(post).text).redirectUrl, pagesCount))
  {
    FetchedAllPages(world, ResponseBranch(world.answer(post).status, world.answer(post).text).redirectUrl, pagesCount);
  }

  class Scraper {
    var csrfToken: Option<string>
    var pagesCount: int
    var keyword: string

    /** Fetches the CSRF token once; the count and the keyword are set by search. */
    constructor (net: Network)
      modifies net
      ensures csrfToken == Csrf.TokenOf(net.world.answer(HeadersOnly(Csrf.ADVANCED_SEARCH_URL)))
      ensures net.sent == old(net.sent) + [HeadersOnly(Csrf.ADVANCED_SEARCH_URL)]
    {
      var token := Csrf.GetCSRFToken(net);
      csrfToken := token;
      pagesCount := 0;
      keyword := "";
    }

    /** search: stops without a token, stops with no page, otherwise posts the
        search and saves what it finds. */
    method Search(kw: string, net: Network, storage: FileStorage) returns (outcome: Outcome)
      requires storage.Valid()
      modifies this, net, storage
      ensures csrfToken == old(csrfToken)
      ensures outcome == SearchOutcome(net.world, csrfToken, kw)
      ensures net.sent == old(net.sent) + SearchRequests(net.world, csrfToken, kw)
      ensures storage.Valid()
      ensures storage.files == if outcome.Finished? then AfterSaves(storage.config, old(storage.files), outcome.records, SHORT_CLASS_NAME, map["suffix" := kw]) else old(storage.files)
      ensures csrfToken.Some? ==> keyword == kw && pagesCount == PagesCountFor(net.world, kw)
      ensures csrfToken.None? ==> keyword == old(keyword) && pagesCount == old(pagesCount)
    {
      if csrfToken == None {
        return EmptyToken;
      }
      keyword := kw;
      var paginator := new Pagination.Paginator(keyword, net);
      pagesCount := paginator.GetPagesCount();
      if pagesCount == 0 {
        return EmptyPages;
      }
      var postData := BuildPostData(csrfToken.value, keyword);
      var headers := BuildHeaders(csrfToken.value);
      ghost var counted := net.sent;
      outcome := SendSearchRequest(postData, headers, net, storage);
      assert net.sent == old(net.sent) + SearchRequests(net.world, csrfToken, kw) by {
        var post := SearchRequest(csrfToken.value, kw);
        assert counted == old(net.sent) + [Get(Pagination.CountUrl(kw))];
        assert net.sent == counted + PostRequests(net.world, post, pagesCount);
        SearchLogAfterCount(old(net.sent), net.world, csrfToken.value, kw);
      }
    }

    /** sendSearchRequest: one POST; a transport error ends the search;
        otherwise the response is handled and its records are stored. */
    method SendSearchRequest(postData: seq<(string, string)>, headers: seq<string>, net: Network, storage: FileStorage) returns (outcome: Outcome)
      requires storage.Valid()
      modifies net, storage
      ensures net.sent == old(net.sent) + PostRequests(net.world, PostForm(SEARCH_URL, postData, headers), pagesCount)
      ensures outcome == PostOutcome(net.world, PostForm(SEARCH_URL, postData, headers), pagesCount)
      ensures storage.Valid()
      ensures storage.files == if outcome.Finished? then AfterSaves(storage.config, old(storage.files), outcome.records, SHORT_CLASS_NAME, map["suffix" := keyword]) else old(storage.files)
    {
      var post := PostForm(SEARCH_URL, postData, headers);
      var response := net.Send(post);
      if response.TransportError? {
        return RequestError;
      }
      ghost var posted := net.sent;
      var data, crashed := HandleResponse(response.text, response.status, net);
      assert net.sent == old(net.sent) + PostRequests(net.world, post, pagesCount) by {
        PostLogAfterPost(old(net.sent), net.world, post, pagesCount, response.status, response.text);
      }
      if crashed {
        return Fatal;
      }
      StoreResults(data, storage);
      return Finished(Views(data));
    }

    /** handleResponse: on 302 with a location line, every page of the
        redirect in turn; on 200, the result table of the response itself;
        otherwise nothing. crashed reports a fatal error while reading. */
    method HandleResponse(response: string, httpCode: int, net: Network) returns (data: seq<Trademark>, crashed: bool)
      modifies net
      ensures net.sent == old(net.sent) + HandleRequests(net.world, ResponseBranch(httpCode, response), pagesCount)
      ensures crashed <==> HandleResult(net.world, ResponseBranch(httpCode, response), pagesCount).None?
      ensures !crashed ==> Views(data) == HandleResult(net.world, ResponseBranch(httpCode, response), pagesCount).value
    {
      data := [];
      crashed := false;
      if httpCode == HTTP_STATUS_FOUND {
        var matches := Location(response);
        if matches.Some? {
          var redirectUrl := Trim(matches.value);
          data, crashed := FetchPages(redirectUrl, net);
        }
      } else if httpCode == HTTP_STATUS_OK {
        data, crashed := ExtractDataFromHtml(response, net.world.resultsTable);
      }
    }

    /** The page loop of handleResponse: pages 0 .. pagesCount-1, each
        fetched and read in turn, the records concatenated in page order. */
    method FetchPages(redirectUrl: string, net: Network) returns (data: seq<Trademark>, crashed: bool)
      modifies net
      ensures net.sent == old(net.sent) + Fetched(net.world, redirectUrl, pagesCount)
      ensures crashed <==> PagesFields(net.world, redirectUrl, pagesCount).None?
      ensures !crashed ==> Views(data) == PagesFields(net.world, redirectUrl, pagesCount).value
    {
      data := [];
      crashed := false;
      if pagesCount > 0 {
        data, crashed := FetchPageRange(redirectUrl, pagesCount, net);
      }
    }

    /** storeResults: each record saved in turn under the class's short name,
        with the keyword as suffix. */
    method StoreResults(data: seq<Trademark>, storage: FileStorage)
      requires storage.Valid()
      requires AllHaveIds(Views(data))
      modifies storage
      ensures storage.Valid()
      ensures storage.files == AfterSaves(storage.config, old(storage.files), Views(data), SHORT_CLASS_NAME, map["suffix" := keyword])
    {
      var i := 0;
      while i < |data|
        invariant 0 <= i <= |data|
        invariant storage.Valid()
        invariant AfterSaves(storage.config, storage.files, Views(data)[i..], SHORT_CLASS_NAME, map["suffix" := keyword])
          == AfterSaves(storage.config, old(storage.files), Views(data), SHORT_CLASS_NAME, map["suffix" := keyword])
      {
        var item := data[i];
        var params := map["suffix" := keyword];
        assert Views(data)[i..][1..] == Views(data)[i + 1..];
        ViewsAt(data, i);
        var saved := storage.Save(item, item.GetShortClassName(), params);
        i := i + 1;
      }
    }
  }

  /** The loop `for ($i = 0; $i < n; $i++)` over the pages; a fatal page
      ends it. */
  method FetchPageRange(redirectUrl: string, n: nat, net: Network) returns (data: seq<Trademark>, crashed: bool)
    modifies net
    ensures net.sent == old(net.sent) + Fetched(net.world, redirectUrl, n)
    ensures crashed <==> PagesFields(net.world, redirectUrl, n).None?
    ensures !crashed ==> Views(data) == PagesFields(net.world, redirectUrl, n).value
  {
    data := [];
    crashed := false;
    var i := 0;
    while i < n
      invariant i <= n
      invariant PagesFields(net.world, redirectUrl, i) == Some(Views(data))
      invariant net.sent == old(net.sent) + Fetched(net.world, redirectUrl, i)
    {
      data, crashed := FetchPage(redirectUrl, i, net, data, old(net.sent));
      if crashed {
        FetchedAfterFatal(net.world, redirectUrl, i + 1, n);
        return [], true;
      }
      i := i + 1;
    }
  }

  /** One turn of the page loop: the page at index i is requested and read,
      and its records extend those of the pages before it. */
  method FetchPage(redirectUrl: string, i: nat, net: Network, data: seq<Trademark>, ghost sent: seq<Request>)
    returns (more: seq<Trademark>, crashed: bool)
    requires PagesFields(net.world, redirectUrl, i) == Some(Views(data))
    requires net.sent == sent + Fetched(net.world, redirectUrl, i)
    modifies net
    ensures net.sent == sent + Fetched(net.world, redirectUrl, i + 1)
    ensures crashed <==> PagesFields(net.world, redirectUrl, i + 1).None?
    ensures !crashed ==> PagesFields(net.world, redirectUrl, i + 1) == Some(Views(more))
  {
    ghost var done := Views(data);
    var url := GenerateUrl(redirectUrl, i);
    var page;
    page, crashed := Parse(url, net);
    ghost var urls := PageUrls(redirectUrl, i);
    assert PageUrls(redirectUrl, i + 1) == urls + [url];
    GatherStep(PageReader(net.world), urls, url);
    assert PageReader(net.world)(url) == PageFields(net.world, url);
    assert (sent + Fetched(net.world, redirectUrl, i)) + [GetFollowing(url)] == sent + (Fetched(net.world, redirectUrl, i) + [GetFollowing(url)]);
    more := [];
    if !crashed {
      assert Views(data) == done;
      ViewsConcat(data, page);
      more := data + page;
    }
  }

  /** The first k page URLs are the URLs of the first k pages. */
  lemma PageUrlsPrefix(redirectUrl: string, k: nat, n: nat)
    requires k <= n
    ensures |PageUrls(redirectUrl, n)| == n
    ensures PageUrls(redirectUrl, n)[..k] == PageUrls(redirectUrl, k)
  {
    PageUrlsElements(redirectUrl, n);
    PageUrlsElements(redirectUrl, k);
  }

  /** Once the first k pages hold a fatal one, the whole result is fatal, and
      no page after them is requested. */
  lemma FetchedAfterFatal(world: World, redirectUrl: string, k: nat, n: nat)
    requires k <= n && PagesFields(world, redirectUrl, k).None?
    ensures PagesFields(world, redirectUrl, n).None?
    ensures Fetched(world, redirectUrl, n) == Fetched(world, redirectUrl, k)
  {
    PageUrlsPrefix(redirectUrl, k, n);
    GatherAfterFatal(PageReader(world), PageUrls(redirectUrl, n), k);
  }
}
