# Trademark scraper model

This project models the core of a PHP command-line scraper for the Australian
trademark search site (search.ipaustralia.gov.au).

A search for a keyword runs in these steps:

1. Fetch a CSRF token from the `set-cookie: XSRF-TOKEN=…` header of the
   advanced-search page (`CSRFGetter`).
2. Ask the count endpoint how many trademarks match, and turn the count into
   a number of result pages of 100 items (`Paginator`).
3. Post the search form (`Scraper`).
4. If the site answers 302, follow the `location:` line to the paginated
   results and read every page (`Scraper`, `Parser`). If it answers 200, read
   the result table of the response itself.
5. Append each record found, as JSON, to a text file named after the class,
   the keyword and the record's id (`FileStorage`).

Each row of the result table becomes a `Trademark` record by binding an
associative array to its typed properties (`Trademark`).

The model is organised by module:

- `Text` (text.dfy): the PHP string built-ins the code relies on. These are
  trim and rtrim, explode with and without a limit, strtok, the
  `[^a-zA-Z0-9 ]` filter, `empty()` on strings, and decimal rendering. Each
  has lemmas that relate it to a partner: Join for Split, DecimalValue for
  NatToDecimal.
- `Boundary` (boundary.dfy): everything outside the core. A `World` value
  holds what the cURL transport answers to each request, the result-table
  rows libxml would find in a document, and json_decode and json_encode. A
  `Network` object records every request the core issues, in order.
- `Models` (trademark.dfy): the `Trademark` class with its seven properties.
  `initializeProperties` is a loop over `assignValueIfPropertyExists`.
  `toArray` follows `get_object_vars`, which omits uninitialised typed
  properties.
- `Storage` (file_storage.dfy): `FileStorage` over a map from path to
  content. It has the file-name rule and append-only saving, and a lemma
  that gives the content of every file after any sequence of saves.
- `Pagination` (paginator.dfy): the count request, its error fallbacks and
  the page-count formula.
- `Csrf` (csrf_getter.dfy): the header-line scan with its early return,
  specified by a "first line that yields a token" function.
- `Parsing` (parser.dfy): the row loop of `extractDataFromHtml`,
  `createTrademarkFromColumns` with its column shift, the class, status and
  details-URL cleaning, and `parse`.
- `Scraping` (scraper.dfy): `Scraper.search`, `sendSearchRequest`,
  `handleResponse` with its page loop, `storeResults`, the form fields, the
  headers and the page URLs. A function `SearchOutcome` gives the records a
  search saves and `SearchRequests` gives every request it issues, both as
  functions of the `World`.

A fatal PHP error ends the PHP process, so nothing after it happens. The
model represents one as a `crashed` flag, or `None`, that the callers
propagate, and the search then ends with outcome `Fatal` and nothing stored.
A method call on null is such an error: reading a row with fewer than four
cells, or one whose column 2 has no anchor (src/Services/Parser.php:68,100).

On a 200 answer to the search post the code calls `Parser::parseHtml`, which
the Parser does not define (src/Services/Scraper.php:118). The search the
model runs (`Scraper.Search`, `SearchOutcome`) follows the evidently intended
branch instead and reads the answer with `extractDataFromHtml`. The code as
written is kept beside it: `ResponseBranchAsWritten` takes the undefined call,
and `PostOutcomeAsWritten` proves that a 200 answer then ends the search as
`Fatal`, before storeResults runs, so no file changes (see Findings).

Some behaviour of the code is easy to misread. The model follows the code in
each case:

- **Order of cleaning.** The class and status columns are trimmed first and
  then filtered to `[a-zA-Z0-9 ]` (src/Services/Parser.php:88,125), so a
  space left next to a removed character survives.
- **Logo and details URL.** The parser passes them under the keys `url_logo`
  and `url_details_page` (src/Services/Parser.php:122,126). No property has
  those names, so `logoUrl` and `detailsPageUrl` stay unset and are absent
  from the JSON.
- **Other statuses.** A search post answered with a status other than 302
  or 200, or a 302 without a location line, gives an empty result:
  storeResults runs on no records (`Finished([])`).
- **Malformed rows.** A malformed row is a fatal error, not a skipped row.

## Model

| member | source | states |
|---|---|---|
| Text.FirstKept | src/Services/Parser.php:120 | the first index at or after i that trim keeps: everything before it is a trim character |
| Text.TrimRight | src/Services/CSRFGetter.php:83 | rtrim returns a prefix of its input; every dropped character is whitespace or NUL; the result does not end in one |
| Text.TrimEnds | src/Services/Parser.php:120-125 | trim returns a slice of its input with no trim character at either end, and leaves alone a text that has none there |
| Text.Trim | src/Services/Parser.php:120-125 | trim: rtrim of ltrim, with its properties stated by TrimEnds |
| Text.IsEmpty | src/Services/Parser.php:89 | PHP's empty() on a string, true for "" and "0"; the ensures of ClassOrAll, GetUrlDetailsPage and FailedFetchGivesNothing state its use (also at Parser.php:101) |
| Text.TrimPadded | src/Services/CSRFGetter.php:85-88 | trim drops padding made only of trim characters around a text with none at its ends, such as the " " after a colon and a line's closing "\r" |
| Text.KeepAlnumAndSpace | src/Services/Parser.php:88 | the `[^a-zA-Z0-9 ]` filter never lengthens its input |
| Text.KeepAlnumAndSpaceOnlyClass | src/Services/Parser.php:88 | only characters of `[a-zA-Z0-9 ]` survive the filter |
| Text.KeepAlnumAndSpaceOfClean | src/Services/Parser.php:88 | a text already inside the class passes through unchanged |
| Text.KeepAlnumAndSpaceCounts | src/Services/Parser.php:88 | every occurrence of an accepted character is kept, and every occurrence of any other character is removed (multiset counts) |
| Text.KeepAlnumAndSpaceConcat | src/Services/Parser.php:88 | the filter distributes over concatenation |
| Text.IndexOf | src/Services/Parser.php:101 | None exactly when the character is absent; otherwise its first position |
| Text.SplitOnce | src/Services/CSRFGetter.php:87-90 | explode with limit 2: the part before the first delimiter has none; the second part is missing exactly when there is no delimiter; the parts with the delimiter rebuild the input |
| Text.SplitOnceAt | src/Services/CSRFGetter.php:87-90 | a delimiter-free head followed by the delimiter splits back into that head and the exact rest |
| Text.Split | src/Services/CSRFGetter.php:83 | explode yields at least one piece, none of them holding the delimiter |
| Text.JoinSplit | src/Services/CSRFGetter.php:83 | joining the pieces of explode gives back the text |
| Text.SplitJoin | src/Services/CSRFGetter.php:83 | delimiter-free pieces are recovered exactly by explode from their join |
| Text.TakeUntil | src/Services/Parser.php:101 | `current(explode('?', s))`: the longest delimiter-free prefix, stopped by a delimiter when shorter than the input |
| Text.TakeUntilSplits | src/Services/Parser.php:101 | a text that holds the delimiter is that prefix, the delimiter and the rest |
| Text.TakeUntilBefore | src/Services/Parser.php:101 | a delimiter-free head followed by the delimiter is exactly what is kept |
| Text.StrTok | src/Services/CSRFGetter.php:92 | strtok is false exactly when the text is all delimiters; otherwise a non-empty, delimiter-free token (taken from the input: StrTokSkipsDelimiters) |
| Text.StrTokFirstToken | src/Services/CSRFGetter.php:92 | a non-empty, delimiter-free first token is what strtok returns, whatever follows its delimiter |
| Text.StrTokSkipsDelimiters | src/Services/CSRFGetter.php:92 | the token comes from the input: it is the text from the first non-delimiter up to the next delimiter, after only delimiters |
| Text.StrTokExample | src/Services/CSRFGetter.php:92 | strtok(";;abc;x", ";") skips the leading delimiters and gives "abc" |
| Text.DigitChar | src/Services/Scraper.php:219 | a decimal digit character whose code is d above '0' |
| Text.Tens | src/Services/Scraper.php:219 | the quotient of n by 10 (10q <= n < 10q + 10) |
| Text.NatToDecimal | src/Services/Scraper.php:219 | the rendering of an int in a string is non-empty, all digits, with no leading zero unless the number is 0 |
| Text.IntToDecimal | src/Services/Scraper.php:219 | the `{$pageNumber}` interpolation: a leading "-" for a negative number, then NatToDecimal, which DecimalRoundTrip reads back |
| Text.DecimalRoundTrip | src/Services/Scraper.php:219 | reading the decimal rendering back gives the number |
| Models.Assign | src/Models/Trademark.php:36-41 | a declared property takes the value; every other property keeps its value; an undeclared key changes nothing |
| Models.IsProperty | src/Models/Trademark.php:39 | property_exists: exactly the seven declared property names; Assign's ensures states its effect |
| Models.AssignAll | src/Models/Trademark.php:21-27 | initializeProperties as a function: Assign of each entry in turn, with its meaning stated by AssignAllProperty and AssignAllIgnoresUnknownKeys |
| Models.FieldsExtensionality | src/Models/Trademark.php:5-11 | two records that agree on the seven declared properties are equal |
| Models.AssignAllProperty | src/Models/Trademark.php:21-27 | after initializeProperties a declared property holds the value of the last entry naming it, or its old value when none does |
| Models.AssignAllIgnoresUnknownKeys | src/Models/Trademark.php:24-41 | entries whose keys name no property leave the object unchanged |
| Models.VarsOf | src/Models/Trademark.php:48-51 | every listed entry names one of the given properties and carries its current value |
| Models.ObjectVars | src/Models/Trademark.php:48-51 | toArray lists only declared properties, each with its current value |
| Models.VarsOfKeys | src/Models/Trademark.php:48-51 | toArray lists exactly the initialised properties, once each, in declaration order |
| Models.KeysConcat | src/Models/Trademark.php:48-51 | the keys of two runs of entries are the keys of each, in order |
| Models.Views | src/Services/Parser.php:54-70 | the property states of a sequence of Trademark objects, one per object |
| Models.ViewsAt | src/Services/Scraper.php:133 | position i of the views is object i's state |
| Models.ViewsConcat | src/Services/Scraper.php:114 | array_merge of record lists concatenates their states |
| Models.ViewsAppend | src/Services/Parser.php:70 | appending a record appends its state |
| Models.Trademark.constructor | src/Models/Trademark.php:5-11 | a new Trademark has no property initialised |
| Models.Trademark.AssignValueIfPropertyExists | src/Models/Trademark.php:36-41 | the new state is Assign of the old state, so only the named declared property changes |
| Models.Trademark.InitializeProperties | src/Models/Trademark.php:21-27 | the loop binds the entries in order (the new state is AssignAll of the old), and returns the object itself |
| Models.Trademark.ToArray | src/Models/Trademark.php:48-51 | get_object_vars of the object's state (ObjectVars), whose keys VarsOfKeys fixes |
| Models.Trademark.ToJson | src/Models/Trademark.php:58-61 | the encoder applied to ToArray |
| Models.Trademark.GetShortClassName | src/Models/Trademark.php:68-71 | always "Trademark" |
| Storage.FileNameInjective | src/Storage/FileStorage.php:63-70 | within one source name and one set of params, distinct ids never share a file |
| Storage.FileName | src/Storage/FileStorage.php:63-70 | the source name, "_" and the suffix when params holds one, "_" and the id, ".txt"; FileNameInjective is its property |
| Storage.TargetPath | src/Storage/FileStorage.php:41-45 | the directory path followed by the generated file name; the path AfterSaveContent and FileStorage.Save refer to |
| Storage.AfterSave | src/Storage/FileStorage.php:38-53 | the directory after one save: the record's JSON appended to its target, or nothing changed for a refused path |
| Storage.AfterSaves | src/Storage/FileStorage.php:38-53 | the directory after saving each record in turn, described by AfterSavesContent and AfterSavesKeepsFiles |
| Storage.Appended | src/Storage/FileStorage.php:78-81 | appending adds the path to the directory, extends that file's content by exactly the new text, and leaves every other file alone |
| Storage.AfterSavesContent | src/Storage/FileStorage.php:38-53 | after any sequence of saves, a writable file holds its old content followed by the JSON of exactly the records targeting it, in order; an unwritable file keeps its content |
| Storage.AfterSaveContent | src/Storage/FileStorage.php:38-53 | one save appends to its own target only, and only when that target is writable |
| Storage.AfterSavesKeepsFiles | src/Storage/FileStorage.php:78-81 | saving never deletes a file |
| Storage.FileStorage.constructor | src/Storage/FileStorage.php:24-27 | the directory is `<root>/filestorage/` and every existing file lies under it |
| Storage.FileStorage.Save | src/Storage/FileStorage.php:38-53 | the new directory is AfterSave of the old (suffix and id in the file name, content appended); the result is whether the target file exists afterwards; every file stays under the directory |
| Storage.FileStorage.GenerateFileName | src/Storage/FileStorage.php:63-70 | the source name, "_" and the id (Trademark declares `id`), then ".txt" |
| Storage.FileStorage.AppendToFile | src/Storage/FileStorage.php:78-81 | file_put_contents with FILE_APPEND: the file's content is extended, or nothing changes when the path cannot be written |
| Pagination.PagesFor | src/Services/Paginator.php:21 | the least page count that covers the items: (pages-1)*100 < items <= pages*100 |
| Pagination.PagesZeroIffNoItems | src/Services/Paginator.php:21 | for a non-negative count, no pages exactly when no items, and the covering bounds when there are items |
| Pagination.PagesForExamples | src/Services/Paginator.php:21 | 0, 1, 99, 100, 101 and 250 items give 0, 1, 1, 1, 2 and 3 pages |
| Pagination.FoundItemsCount | src/Services/Paginator.php:50-62 | 0 after a transport error, a status other than 200, or a body that is not a JSON object; otherwise `count`, or 0 when it is missing |
| Pagination.GetFoundItemsCount | src/Services/Paginator.php:50-62 | one GET to the count URL; the result is FoundItemsCount of its answer |
| Boundary.Network.Send | src/Services/Paginator.php:72-84 | one curl_exec: the request is appended to the log and the answer is the world's answer to it (also the transport of the token and search requests) |
| Pagination.CountUrl | src/Services/Paginator.php:53 | the count endpoint's URL with the word appended as it is; the request GetFoundItemsCount sends |
| Pagination.Paginator.constructor | src/Services/Paginator.php:18-22 | one count request; itemsCount is the count found and pagesCount is PagesFor of it |
| Pagination.Paginator.GetItemsCount | src/Services/Paginator.php:29-32 | the items count fixed by the constructor |
| Pagination.Paginator.GetPagesCount | src/Services/Paginator.php:39-42 | the page count fixed by the constructor, which is PagesFor of the items count |
| Csrf.KeyAndValue | src/Services/CSRFGetter.php:85-88 | the key (trimmed text before the first colon) holds no colon |
| Csrf.HeaderLines | src/Services/CSRFGetter.php:83 | explode("\n", rtrim(headers)) |
| Csrf.LineToken | src/Services/CSRFGetter.php:85-93 | what one header line yields, characterised by LineTokenMatches and CookieLineToken |
| Csrf.FirstToken | src/Services/CSRFGetter.php:84-97 | the token of the first header line that yields one, equal to FirstSome of LineTokens |
| Csrf.LineTokenMatches | src/Services/CSRFGetter.php:89-92 | a line yields a token exactly when its key is `set-cookie` (case-sensitive) and its cookie name is exactly `XSRF-TOKEN`; the token holds no ';' |
| Csrf.LineTokens | src/Services/CSRFGetter.php:84-94 | one entry per header line: what that line yields |
| Csrf.FirstSomeIsFirst | src/Services/CSRFGetter.php:84-97 | the first present value wins, and the result is absent exactly when no value is present |
| Csrf.FirstTokenIsFirstSome | src/Services/CSRFGetter.php:84-97 | the scan's result is the first token among the lines' tokens |
| Csrf.FirstTokenStep | src/Services/CSRFGetter.php:84-94 | from line i on, the result is line i's token if it has one, otherwise the result from line i+1 on |
| Csrf.ExtractCsrfTokenFromHeaders | src/Services/CSRFGetter.php:81-98 | the foreach scan with early return gives the token of the first matching line of the rtrimmed, newline-split headers, or None |
| Csrf.TokenOf | src/Services/CSRFGetter.php:26-45 | a token only comes from a 200 reply |
| Csrf.Request | src/Services/CSRFGetter.php:26-45 | one header-only request; None after a transport error or a status other than 200, otherwise the scan of its header block |
| Csrf.GetCSRFToken | src/Services/CSRFGetter.php:15-18 | the request goes to the advanced-search URL |
| Csrf.KeyAndValueOf | src/Services/CSRFGetter.php:85-88 | a line `key: value` splits back into its key and value |
| Csrf.KeyAndValueOfCrLf | src/Services/CSRFGetter.php:83-88 | a `key: value` line still ending in "\r", as curl's header block has them, splits into the same key and value |
| Csrf.CookieValueToken | src/Services/CSRFGetter.php:90-92 | `XSRF-TOKEN=token;attributes` splits at '=' into the cookie name and value, and strtok gives token |
| Csrf.CookieLineToken | src/Services/CSRFGetter.php:85-92 | a `set-cookie` line for XSRF-TOKEN yields its value up to the first ';' |
| Csrf.CookieLineTokenCrLf | src/Services/CSRFGetter.php:83-92 | the XSRF-TOKEN set-cookie line ending in "\r" yields the same token |
| Csrf.SetCookieExample | src/Services/CSRFGetter.php:85-92 | `set-cookie: XSRF-TOKEN=abc123; Path=/` gives "abc123" |
| Parsing.Cleaned | src/Services/Parser.php:88 | trim then filter: only `[a-zA-Z0-9 ]` remains |
| Parsing.ClassOrAll | src/Services/Parser.php:89 | never PHP-empty; "All" exactly when the cleaned text is empty, "0" or "All"; otherwise the cleaned text |
| Parsing.GetClassFromColumn | src/Services/Parser.php:86-90 | the class is never "" or "0", and holds only `[a-zA-Z0-9 ]` |
| Parsing.ClassOfCleanText | src/Services/Parser.php:88-89 | a label already inside `[a-zA-Z0-9 ]`, not PHP-empty and without surrounding spaces, comes out unchanged |
| Parsing.ClassOfEmptyColumn | src/Services/Parser.php:88-89 | a missing column, "" or "0" gives "All" |
| Parsing.TextAt | src/Services/Parser.php:120-125 | the nodeValue of column k, "" for a column the row lacks (null, which trim makes ""); ClassOfEmptyColumn states the missing-column case |
| Parsing.GetUrlDetailsPage | src/Services/Parser.php:98-102 | "" exactly for a PHP-empty href; otherwise the base origin followed by the whole href up to its first '?' (all of it when it has none) |
| Parsing.DetailsUrlDropsQuery | src/Services/Parser.php:101 | `path?query` gives the base origin followed by path |
| Parsing.RowData | src/Services/Parser.php:119-127 | the array handed to initializeProperties has seven entries |
| Parsing.BindParserKeys | src/Services/Parser.php:119-127 | binding the parser's seven keys sets id, number, name, class and status; url_logo and url_details_page set nothing |
| Parsing.RowDataBindsRowFields | src/Services/Parser.php:112-130 | binding the row's array to a new Trademark yields the row's record |
| Parsing.RowFields | src/Services/Parser.php:112-130 | the record a row becomes; RowDataBindsRowFields proves it is what binding the parser's array gives |
| Parsing.ColumnShift | src/Services/Parser.php:114-125 | a truthy image URL moves name, class and status one column right; id and number come from columns 0 and 2 |
| Parsing.LayoutFor | src/Services/Parser.php:114-116 | the three index ternaries on the image URL's truthiness, stated by ColumnShift and LogoAndLayoutDiffer |
| Parsing.Truthy | src/Services/Parser.php:114-116 | PHP truthiness of the image URL: null, "" and "0" are false; LogoAndLayoutDiffer states where it parts from `??` |
| Parsing.LogoOf | src/Services/Parser.php:122 | the img's src whenever there is an img, "No image found" only when there is none |
| Parsing.LogoAndLayoutDiffer | src/Services/Parser.php:114-122 | an img with src "" or "0" gives that src as logo, yet the row is read with the no-image layout |
| Parsing.RowRecord | src/Services/Parser.php:66-70 | a non-empty row is fatal exactly when it has fewer than four cells or no anchor in column 2 (the id's int coercion aside, see Left out); otherwise its record has an id and leaves the logo and details URL unset |
| Parsing.RowCrashes | src/Services/Parser.php:66-70 | the fatal method calls on null while reading a non-empty row: fewer than four cells (the img lookup in column 3) or no anchor in column 2; RowRecord is None exactly then |
| Parsing.NonEmptyRows | src/Services/Parser.php:65-67 | only rows holding a td, each taken from the rows |
| Parsing.NonEmptyRowsPrefix | src/Services/Parser.php:65-67 | the non-empty rows of a prefix of the table come first among those of the whole |
| Parsing.NonEmptyRowsComplete | src/Services/Parser.php:65-67 | no non-empty row is dropped and order is kept: each stands right after the non-empty rows before it |
| Parsing.CollectShape | src/Services/Parser.php:63-76 | collecting fails exactly when some non-empty row is fatal; otherwise one record per non-empty row, in row order |
| Parsing.Collect | src/Services/Parser.php:65-72 | the row foreach as a function over a row reader, stated by CollectShape and its step lemmas |
| Parsing.CollectFatalPrefix | src/Services/Parser.php:65-72 | a fatal row among the first rows makes the whole table fatal |
| Parsing.CollectSkip | src/Services/Parser.php:67 | a row without td adds nothing |
| Parsing.CollectAppend | src/Services/Parser.php:70 | a readable row appends its record |
| Parsing.CollectFatal | src/Services/Parser.php:68 | a fatal row makes the rows read so far fatal |
| Parsing.RowsFieldsShape | src/Services/Parser.php:63-76 | fatal exactly when some non-empty row is; otherwise one record per non-empty row in order, each the row's fields with the layout its img picks, each with an id |
| Parsing.RowsFields | src/Services/Parser.php:63-76 | the rows of the table read with RowRecord, stated by RowsFieldsShape |
| Parsing.TableFieldsHaveIds | src/Services/Parser.php:52-77 | every record read from a table carries an id |
| Parsing.TableFields | src/Services/Parser.php:52-77 | extractDataFromHtml as a function: no results table gives no records, otherwise RowsFields of its rows; TableFieldsHaveIds states its property |
| Parsing.PageFieldsHaveIds | src/Services/Parser.php:19-28 | every record read from a page carries an id |
| Parsing.PageFields | src/Services/Parser.php:19-28 | Parser::parse as a function: a failed or falsy fetch gives no records, otherwise TableFields of the body; stated by PageFieldsHaveIds and FailedFetchGivesNothing |
| Parsing.FailedFetchGivesNothing | src/Services/Parser.php:21-27 | a transport error or a falsy page text gives no records |
| Parsing.CreateTrademarkFromColumns | src/Services/Parser.php:112-130 | a freshly allocated Trademark holding the row's record; None exactly when reading the anchor of column 2 is fatal |
| Parsing.AnchorMissing | src/Services/Parser.php:100 | the getAttribute call on null: fewer than three cells or no anchor in column 2; CreateTrademarkFromColumns is None exactly then |
| Parsing.ReadRow | src/Services/Parser.php:66-70 | the loop body for a non-empty row: the row's record, or fatal exactly when the row is |
| Parsing.ReadInto | src/Services/Parser.php:65-71 | one turn of the row loop on a row holding a td: fatal exactly when the rows so far become fatal, otherwise the objects' states are the rows' records so far |
| Parsing.ExtractDataFromHtml | src/Services/Parser.php:52-77 | crashed exactly when the table's rows are fatal; otherwise the Trademarks' states are the table's records in row order, and no table gives none |
| Parsing.Parse | src/Services/Parser.php:19-44 | one redirect-following GET; crashed exactly when the page is fatal; otherwise the page's records, none for a failed fetch |
| Scraping.GenerateUrl | src/Services/Scraper.php:217-220 | the URL starts with the redirect URL, and equals it exactly for page 0 |
| Scraping.GeneratedPageReadsBack | src/Services/Scraper.php:217-220 | for page p > 0 the URL is the redirect URL, "&p=" and digits that read back as p |
| Scraping.GenerateUrlInjective | src/Services/Scraper.php:217-220 | distinct page numbers give distinct URLs |
| Scraping.PageUrlsElements | src/Services/Scraper.php:113-114 | the loop requests pagesCount URLs, the one at position i being page i's |
| Scraping.PageUrls | src/Services/Scraper.php:113-114 | the URLs of pages 0 to pagesCount-1 in loop order, stated by PageUrlsElements and PageUrlsDistinct |
| Scraping.PageUrlsDistinct | src/Services/Scraper.php:113-114 | no page URL is requested twice |
| Scraping.PageUrlsExample | src/Services/Scraper.php:113-114 | three pages of `/results?id=abc` are that URL, then `&p=1` and `&p=2` |
| Scraping.PageUrlsPrefix | src/Services/Scraper.php:113 | the first k of n page URLs are those of the first k pages |
| Scraping.MatchLineShape | src/Services/Scraper.php:111 | a match is a whole `location: <capture>\r\n` line, and the capture holds no newline |
| Scraping.MatchLineOf | src/Services/Scraper.php:111 | every `location: <url>\r\n` line whose url holds no newline matches, capturing url |
| Scraping.MatchLine | src/Services/Scraper.php:111 | the pattern anchored at the start of a text, stated by MatchLineShape and MatchLineOf |
| Scraping.MatchAt | src/Services/Scraper.php:111 | the pattern tried at one position of the response, stated by NoMatchAt and the LocationFrom lemmas |
| Scraping.NoMatchAt | src/Services/Scraper.php:111 | no line matches at a position that does not start with 'l' |
| Scraping.LocationFrom | src/Services/Scraper.php:111 | preg_match's leftmost search from a position, stated by LocationFromSound and LocationFromAfter |
| Scraping.Location | src/Services/Scraper.php:111 | the capture of the first location line of a response |
| Scraping.LocationBehindHead | src/Services/Scraper.php:111 | a location line behind a head holding no 'l' (such as the status line) is the one found, capturing its url |
| Scraping.RedirectExample | src/Services/Scraper.php:110-114 | a 302 carrying `location: /results?id=abc` behind its status line redirects to `/results?id=abc`, and three pages fetch that URL, then `&p=1` and `&p=2` |
| Scraping.LocationFromSound | src/Services/Scraper.php:111 | the leftmost search returns a match found at some position, and finds nothing only when no position matches |
| Scraping.LocationAfter | src/Services/Scraper.php:111-112 | a location line after text that holds no match is the one found |
| Scraping.LocationFromAfter | src/Services/Scraper.php:111 | the search from j reaches the first matching position at or after j |
| Scraping.LocationFromSkip | src/Services/Scraper.php:111 | the search moves past a position where no line matches |
| Scraping.ResponseBranch | src/Services/Scraper.php:110-119 | corrected branch: follow the redirect exactly on 302 with a location line, to the trimmed capture of the first such line; read the response exactly on 200; never the undefined method |
| Scraping.ParseHtmlIsUndefined | src/Services/Scraper.php:117-119 | on 200 the code as written calls the undefined parseHtml while the corrected branch reads the body; on every other status the two agree |
| Scraping.ResponseBranchAsWritten | src/Services/Scraper.php:110-119 | the branch as the code stands: on 200 the undefined parseHtml |
| Scraping.GatherStep | src/Services/Scraper.php:113-115 | one more page: a fatal result stays fatal and requests nothing more; otherwise the page is requested and its records are appended |
| Scraping.Gather | src/Services/Scraper.php:113-115 | the records of the pages read in order and concatenated with array_merge; None at the first fatal page |
| Scraping.PagesFields | src/Services/Scraper.php:113-115 | the records the page loop gathers over the n page URLs, stated by RequestedAll, GatherHasIds and FetchPageRange |
| Scraping.Requested | src/Services/Scraper.php:113-115 | the page requests, in order, up to and including the first fatal page |
| Scraping.Fetched | src/Services/Scraper.php:113-115 | the requests the page loop issues over the n page URLs, stated by FetchedAllPages and FetchedAfterFatal |
| Scraping.GatherPrefix | src/Services/Scraper.php:113-115 | the records of the first pages are a prefix of all the records |
| Scraping.GatherAfterFatal | src/Services/Scraper.php:113-115 | after a fatal page the whole result is fatal and no later page is requested |
| Scraping.RequestedAll | src/Services/Scraper.php:113-115 | without a fatal page every page is requested, in order |
| Scraping.GatherHasIds | src/Services/Scraper.php:113-115 | every record gathered from the pages carries an id |
| Scraping.Fetches | src/Services/Scraper.php:114 | one redirect-following GET per URL, in order |
| Scraping.FetchesAppend | src/Services/Scraper.php:114 | one more URL adds its request at the end |
| Scraping.FetchedAllPages | src/Services/Scraper.php:113-115 | without a fatal page, exactly the pagesCount page URLs are fetched, in page order |
| Scraping.FetchedAfterFatal | src/Services/Scraper.php:113-115 | once one of the first k pages is fatal, all n pages are fatal and no page after the first k is requested |
| Scraping.HandleResult | src/Services/Scraper.php:106-122 | every record handleResponse returns carries an id |
| Scraping.HandleRequests | src/Services/Scraper.php:106-122 | the requests handleResponse sends: the page fetches on a redirect, none otherwise (InlineResultIgnoresPageCount, NoDataWithoutRedirectOrPage) |
| Scraping.InlineResultIgnoresPageCount | src/Services/Scraper.php:117-119 | a 200 response is read once, without any page request, whatever pagesCount is |
| Scraping.NoDataWithoutRedirectOrPage | src/Services/Scraper.php:108-121 | a 302 without a location line, or any status other than 302 and 200, gives no records and no request |
| Scraping.BuildPostData | src/Services/Scraper.php:148-181 | the form has 29 fields |
| Scraping.PostDataVariesOnlyInTokenAndKeyword | src/Services/Scraper.php:150-179 | `_csrf` is the token and `wv[0]` the keyword; every other field is the same for every search; two forms are equal exactly when their tokens and keywords are |
| Scraping.BuildHeaders | src/Services/Scraper.php:188-208 | sixteen headers; the fifth is the cookie line, the others are the fixed browser headers in order |
| Scraping.CookieHeaderCarriesToken | src/Services/Scraper.php:195 | the cookie line, read the way the token scan reads a header, is `cookie` with cookie XSRF-TOKEN set to the very token |
| Scraping.CookieHeader | src/Services/Scraper.php:195 | the cookie header line for the token, stated by CookieHeaderCarriesToken and CookieHeaderSplits |
| Scraping.CookieValueSplits | src/Services/Scraper.php:195 | `XSRF-TOKEN=token` splits at its first '=' into the cookie name and the token |
| Scraping.CookieHeaderSplits | src/Services/Scraper.php:195 | the cookie line splits into key `cookie` and value `XSRF-TOKEN=token` |
| Scraping.PostOutcome | src/Services/Scraper.php:58-70 | a finished search post yields only records with ids |
| Scraping.PostRequests | src/Services/Scraper.php:58-70 | the search post, then the requests of the branch its answer takes; RedirectFetchesEveryPage states the redirect case |
| Scraping.PostLogAfterPost | src/Services/Scraper.php:58-66 | once the post is answered, the log goes on with the requests handleResponse issues |
| Scraping.PostOutcomeAsWritten | src/Services/Scraper.php:58-70 | as the code stands, a 200 answer to the post ends the search as Fatal; every other answer gives the corrected outcome |
| Scraping.SearchOutcome | src/Services/Scraper.php:29-50 | a finished search yields only records with ids |
| Scraping.PagesCountFor | src/Services/Scraper.php:37-38 | the Paginator's pages count for the keyword: PagesFor of the found-items count, which PagesZeroIffNoItems characterises |
| Scraping.SearchRequest | src/Services/Scraper.php:47-49 | the search POST: the form and headers built from the token and the keyword |
| Scraping.SearchRequests | src/Services/Scraper.php:29-50 | every request a search issues, in order: none without a token, the count request, then the post and the branch's requests |
| Scraping.SearchLogAfterCount | src/Services/Scraper.php:36-49 | past both guards, the log of a search is the count request, then the post and the requests its answer leads to |
| Scraping.GuardsStopEarly | src/Services/Scraper.php:31-43 | without a token nothing is requested; with no page only the count is requested and nothing is posted |
| Scraping.RedirectFetchesEveryPage | src/Services/Scraper.php:110-116 | a post answered by a redirect, with no fatal page, is followed by exactly the pagesCount page requests, in page order |
| Scraping.Scraper.constructor | src/Services/Scraper.php:19-22 | one header-only request to the advanced-search page; the token is what it yields |
| Scraping.Scraper.Search | src/Services/Scraper.php:29-50 | the outcome is SearchOutcome, the requests are SearchRequests, and the files are those after saving the outcome's records with suffix keyword (unchanged unless it finished); keyword and pagesCount are set when there is a token and unchanged when there is none |
| Scraping.Scraper.SendSearchRequest | src/Services/Scraper.php:58-97 | one POST then the branch's requests; RequestError after a transport error, Fatal after a fatal read, otherwise the records, which are all saved |
| Scraping.Scraper.HandleResponse | src/Services/Scraper.php:106-122 | the requests and the records (or fatal) of the corrected branch for the status and response text |
| Scraping.Scraper.FetchPages | src/Services/Scraper.php:113-115 | pages 0 .. pagesCount-1 are requested in order and their records concatenated; crashed exactly when a page is fatal |
| Scraping.FetchPageRange | src/Services/Scraper.php:113-115 | the page loop over n pages: the requests up to the first fatal page, and the concatenated records or crashed |
| Scraping.FetchPage | src/Services/Scraper.php:114 | one turn of the loop: page i is requested and its records extend the earlier pages' records, or the result becomes fatal |
| Scraping.Scraper.StoreResults | src/Services/Scraper.php:129-141 | save is called once per record, in order, under "Trademark" with suffix keyword: the files are AfterSaves of the records |

## Left out

- cURL, libxml's HTML parser with its XPath queries, json_encode and json_decode stay outside the model. Each is a function field of `Boundary.World`: an answer per request, the tbody rows of `#resultsTable` per document, a decoded count map, and an encoder.
- `echo` diagnostics, including the "Results:" line and the JSON printed by storeResults, are not modelled.
- The real filesystem is a map from path to content. `file_exists` is membership. A write the filesystem refuses is represented by a set of unwritable paths.
- Scraping.Scraper.Search: the storage is passed in. The source creates a `FileStorage` inside storeResults; the project root is the constructor's parameter instead of `dirname(__DIR__, 2)`.
- Models.Trademark.AssignValueIfPropertyExists: `id` is kept as the trimmed text. PHP's coercion of that text into the `int` property is not modelled: leading zeros dropped, a fatal TypeError for a non-numeric id, and a JSON number.
- Scraping.BuildHeaders: the fifteen browser headers other than the cookie line are represented by their names. Their literal values are constants that play no part in the behaviour.
- Scraping.SearchRequest: `http_build_query` encoding of the form is not modelled. The request carries the field pairs.
- Pagination.PagesFor: `ceil` works on a float in PHP. The model uses exact integer division, so precision loss for counts beyond 2^53 is not captured. The `count` value is taken to be an integer: json_decode yielding another JSON type for it is outside the model.
- Scraping.Scraper.HandleResponse: models the corrected 200 branch (reading the response with extractDataFromHtml). The code as written is `Scraping.ResponseBranchAsWritten` (see Findings).
- Scraping.LocationFrom: `preg_match` is modelled as a leftmost search, per position, for `location: ` followed by the rest of its line ending in "\r". This is the match `(.*)\r\n` gives, since `.` does not cross "\n" and backtracks to the last "\r" before it. Other regex features are not involved.
- The exceptions thrown and caught inside Paginator and CSRFGetter are modelled by their effect: 0 and None.
- src/Application.php, config/config.php and the interfaces src/Storage/Storage.php and src/Models/Model.php are not part of this model. The first two are wiring and environment loading; the interfaces hold no logic.
- A fatal error (a method call on null) ends the process in PHP. Here the search ends with outcome `Fatal` and the files unchanged, which is what the process leaves behind.

## Findings

| source | as written | input that shows it | evidently intended | confidence | as-written member | corrected member |
|---|---|---|---|---|---|---|
| src/Services/Scraper.php:118 | on a 200 answer to the search post, handleResponse calls `Parser::parseHtml`, which the Parser class does not define, so the search ends in a fatal "undefined method" error | any search whose post is answered with status 200 | read the response with `Parser::extractDataFromHtml`, the method that turns a result page into records | high, not executed | Scraping.PostOutcomeAsWritten | Scraping.ResponseBranch |
