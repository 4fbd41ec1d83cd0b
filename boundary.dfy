/** Everything the scraper talks to but does not contain: the cURL transport,
    libxml's HTML parser with the XPath queries run on it, and json_encode /
    json_decode. Each is a function value of a World, so the model is
    deterministic once the World is fixed; the Network object records, in
    order, every request the core issues. */
module Boundary {
  import opened Text

  /** What one cURL call yields: a transport error (curl_errno is set) or the
      HTTP status code together with the text curl_exec returned. */
  datatype Response = TransportError | Reply(status: int, text: string)

  /** The requests the core issues, by the cURL options they are made with. */
  datatype Request =
    | HeadersOnly(url: string)     // CURLOPT_HEADER and CURLOPT_NOBODY: the text is the header block
    | Get(url: string)             // a plain GET: the text is the body
    | GetFollowing(url: string)    // CURLOPT_FOLLOWLOCATION: the text is the final body
    | PostForm(url: string, fields: seq<(string, string)>, headers: seq<string>)  // CURLOPT_HEADER: header block and body

  /** One td element of a result row: its text content, the src attribute of
      its first img (None when it has no img; "" when that img has no src) and
      the href attribute of its first a (likewise). */
  datatype Cell = Cell(text: string, img: Option<string>, href: Option<string>)

  /** The td cells of one tbody row, in document order. */
  type Row = seq<Cell>

  datatype World = World(
    answer: Request -> Response,
    // the tbody rows of the element with id "resultsTable" in a document, None when there is no such element
    resultsTable: string -> Option<seq<Row>>,
    // the integer-valued entries of json_decode($text, true) when it is an array, None otherwise
    jsonDecode: string -> Option<map<string, int>>,
    // json_encode of an associative array
    jsonEncode: seq<(string, string)> -> string)

  class Network {
    const world: World
    var sent: seq<Request>

    constructor (world: World)
      ensures this.world == world && sent == []
    {
      this.world := world;
      sent := [];
    }

    /** Issues one request and waits for its answer. */
    method Send(request: Request) returns (response: Response)
      modifies this
      ensures sent == old(sent) + [request]
      ensures response == world.answer(request)
    {
      sent := sent + [request];
      response := world.answer(request);
    }
  }
}
