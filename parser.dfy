/** Parser: turns the rows of the result table of one search-results page into
    Trademark records. The HTML document itself stays outside the model: a
    World maps a page's text to the tbody rows of its results table, each row
    a sequence of abstract td cells. */
module Parsing {
  import opened Text
  import opened Boundary
  import opened Models

  const BASE_URL := "https://search.ipaustralia.gov.au"
  const NO_IMAGE_FOUND := "No image found"

  /** The column indices of name, class and status in one row. */
  datatype Layout = Layout(nameIndex: nat, classIndex: nat, statusIndex: nat)

  /** A row whose fourth column shows a logo: everything after it moves right by one. */
  const WITH_IMAGE := Layout(4, 5, 6)
  const WITHOUT_IMAGE := Layout(3, 4, 5)

  /** PHP truthiness of a ?string: null, "" and "0" are false. */
  predicate Truthy(s: Option<string>) {
    s.Some? && !IsEmpty(s.value)
  }

  /** The layout createTrademarkFromColumns picks from the image URL. */
  function LayoutFor(imageUrl: Option<string>): Layout {
    if Truthy(imageUrl) then WITH_IMAGE else WITHOUT_IMAGE
  }

  /** The text content of column k; reading the nodeValue of a column the row
      does not have yields null, which trim turns into "". */
  function TextAt(row: Row, k: nat): string {
    if k < |row| then row[k].text else ""
  }

  /** The text reduced to [a-zA-Z0-9 ] after trimming. */
  function Cleaned(text: string): (r: string)
    ensures forall i :: 0 <= i < |r| ==> IsAlnumOrSpace(r[i])
  {
    KeepAlnumAndSpaceOnlyClass(Trim(text));
    KeepAlnumAndSpace(Trim(text))
  }

  /** The "All" default of getClassFromColumn for a PHP-empty label. */
  function ClassOrAll(cleaned: string): (r: string)
    ensures !IsEmpty(r)
    ensures r == "All" <==> IsEmpty(cleaned) || cleaned == "All"
    ensures r != "All" ==> r == cleaned
  {
    if IsEmpty(cleaned) then "All" else cleaned
  }

  /** getClassFromColumn: the cleaned text of the column, "All" when that is
      PHP-empty. Never empty, never "0", only [a-zA-Z0-9 ]. */
  function GetClassFromColumn(row: Row, index: nat): (r: string)
    ensures !IsEmpty(r)
    ensures forall i :: 0 <= i < |r| ==> IsAlnumOrSpace(r[i])
  {
    var cleaned := Cleaned(TextAt(row, index));
    var r := ClassOrAll(cleaned);
    assert r == "All" ==> r[0] == 'A' && r[1] == 'l' && r[2] == 'l';
    r
  }

  /** A class label that is already clean comes out unchanged; "", "0" and
      text with nothing in [a-zA-Z0-9] but spaces all become "All". */
  lemma ClassOfCleanText(row: Row, index: nat)
    requires index < |row| && row[index].text != [] && row[index].text != "0"
    requires forall i :: 0 <= i < |row[index].text| ==> IsAlnumOrSpace(row[index].text[i])
    requires row[index].text[0] != ' ' && row[index].text[|row[index].text| - 1] != ' '
    ensures GetClassFromColumn(row, index) == row[index].text
  {
    var t := row[index].text;
    assert Trim(t) == t;
    KeepAlnumAndSpaceOfClean(t);
  }

  lemma ClassOfEmptyColumn(row: Row, index: nat)
    requires index >= |row| || IsEmpty(row[index].text)
    ensures GetClassFromColumn(row, index) == "All"
  {
    if index < |row| && row[index].text == "0" {
      assert Trim("0") == "0";
      assert KeepAlnumAndSpace("0") == "0";
    }
  }

  /** getUrlDetailsPage once the anchor is found: "" for a PHP-empty href,
      otherwise the site origin followed by the href up to its first '?'. */
  function GetUrlDetailsPage(href: string): (r: string)
    ensures IsEmpty(href) <==> r == ""
    ensures r != "" ==> BASE_URL <= r && r[|BASE_URL|..] <= href && '?' !in r[|BASE_URL|..]
    ensures r != "" ==> r == BASE_URL + TakeUntil(href, '?')
  {
    if IsEmpty(href) then "" else BASE_URL + TakeUntil(href, '?')
  }

  /** A relative path with a query string leads to the path under the origin. */
  lemma DetailsUrlDropsQuery(path: string, query: string)
    requires '?' !in path
    ensures GetUrlDetailsPage(path + "?" + query) == BASE_URL + path
  {
    var href := path + "?" + query;
    assert href[|path|] == '?' && href[..|path|] == path;
    var r := TakeUntil(href, '?');
    assert |r| == |path|;
  }

  /** Reading the anchor of column 2 calls a method on null when the row has
      fewer than three columns or column 2 has no <a>: a fatal error. */
  predicate AnchorMissing(row: Row) {
    |row| < 3 || row[2].href.None?
  }

  /** The associative array createTrademarkFromColumns hands to
      initializeProperties, in its order. */
  function RowData(row: Row, imageUrl: Option<string>): (data: seq<(string, string)>)
    requires !AnchorMissing(row)
    ensures |data| == 7
  {
    var layout := LayoutFor(imageUrl);
    [("id", Trim(TextAt(row, 0))),
     ("number", Trim(TextAt(row, 2))),
     ("url_logo", LogoOf(imageUrl)),
     ("name", Trim(TextAt(row, layout.nameIndex))),
     ("class", GetClassFromColumn(row, layout.classIndex)),
     ("status", Cleaned(TextAt(row, layout.statusIndex))),
     ("url_details_page", GetUrlDetailsPage(row[2].href.value))]
  }

  /** The record a row becomes: id, number, name, class and status set; the
      logo and details-page values are passed under the keys url_logo and
      url_details_page, which name no property, so logoUrl and detailsPageUrl
      stay unset. */
  function RowFields(row: Row, imageUrl: Option<string>): Fields
    requires !AnchorMissing(row)
  {
    var layout := LayoutFor(imageUrl);
    Fields(
      Some(Trim(TextAt(row, 0))),
      Some(Trim(TextAt(row, 2))),
      Some(Trim(TextAt(row, layout.nameIndex))),
      None,
      Some(GetClassFromColumn(row, layout.classIndex)),
      Some(Cleaned(TextAt(row, layout.statusIndex))),
      None)
  }

  /** Binding the parser's seven keys, in the parser's order, to a fresh
      Trademark: url_logo and url_details_page name no property and set nothing. */
  lemma BindParserKeys(id: string, number: string, logo: string, name: string, classLabel: string, status: string, details: string)
    ensures AssignAll(UNSET, [("id", id), ("number", number), ("url_logo", logo), ("name", name),
      ("class", classLabel), ("status", status), ("url_details_page", details)])
      == Fields(Some(id), Some(number), Some(name), None, Some(classLabel), Some(status), None)
  {
    var data := [("id", id), ("number", number), ("url_logo", logo), ("name", name),
      ("class", classLabel), ("status", status), ("url_details_page", details)];
    var f1 := Assign(UNSET, "id", id);
    var f2 := Assign(f1, "number", number);
    var f3 := Assign(f2, "url_logo", logo);
    var f4 := Assign(f3, "name", name);
    var f5 := Assign(f4, "class", classLabel);
    var f6 := Assign(f5, "status", status);
    var f7 := Assign(f6, "url_details_page", details);
    assert f3 == f2 && f7 == f6;
    assert AssignAll(f7, data[7..]) == f7;
    assert data[6..][1..] == data[7..];
    assert AssignAll(f6, data[6..]) == f7;
    assert data[5..][1..] == data[6..];
    assert AssignAll(f5, data[5..]) == f7;
    assert data[4..][1..] == data[5..];
    assert AssignAll(f4, data[4..]) == f7;
    assert data[3..][1..] == data[4..];
    assert AssignAll(f3, data[3..]) == f7;
    assert data[2..][1..] == data[3..];
    assert AssignAll(f2, data[2..]) == f7;
    assert data[1..][1..] == data[2..];
    assert AssignAll(f1, data[1..]) == f7;
  }

  /** Binding the row's array to a fresh Trademark yields RowFields: the two
      URL entries are dropped. */
  lemma RowDataBindsRowFields(row: Row, imageUrl: Option<string>)
    requires !AnchorMissing(row)
    ensures AssignAll(UNSET, RowData(row, imageUrl)) == RowFields(row, imageUrl)
  {
    var layout := LayoutFor(imageUrl);
    BindParserKeys(Trim(TextAt(row, 0)), Trim(TextAt(row, 2)), LogoOf(imageUrl),
      Trim(TextAt(row, layout.nameIndex)), GetClassFromColumn(row, layout.classIndex),
      Cleaned(TextAt(row, layout.statusIndex)), GetUrlDetailsPage(row[2].href.value));
  }

  /** The column shift: a truthy image URL moves name, class and status one
      column right; id and number always come from columns 0 and 2. */
  lemma ColumnShift(row: Row, imageUrl: Option<string>)
    requires !AnchorMissing(row)
    ensures var shift := if Truthy(imageUrl) then 1 else 0;
      var f := RowFields(row, imageUrl);
      f.id == Some(Trim(TextAt(row, 0))) && f.number == Some(Trim(TextAt(row, 2))) &&
      f.name == Some(Trim(TextAt(row, 3 + shift))) &&
      f.classLabel == Some(GetClassFromColumn(row, 4 + shift)) &&
      f.status == Some(Cleaned(TextAt(row, 5 + shift)))
  {
  }

  /** The logo entry: the img's src whenever there is an img, "No image
      found" only when there is none. */
  function LogoOf(imageUrl: Option<string>): (r: string)
    ensures imageUrl.Some? ==> r == imageUrl.value
    ensures imageUrl.None? ==> r == NO_IMAGE_FOUND
  {
    imageUrl.GetOr(NO_IMAGE_FOUND)
  }

  /** The logo and the layout disagree on an img without src: its logo is ""
      while the row is read with the layout of a row without image. */
  lemma LogoAndLayoutDiffer()
    ensures LogoOf(Some("")) == "" && LayoutFor(Some("")) == WITHOUT_IMAGE
    ensures LogoOf(Some("0")) == "0" && LayoutFor(Some("0")) == WITHOUT_IMAGE
    ensures LogoOf(None) == NO_IMAGE_FOUND && LayoutFor(None) == WITHOUT_IMAGE
  {
  }

  /** A non-empty row is fatal when it has fewer than four columns (the img
      lookup in column 3 runs on null) or when column 2 has no anchor. */
  predicate RowCrashes(row: Row) {
    |row| < 4 || row[2].href.None?
  }

  /** The record of one non-empty row, None when reading it is fatal. */
  function RowRecord(row: Row): (r: Option<Fields>)
    ensures r.None? <==> RowCrashes(row)
    ensures r.Some? ==> !AnchorMissing(row) && r.value == RowFields(row, row[3].img)
    ensures r.Some? ==> r.value.id.Some? && r.value.logoUrl.None? && r.value.detailsPageUrl.None?
  {
    if RowCrashes(row) then None else Some(RowFields(row, row[3].img))
  }

  /** The records collected from the tbody rows, given what reading one
      non-empty row yields (None: fatal): rows without td are skipped, and a
      fatal row ends everything. */
  function Collect(rows: seq<Row>, record: Row -> Option<Fields>): Option<seq<Fields>>
  {
    if rows == [] then Some([])
    else match Collect(rows[..|rows| - 1], record)
      case None => None
      case Some(done) =>
        var row := rows[|rows| - 1];
        if row == [] then Some(done)
        else match record(row)
          case None => None
          case Some(f) => Some(done + [f])
  }

  /** The rows that hold at least one td, in order. */
  function NonEmptyRows(rows: seq<Row>): (r: seq<Row>)
    ensures forall i :: 0 <= i < |r| ==> r[i] != [] && r[i] in rows
  {
    if rows == [] then []
    else NonEmptyRows(rows[..|rows| - 1]) + (if rows[|rows| - 1] == [] then [] else [rows[|rows| - 1]])
  }

  /** The non-empty rows of a prefix come first among those of the whole. */
  lemma {:induction false} NonEmptyRowsPrefix(rows: seq<Row>, k: nat)
    requires k <= |rows|
    ensures NonEmptyRows(rows[..k]) <= NonEmptyRows(rows)
    decreases |rows|
  {
    if k < |rows| {
      var init := rows[..|rows| - 1];
      assert init[..k] == rows[..k];
      NonEmptyRowsPrefix(init, k);
    } else {
      assert rows[..k] == rows;
    }
  }

  /** No non-empty row is dropped, and order is kept: a non-empty row stands
      right after the non-empty rows that precede it. */
  lemma NonEmptyRowsComplete(rows: seq<Row>)
    ensures forall i :: 0 <= i < |rows| && rows[i] != [] ==>
      |NonEmptyRows(rows[..i])| < |NonEmptyRows(rows)| && NonEmptyRows(rows)[|NonEmptyRows(rows[..i])|] == rows[i]
  {
    forall i | 0 <= i < |rows| && rows[i] != []
      ensures |NonEmptyRows(rows[..i])| < |NonEmptyRows(rows)| && NonEmptyRows(rows)[|NonEmptyRows(rows[..i])|] == rows[i]
    {
      assert rows[..i + 1][..i] == rows[..i];
      NonEmptyRowsPrefix(rows, i + 1);
    }
  }

  /** Collecting fails exactly when some non-empty row is fatal; otherwise it
      gives one record per non-empty row, in row order. */
  lemma {:induction false} CollectShape(rows: seq<Row>, record: Row -> Option<Fields>)
    ensures Collect(rows, record).None? <==> exists i :: 0 <= i < |rows| && rows[i] != [] && record(rows[i]).None?
    ensures Collect(rows, record).Some? ==>
      var nonEmpty := NonEmptyRows(rows);
      |Collect(rows, record).value| == |nonEmpty| &&
      forall j :: 0 <= j < |nonEmpty| ==> record(nonEmpty[j]) == Some(Collect(rows, record).value[j])
  {
    if rows != [] {
      var init := rows[..|rows| - 1];
      var last := rows[|rows| - 1];
      CollectShape(init, record);
      assert forall i :: 0 <= i < |init| ==> init[i] == rows[i];
      if Collect(init, record).None? {
        var i :| 0 <= i < |init| && init[i] != [] && record(init[i]).None?;
        assert rows[i] != [] && record(rows[i]).None?;
      } else if last != [] && record(last).None? {
        assert rows[|rows| - 1] != [] && record(rows[|rows| - 1]).None?;
      } else {
        forall i | 0 <= i < |rows| ensures !(rows[i] != [] && record(rows[i]).None?) {
          if i < |init| {
            assert rows[i] == init[i];
          }
        }
      }
    }
  }

  /** Once a prefix of the rows is fatal, so are all the rows. */
  lemma {:induction false} CollectFatalPrefix(rows: seq<Row>, record: Row -> Option<Fields>, n: nat)
    requires n <= |rows| && Collect(rows[..n], record).None?
    ensures Collect(rows, record).None?
    decreases |rows| - n
  {
    if n < |rows| {
      assert rows[..n + 1][..n] == rows[..n];
      CollectFatalPrefix(rows, record, n + 1);
    } else {
      assert rows[..n] == rows;
    }
  }

  /** An empty row adds nothing. */
  lemma CollectSkip(rows: seq<Row>, record: Row -> Option<Fields>, i: nat)
    requires i < |rows| && rows[i] == []
    ensures Collect(rows[..i + 1], record) == Collect(rows[..i], record)
  {
    assert rows[..i + 1][..i] == rows[..i];
  }

  /** A row with a record appends it. */
  lemma CollectAppend(rows: seq<Row>, record: Row -> Option<Fields>, i: nat, f: Fields)
    requires i < |rows| && rows[i] != [] && record(rows[i]) == Some(f)
    requires Collect(rows[..i], record).Some?
    ensures Collect(rows[..i + 1], record) == Some(Collect(rows[..i], record).value + [f])
  {
    assert rows[..i + 1][..i] == rows[..i];
  }

  /** A fatal row makes the rows read so far fatal. */
  lemma CollectFatal(rows: seq<Row>, record: Row -> Option<Fields>, i: nat)
    requires i < |rows| && rows[i] != [] && record(rows[i]).None?
    ensures Collect(rows[..i + 1], record).None?
  {
    assert rows[..i + 1][..i] == rows[..i];
  }

  /** The records extractDataFromHtml collects from the tbody rows. */
  function RowsFields(rows: seq<Row>): Option<seq<Fields>> {
    Collect(rows, RowRecord)
  }

  /** Reading the rows is fatal exactly when some non-empty row is; otherwise
      there is one record per non-empty row, in row order, each with an id. */
  lemma RowsFieldsShape(rows: seq<Row>)
    ensures RowsFields(rows).None? <==> exists i :: 0 <= i < |rows| && rows[i] != [] && RowCrashes(rows[i])
    ensures RowsFields(rows).Some? ==>
      var nonEmpty := NonEmptyRows(rows);
      |RowsFields(rows).value| == |nonEmpty| &&
      forall j :: 0 <= j < |nonEmpty| ==> RowsFields(rows).value[j] == RowFields(nonEmpty[j], nonEmpty[j][3].img)
    ensures RowsFields(rows).Some? ==> forall j :: 0 <= j < |RowsFields(rows).value| ==> RowsFields(rows).value[j].id.Some?
  {
    CollectShape(rows, RowRecord);
  }

  /** extractDataFromHtml once the document is read: no results table gives
      no records. */
  function TableFields(html: string, resultsTable: string -> Option<seq<Row>>): Option<seq<Fields>> {
    match resultsTable(html)
    case None => Some([])
    case Some(rows) => RowsFields(rows)
  }

  /** Every record read from a table carries an id. */
  lemma TableFieldsHaveIds(html: string, resultsTable: string -> Option<seq<Row>>)
    ensures TableFields(html, resultsTable).Some? ==> forall j :: 0 <= j < |TableFields(html, resultsTable).value| ==> TableFields(html, resultsTable).value[j].id.Some?
  {
    if resultsTable(html).Some? {
      RowsFieldsShape(resultsTable(html).value);
    }
  }

  /** parse(url): a transport error or a falsy page text ("" or "0") gives no
      records; otherwise the records of the page's table. */
  function PageFields(world: World, url: string): Option<seq<Fields>> {
    match world.answer(GetFollowing(url))
    case TransportError => Some([])
    case Reply(_, text) => if IsEmpty(text) then Some([]) else TableFields(text, world.resultsTable)
  }

  /** Every record read from a page carries an id. */
  lemma PageFieldsHaveIds(world: World, url: string)
    ensures PageFields(world, url).Some? ==> forall j :: 0 <= j < |PageFields(world, url).value| ==> PageFields(world, url).value[j].id.Some?
  {
    var response := world.answer(GetFollowing(url));
    if response.Reply? && !IsEmpty(response.text) {
      TableFieldsHaveIds(response.text, world.resultsTable);
    }
  }

  /** A page that cannot be loaded gives an empty result. */
  lemma FailedFetchGivesNothing(world: World, url: string)
    requires world.answer(GetFollowing(url)).TransportError? || IsEmpty(world.answer(GetFollowing(url)).text)
    ensures PageFields(world, url) == Some([])
  {
  }

  /** createTrademarkFromColumns: a new Trademark bound to the row's array;
      None when reading the anchor of column 2 is fatal. */
  method CreateTrademarkFromColumns(row: Row, imageUrl: Option<string>) returns (t: Option<Trademark>)
    ensures t.None? <==> AnchorMissing(row)
    ensures t.Some? ==> fresh(t.value) && t.value.View() == RowFields(row, imageUrl)
  {
    var layout := LayoutFor(imageUrl);
    var trademark := new Trademark();
    if AnchorMissing(row) {
      return None;
    }
    var data := [
      ("id", Trim(TextAt(row, 0))),
      ("number", Trim(TextAt(row, 2))),
      ("url_logo", LogoOf(imageUrl)),
      ("name", Trim(TextAt(row, layout.nameIndex))),
      ("class", GetClassFromColumn(row, layout.classIndex)),
      ("status", Cleaned(TextAt(row, layout.statusIndex))),
      ("url_details_page", GetUrlDetailsPage(row[2].href.value))];
    assert data == RowData(row, imageUrl);
    var self := trademark.InitializeProperties(data);
    RowDataBindsRowFields(row, imageUrl);
    return Some(self);
  }

  /** The loop body of extractDataFromHtml for a row holding a td: the img
      of column 3 (a fatal lookup on a shorter row), then the Trademark. */
  method ReadRow(columns: Row) returns (t: Option<Trademark>)
    requires columns != []
    ensures t.None? <==> RowRecord(columns).None?
    ensures t.Some? ==> RowRecord(columns) == Some(t.value.View())
  {
    t := None;
    if |columns| >= 4 {
      var imgUrl := columns[3].img;
      t := CreateTrademarkFromColumns(columns, imgUrl);
    }
  }

  /** One turn of the row loop for a row holding a td: its Trademark is
      appended, or reading it is fatal. */
  method ReadInto(rows: seq<Row>, i: nat, data: seq<Trademark>) returns (more: seq<Trademark>, crashed: bool)
    requires i < |rows| && rows[i] != []
    requires Collect(rows[..i], RowRecord) == Some(Views(data))
    ensures crashed <==> Collect(rows[..i + 1], RowRecord).None?
    ensures !crashed ==> Collect(rows[..i + 1], RowRecord) == Some(Views(more))
  {
    ghost var done := Views(data);
    var t := ReadRow(rows[i]);
    more := data;
    crashed := t.None?;
    if crashed {
      CollectFatal(rows, RowRecord, i);
    } else {
      assert Views(data) == done;
      CollectAppend(rows, RowRecord, i, t.value.View());
      ViewsAppend(data, t.value);
      more := data + [t.value];
    }
  }

  /** extractDataFromHtml: one Trademark per tbody row holding a td, in row
      order; crashed when some row is fatal, in which case nothing is returned. */
  method ExtractDataFromHtml(html: string, resultsTable: string -> Option<seq<Row>>) returns (data: seq<Trademark>, crashed: bool)
    ensures crashed <==> TableFields(html, resultsTable).None?
    ensures !crashed ==> Views(data) == TableFields(html, resultsTable).value
  {
    data := [];
    crashed := false;
    var table := resultsTable(html);
    if table.None? {
      return;
    }
    var rows := table.value;
    assert TableFields(html, resultsTable) == Collect(rows, RowRecord);
    var i := 0;
    while i < |rows|
      invariant 0 <= i <= |rows|
      invariant Collect(rows[..i], RowRecord) == Some(Views(data))
    {
      if |rows[i]| > 0 {
        var more, fatal := ReadInto(rows, i, data);
        if fatal {
          CollectFatalPrefix(rows, RowRecord, i + 1);
          return [], true;
        }
        data := more;
      } else {
        CollectSkip(rows, RowRecord, i);
      }
      i := i + 1;
    }
    assert rows[..i] == rows;
  }

  /** parse: fetches the page, following redirects; a failed fetch gives no records. */
  method Parse(url: string, net: Network) returns (data: seq<Trademark>, crashed: bool)
    modifies net
    ensures net.sent == old(net.sent) + [GetFollowing(url)]
    ensures crashed <==> PageFields(net.world, url).None?
    ensures !crashed ==> Views(data) == PageFields(net.world, url).value
  {
    var response := net.Send(GetFollowing(url));
    if response.TransportError? || IsEmpty(response.text) {
      return [], false;
    }
    data, crashed := ExtractDataFromHtml(response.text, net.world.resultsTable);
  }
}
