/** Paginator: asks the count endpoint how many trademarks match a word and
    turns that count into a number of result pages of 100 items. */
module Pagination {
  import opened Text
  import opened Boundary

  const ITEMS_PER_PAGE := 100
  const BASE_COUNT_URL := "https://search.ipaustralia.gov.au/trademarks/search/count?wv%5B0%5D="
  const HTTP_STATUS_OK := 200

  /** (int) ceil(itemsCount / ITEMS_PER_PAGE): the least number of pages that
      covers itemsCount items, for negative counts too. */
  function PagesFor(itemsCount: int): (pages: int)
    ensures (pages - 1) * ITEMS_PER_PAGE < itemsCount <= pages * ITEMS_PER_PAGE
  {
    (itemsCount + ITEMS_PER_PAGE - 1) / ITEMS_PER_PAGE
  }

  /** For a count the endpoint can report, no pages means no items. */
  lemma PagesZeroIffNoItems(itemsCount: int)
    requires itemsCount >= 0
    ensures PagesFor(itemsCount) >= 0
    ensures PagesFor(itemsCount) == 0 <==> itemsCount == 0
    ensures itemsCount > 0 ==> (PagesFor(itemsCount) - 1) * ITEMS_PER_PAGE < itemsCount <= PagesFor(itemsCount) * ITEMS_PER_PAGE
  {
  }

  /** The boundary cases of the page count. */
  lemma PagesForExamples()
    ensures PagesFor(0) == 0 && PagesFor(1) == 1 && PagesFor(99) == 1
    ensures PagesFor(100) == 1 && PagesFor(101) == 2 && PagesFor(250) == 3
  {
  }

  /** The count endpoint's URL for a word: the word is appended as it is. */
  function CountUrl(word: string): string {
    BASE_COUNT_URL + word
  }

  /** getFoundItemsCount once the request is answered: the `count` of the JSON
      body of a 200 reply; 0 for a transport error, any other status, a body
      that is not a JSON object, or a missing `count`. */
  function FoundItemsCount(response: Response, jsonDecode: string -> Option<map<string, int>>): (count: int)
    ensures response.TransportError? || response.status != HTTP_STATUS_OK ==> count == 0
    ensures response.Reply? && response.status == HTTP_STATUS_OK && jsonDecode(response.text).None? ==> count == 0
    ensures response.Reply? && response.status == HTTP_STATUS_OK && jsonDecode(response.text).Some? ==>
      count == (if "count" in jsonDecode(response.text).value then jsonDecode(response.text).value["count"] else 0)
  {
    match response
    case TransportError => 0
    case Reply(status, text) =>
      if status != HTTP_STATUS_OK then 0
      else match jsonDecode(text)
        case None => 0
        case Some(data) => if "count" in data then data["count"] else 0
  }

  /** Requests the count for word; every failure is absorbed into 0. */
  method GetFoundItemsCount(word: string, net: Network) returns (count: int)
    modifies net
    ensures net.sent == old(net.sent) + [Get(CountUrl(word))]
    ensures count == FoundItemsCount(net.world.answer(Get(CountUrl(word))), net.world.jsonDecode)
  {
    var response := net.Send(Get(CountUrl(word)));
    if response.TransportError? || response.status != HTTP_STATUS_OK {
      return 0;
    }
    var data := net.world.jsonDecode(response.text);
    count := if data.Some? && "count" in data.value then data.value["count"] else 0;
  }

  class Paginator {
    var itemsCount: int
    var pagesCount: int

    ghost predicate Valid()
      reads this
    {
      pagesCount == PagesFor(itemsCount)
    }

    /** Fixes both counts for word, with one request to the count endpoint. */
    constructor (word: string, net: Network)
      modifies net
      ensures Valid()
      ensures itemsCount == FoundItemsCount(net.world.answer(Get(CountUrl(word))), net.world.jsonDecode)
      ensures net.sent == old(net.sent) + [Get(CountUrl(word))]
    {
      var count := GetFoundItemsCount(word, net);
      itemsCount := count;
      pagesCount := PagesFor(count);
    }

    method GetItemsCount() returns (n: int)
      ensures n == itemsCount
    {
      n := itemsCount;
    }

    method GetPagesCount() returns (n: int)
      requires Valid()
      ensures n == pagesCount == PagesFor(itemsCount)
    {
      n := pagesCount;
    }
  }
}
