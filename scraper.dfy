/**
 * `search_telegram(query, page=1)`: build the search URL, obtain a driver,
 * load and render the page, always quit the driver, then extract the results.
 */
module Scraper {
  import opened Wrappers
  import opened Text
  import opened UrlCodec
  import opened DriverSetup
  import opened ResultExtraction

  const BaseUrl: string := "https://telegramsearchengine.com/"

  /** The four parameters in dictionary order: `q`, `gsc.tab`, `gsc.q`, `gsc.page`. */
  function SearchParams(query: seq<uint8>, page: int): seq<Pair>
  {
    [ (AsciiBytes("q"), query),
      (AsciiBytes("gsc.tab"), AsciiBytes("0")),
      (AsciiBytes("gsc.q"), query),
      (AsciiBytes("gsc.page"), AsciiBytes(Decimal(page - 1))) ]
  }

  /** `base_url + "?" + urlencode(params)`, for the UTF-8 bytes of `query`. */
  function SearchUrl(query: seq<uint8>, page: int): string
  {
    BaseUrl + "?" + UrlEncode(SearchParams(query, page))
  }

  /** Splits a URL at its first `?` and reads the query string. */
  function ParseUrl(url: string): Option<(string, seq<Pair>)>
  {
    var parts := SplitFirst(url, '?');
    if parts.None? then None
    else
      var params := ParseQuery(parts.value.1);
      if params.Some? then Some((parts.value.0, params.value)) else None
  }

  /**
   * The URL reads back as the base followed by exactly four pairs, in the
   * order `q`, `gsc.tab`, `gsc.q`, `gsc.page`; both free-text values decode to
   * the query, `gsc.tab` is `0`, and `gsc.page` is the decimal text of
   * `page - 1`, which parses back to `page - 1`.
   */
  lemma SearchUrlReadsBack(query: seq<uint8>, page: int)
    ensures var r := ParseUrl(SearchUrl(query, page));
            && r.Some?
            && r.value.0 == BaseUrl
            && |r.value.1| == 4
            && r.value.1[0] == (AsciiBytes("q"), query)
            && r.value.1[1] == (AsciiBytes("gsc.tab"), AsciiBytes("0"))
            && r.value.1[2] == (AsciiBytes("gsc.q"), query)
            && r.value.1[3] == (AsciiBytes("gsc.page"), AsciiBytes(Decimal(page - 1)))
            && ParseDecimal(Decimal(page - 1)) == Some(page - 1)
  {
    assert '?' !in BaseUrl;
    SplitFirstAt(BaseUrl, '?', UrlEncode(SearchParams(query, page)));
    ParseQueryUrlEncode(SearchParams(query, page));
    DecimalRoundTrip(page - 1);
  }

  /**
   * The URL as text: the base, `?`, then the four `key=value` pieces joined by
   * `&`. The fixed keys and the page number appear literally, and the query
   * appears twice as the same encoded string (which holds only unreserved
   * characters, `%` escapes and `+`, by `QuotePlusChars`).
   */
  lemma SearchUrlText(query: seq<uint8>, page: int)
    ensures SearchUrl(query, page) == BaseUrl + "?" + Join(ExpectedPieces(query, page), '&')
  {
    EncodedParams(query, page);
  }

  /** The four `key=value` pieces of the encoded parameters. */
  function ExpectedPieces(query: seq<uint8>, page: int): seq<string>
  {
    [Assign("q", QuotePlus(query)), Assign("gsc.tab", "0"), Assign("gsc.q", QuotePlus(query)), Assign("gsc.page", Decimal(page - 1))]
  }

  lemma EncodedQ(query: seq<uint8>, page: int)
    ensures EncodePair(SearchParams(query, page)[0]) == Assign("q", QuotePlus(query))
  {
    assert SearchParams(query, page)[0] == (AsciiBytes("q"), query);
    KeyPiece("q", query);
  }

  lemma EncodedTab(query: seq<uint8>, page: int)
    ensures EncodePair(SearchParams(query, page)[1]) == Assign("gsc.tab", "0")
  {
    assert SearchParams(query, page)[1] == (AsciiBytes("gsc.tab"), AsciiBytes("0"));
    KeyPiece("gsc.tab", AsciiBytes("0"));
    QuotePlusUnreserved("0");
  }

  lemma EncodedGscQ(query: seq<uint8>, page: int)
    ensures EncodePair(SearchParams(query, page)[2]) == Assign("gsc.q", QuotePlus(query))
  {
    assert SearchParams(query, page)[2] == (AsciiBytes("gsc.q"), query);
    KeyPiece("gsc.q", query);
  }

  lemma EncodedPage(query: seq<uint8>, page: int)
    ensures EncodePair(SearchParams(query, page)[3]) == Assign("gsc.page", Decimal(page - 1))
  {
    var d := Decimal(page - 1);
    assert SearchParams(query, page)[3] == (AsciiBytes("gsc.page"), AsciiBytes(d));
    DecimalUnreserved(page - 1);
    QuotePlusUnreserved(d);
    KeyPiece("gsc.page", AsciiBytes(d));
  }

  lemma EncodedParams(query: seq<uint8>, page: int)
    ensures EncodedPieces(SearchParams(query, page)) == ExpectedPieces(query, page)
  {
    EncodedQ(query, page);
    EncodedTab(query, page);
    EncodedGscQ(query, page);
    EncodedPage(query, page);
    PiecesOfFour(SearchParams(query, page), ExpectedPieces(query, page));
  }

  lemma PiecesOfFour(params: seq<Pair>, expected: seq<string>)
    requires |params| == |expected| == 4
    requires EncodePair(params[0]) == expected[0] && EncodePair(params[1]) == expected[1]
    requires EncodePair(params[2]) == expected[2] && EncodePair(params[3]) == expected[3]
    ensures EncodedPieces(params) == expected
  {
    assert forall i | 0 <= i < 4 :: EncodedPieces(params)[i] == expected[i];
  }

  lemma DecimalUnreserved(n: int)
    ensures AllUnreserved(Decimal(n))
  {
  }

  lemma KeyPiece(key: string, value: seq<uint8>)
    requires AllUnreserved(key)
    ensures IsAscii(key) && EncodePair((AsciiBytes(key), value)) == Assign(key, QuotePlus(value))
  {
    QuotePlusUnreserved(key);
  }

  /** Why a search failed: the consolidated driver error, or the navigation error re-raised. */
  datatype SearchError = DriverInitFailed(message: string) | NavigationFailed(message: string)

  /**
   * The whole search. `construct`, `navigate` and `quitRaises` stand for the
   * browser, `select` for parsing the markup and selecting `div.gs-title a`.
   * `calls` lists the browser calls in the order made.
   */
  method SearchTelegram<D>(query: seq<uint8>, page: int, install: Install, serviceAvailable: bool,
                           construct: Strategy -> Attempt<D>, navigate: string -> Navigation,
                           quitRaises: bool, select: string -> seq<Anchor>)
    returns (outcome: Result<seq<Record>, SearchError>, calls: seq<DriverCall>)
    ensures var acq := Evaluate(Candidates(PathResolved(install), serviceAvailable), construct);
            var tried := seq(|acq.attempted|, k requires 0 <= k < |acq.attempted| => Construct(acq.attempted[k]));
            && (acq.driver.None? ==>
                  calls == tried && outcome == Err(DriverInitFailed(ErrorReport(acq.errors))))
            && (acq.driver.Some? ==>
                  var url := SearchUrl(query, page);
                  && calls == tried + [Get(url), Quit]
                  && match navigate(url)
                     case NavRaised(e) => outcome == Err(NavigationFailed(e))
                     case Rendered(html) => outcome == Ok(SearchResults(select(html))))
  {
    var url := SearchUrl(query, page);
    var driver, attempted, errors := AcquireDriver(install, serviceAvailable, construct);
    calls := seq(|attempted|, k requires 0 <= k < |attempted| => Construct(attempted[k]));
    if driver.None? {
      var message := ConsolidateErrors(errors);
      return Err(DriverInitFailed(message)), calls;
    }
    var rendered, session := FetchRendered(url, navigate, quitRaises);
    calls := calls + session;
    if rendered.Err? {
      return Err(NavigationFailed(rendered.error)), calls;
    }
    var results := ExtractResults(select(rendered.value));
    outcome := Ok(results);
  }
}
