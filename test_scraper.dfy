/** `build_url(query, page=1)` of the diagnostic script, a second copy of the URL construction. */
module TestScraper {
  import opened Text
  import opened UrlCodec
  import Scraper

  /** `base + "?" + urlencode(params)` with the same four parameters. */
  function BuildUrl(query: seq<uint8>, page: int := 1): (url: string)
    ensures url == Scraper.SearchUrl(query, page)
    ensures page == 1 ==> url == Scraper.BaseUrl + "?" + UrlEncode([
              (AsciiBytes("q"), query), (AsciiBytes("gsc.tab"), AsciiBytes("0")),
              (AsciiBytes("gsc.q"), query), (AsciiBytes("gsc.page"), AsciiBytes("0"))])
  {
    var base := "https://telegramsearchengine.com/";
    var params := [
      (AsciiBytes("q"), query),
      (AsciiBytes("gsc.tab"), AsciiBytes("0")),
      (AsciiBytes("gsc.q"), query),
      (AsciiBytes("gsc.page"), AsciiBytes(Decimal(page - 1)))
    ];
    base + "?" + UrlEncode(params)
  }
}
