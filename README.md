# Telegram channel search: a Dafny model

`sougou_bot` is a Telegram bot that looks up Telegram channels and groups. It
takes the text of a chat message and runs `search_telegram(query)`. That
routine has four stages:

1. It builds a search URL for `https://telegramsearchengine.com/`.
2. It obtains a headless Chrome driver through a four-way fallback.
3. It loads and renders the page, and always quits the driver.
4. It keeps the first record for each link among the `div.gs-title a`
   anchors, and returns at most twenty records.

The bot then answers with a failure text, a "nothing found" warning, or a
numbered Markdown listing.

This project models that core:

| module (file) | what it models |
|---|---|
| `Wrappers` (`wrappers.dfy`) | `Option` and `Result` |
| `Text` (`text.dfy`) | `"\n".join` / `str.split`, and `str(n)` as decimal text with its parser |
| `UrlCodec` (`url_codec.dfy`) | `urllib.parse.urlencode` with `quote_plus` over UTF-8 bytes, plus a strict decoder |
| `Scraper` (`scraper.py` lines 29-37, 29-147) | the search URL; the whole `search_telegram` as a method over oracles |
| `DriverSetup` (`scraper.py` lines 48-124) | driver acquisition, the consolidated error, navigation with quit in `finally` |
| `ResultExtraction` (`scraper.py` lines 133-147) | the filter, deduplicate and truncate loop |
| `TestScraper` (`test_scraper.py` lines 24-32) | `build_url` |
| `Bot` (`bot.py` lines 109-143) | `search_handler`: strip and gate, then choose and compose the replies |

The browser appears only as inputs:

- a constructor oracle, `Strategy -> Attempt<D>`: for each of `service`,
  `executable_path`, `positional` and `default`, it builds a driver or raises;
- a navigation oracle, `string -> Navigation`: it gives the rendered markup or
  the error raised;
- a flag saying whether `quit()` raises;
- a selection oracle, `string -> seq<Anchor>`: from the markup, the anchors
  `div.gs-title a` in document order, each with its stripped text and its
  `href`, if any.

The result of `ChromeDriverManager().install()` is an `Install` value. The
import probe for the Service class is a boolean. The bot's search call is an
input that gives either records or an exception message. Replies are the
sequence of texts sent, in order.

Facts about the code that the model keeps:

- The code tries four constructors: `service` (only when the Service class
  imports), `executable_path`, `positional`, `default`.
- A navigation error is re-raised unchanged.
- A failing `quit()` is swallowed without logging.
- There is no end-to-end timeout.

## Model

| member | source | states |
|---|---|---|
| `Scraper.SearchUrlReadsBack` | sougou_bot/scraper.py:29-37 | Reading the URL back gives the base `https://telegramsearchengine.com/` and exactly four pairs, in the order `q`, `gsc.tab`, `gsc.q`, `gsc.page`. Both free-text values are the query. `gsc.tab` is `0`. `gsc.page` is the decimal text of `page - 1`, which parses back to `page - 1`. |
| `Scraper.SearchUrlText` | sougou_bot/scraper.py:29-37 | The URL text is the base, `?`, then the four pieces `q=E`, `gsc.tab=0`, `gsc.q=E`, `gsc.page=D` joined by `&`. `E` is the one encoding of the query, the same in both places, and `D` is `str(page - 1)`. |
| `Scraper.EncodedParams` | sougou_bot/scraper.py:31-37 | The encoded pieces of the four parameters are exactly those four literal-keyed pieces, in dictionary order. |
| `UrlCodec.QuoteByte` | sougou_bot/scraper.py:37 | One byte becomes one to three characters, each unreserved, `%` or `+`. |
| `UrlCodec.QuotePlusChars` | sougou_bot/scraper.py:37 | An encoded value holds only unreserved characters, `%` and `+`, and is between one and three times as long as the byte string. |
| `UrlCodec.QuotedNoDelimiters` | sougou_bot/scraper.py:32-37 | An encoded value never contains a raw `&`, `=` or space. |
| `UrlCodec.UnquoteQuote` | sougou_bot/scraper.py:32-37 | Decoding the encoded value gives back the original bytes of the query. |
| `UrlCodec.QuotePlusUnreserved` | sougou_bot/scraper.py:31-35 | Text made only of unreserved characters (the keys, `0`, the page number) is encoded as itself. |
| `UrlCodec.EncodePairNoAmpersand` | sougou_bot/scraper.py:37 | A `key=value` piece contains `=` and never `&`. |
| `UrlCodec.ParseQueryUrlEncode` | sougou_bot/scraper.py:37 | Splitting the encoded query string at `&` and `=` and decoding gives back every pair, in order. |
| `Text.Decimal` | sougou_bot/scraper.py:35 | `str(n)` is non-empty, made of digits and a sign, and starts with `-` exactly when `n` is negative. |
| `Text.DecimalRoundTrip` | sougou_bot/scraper.py:35 | Parsing `str(n)` gives back `n`, negative page indices included. |
| `Text.SplitJoin` | sougou_bot/scraper.py:105 | `"\n".join` of lines with no newline splits back into the same lines. |
| `DriverSetup.Candidates` | sougou_bot/scraper.py:59-98 | The list of eligible strategies is never empty, and `default` is always last. |
| `DriverSetup.CandidatesSpec` | sougou_bot/scraper.py:49-61 | `service` is eligible iff a non-empty path was resolved and Service is importable. `executable_path` and `positional` are eligible iff a path was resolved. Without a path, only `default` is eligible. The order is `service`, `executable_path`, `positional`, `default`. |
| `DriverSetup.EvaluateSpec` | sougou_bot/scraper.py:58-98 | The attempts are a prefix of the eligible list, and none follows a success. There is one `(name, error)` entry per failed attempt, in attempt order. A driver results iff some eligible strategy builds one, and it is the first such. When none does, every eligible strategy was tried. |
| `DriverSetup.DefaultIsLastResort` | sougou_bot/scraper.py:90-98 | When all path-based constructors fail, `default` is still tried, and its driver is the one used. |
| `DriverSetup.AcquireDriver` | sougou_bot/scraper.py:48-98 | The four guarded blocks, which reassign `driver` and append to `errors`, have exactly the outcome, attempts and errors of evaluating the eligible strategies in order. |
| `DriverSetup.ErrorReportLines` | sougou_bot/scraper.py:100-105 | The `RuntimeError` message is the header line, then one ` - name: error` line per failure, in order. This is read back line by line when no error text has a newline. |
| `DriverSetup.ConsolidateErrors` | sougou_bot/scraper.py:100-105 | The `msg_lines` loop and the join give exactly that report. |
| `DriverSetup.FetchRendered` | sougou_bot/scraper.py:108-124 | The calls are `get(url)` and then exactly one `quit()`, whether navigation succeeds or raises. A raising `quit()` changes nothing. The markup is returned, or the navigation error comes out unchanged. |
| `Scraper.SearchTelegram` | sougou_bot/scraper.py:29-147 | Without a driver, only constructors were called and the result is the consolidated error. With one, the constructor calls are followed by `get(url)` with the search URL and then `quit()`. The result is the unchanged navigation error, or exactly the extracted records of the rendered page. |
| `ResultExtraction.RecordOf` | sougou_bot/scraper.py:136-142 | A kept record has a non-empty title and a non-empty link. |
| `ResultExtraction.DeduplicateLinks` | sougou_bot/scraper.py:133-142 | The links kept are exactly the usable links of the anchors, which is the `seen_links` set at the end of the loop. |
| `ResultExtraction.DeduplicateDistinct` | sougou_bot/scraper.py:138-142 | No two kept records share a link, and none has an empty title or link. |
| `ResultExtraction.DeduplicateFirstOccurrences` | sougou_bot/scraper.py:135-144 | The kept records come from strictly increasing anchor positions. Each is the first usable anchor with its link, with that anchor's title. Every first occurrence is kept, so a later duplicate never replaces a title. |
| `ResultExtraction.DistinctLinksCount` | sougou_bot/scraper.py:140-142 | With distinct links, the size of the link set equals the number of records. |
| `ResultExtraction.SearchResultsSpec` | sougou_bot/scraper.py:146-147 | The result has `min(20, d)` records, where `d` is the number of distinct usable links. It is a prefix of the deduplicated list, has distinct links and non-empty fields. No anchors gives an empty list. |
| `ResultExtraction.DeduplicateUnique` | sougou_bot/scraper.py:135-142 | Usable anchors with pairwise different links are all kept, in document order. |
| `ResultExtraction.SearchResultsUniqueOverflow` | sougou_bot/scraper.py:146-147 | With more than twenty such anchors, exactly the first twenty are returned, in document order. |
| `ResultExtraction.SearchResultsRepeatedLink` | sougou_bot/scraper.py:135-144 | Links `x`, `y`, `x` give the two records of the first `x` and of `y`, in that order. |
| `ResultExtraction.ExtractResults` | sougou_bot/scraper.py:133-147 | The loop over the anchors with `seen_links` and `results`, then `results[:20]`, returns exactly the specified search results. Its invariant is that `seen_links` is the set of links in `results`. |
| `TestScraper.BuildUrl` | sougou_bot/test_scraper.py:24-32 | `build_url(query, page)` equals the URL inside `search_telegram` for the same arguments. With the default `page=1`, `gsc.page` is `0`. |
| `Bot.LeadingSpace` | sougou_bot/bot.py:112 | The count covers exactly the leading whitespace: every counted character is whitespace, and the next is not. |
| `Bot.TrailingSpace` | sougou_bot/bot.py:112 | The count covers exactly the trailing whitespace. |
| `Bot.StripSpec` | sougou_bot/bot.py:112 | `strip()` gives the slice that starts at the first non-whitespace character. Only whitespace lies outside it, and it neither starts nor ends with whitespace. |
| `Bot.StripTrimmed` | sougou_bot/bot.py:112 | Text with no surrounding whitespace is unchanged by `strip()`. |
| `Bot.StripIdempotent` | sougou_bot/bot.py:112 | Stripping twice is the same as stripping once. |
| `Bot.StripEmpty` | sougou_bot/bot.py:112-119 | The stripped text is empty iff the message is all whitespace. |
| `Bot.Gate` | sougou_bot/bot.py:112-119 | A query is searched iff the stripped text is non-empty and does not start with `/`. It is then the stripped text. |
| `Bot.GateSpec` | sougou_bot/bot.py:112-119 | On the raw message, the handler stays silent iff the message is all whitespace or its first non-whitespace character is `/`. |
| `Bot.GateTrimmed` | sougou_bot/bot.py:112-121 | The searched query has no surrounding whitespace and is its own strip. |
| `Bot.ComposeListing` | sougou_bot/bot.py:136-141 | The `text +=` loop over `enumerate(results, 1)`, then the footer, gives exactly the listing text. |
| `Bot.ListingReadsBack` | sougou_bot/bot.py:136-141 | When no text in it has a newline, the listing splits into these lines: the header with the query and `len(results)`, a blank line, one `i. [title](link)` per result for `i` from 1 in result order, a blank line, `---`, and the closing hint. |
| `Bot.SearchHandler` | sougou_bot/bot.py:109-143 | A gated message gets no reply and no search. Otherwise the query is searched once, and the "searching" notice goes first. Exactly one more reply follows: the failure text with the exception message, the fixed warning for no results, or the listing. |

## Left out

- Selenium itself is not modelled: `webdriver.Chrome(...)`, `driver.get`, `page_source`, `quit` and the `Options` arguments. They are foreign calls, so they appear only as oracles and a flag.
- `ChromeDriverManager().install()` downloads over the network. The two import probes run at import time. All three are inputs.
- `time.sleep(8)` is timing with no logical content.
- BeautifulSoup parsing, the `div.gs-title a` selection and `get_text(strip=True)` are not modelled. The selected anchors are an input, each with its text and its `href`.
- `urlencode` converts `str` to UTF-8 itself. Here the query is given already as its UTF-8 bytes.
- `Bot.Strip` does not model the Unicode database. Its whitespace set is `str.isspace` written out as character ranges.
- Bot.SearchHandler is not tied to `Scraper.SearchTelegram`. The bot calls the search through `run_in_executor` with the query string (page 1); the model gives that call as an input. Thread-pool offloading and the event loop are concurrency.
- `print` logging is not modelled, including the handler's `print` of the search error.
- aiogram routing, `Bot`/`Dispatcher`, the `.env` token and the menu setup in `main` are not modelled.
- The reply options (`parse_mode="Markdown"`, `disable_web_page_preview`) and Markdown rendering are not modelled.
- The static `/help`, `/start` and `/search` replies are not modelled.
- A message without text (`msg.text` is `None`) is not modelled; the model takes the text as given.
- `DriverSetup` records exceptions as their message text (`str(e)`), which is what the report prints.
- `fetch_static_html` and `analyze_html` in `test_scraper.py` do network I/O and printing.
- The one-off scripts (`debug_html.py`, `analyze_html.py`, `test_nav_thread.py`, `test_nav_timeout.py`, `test_chrome_site.py`, `test_chrome.py`, `quick_test.py`) are not part of this model.
