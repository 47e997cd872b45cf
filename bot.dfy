/**
 * The catch-all message handler `search_handler` of the Telegram bot: gate the
 * message text, announce the search, run it, and answer with the failure, the
 * "nothing found" warning or a numbered Markdown listing.
 *
 * The search itself is an input: for a query it either yields a list of
 * records or raises with a message. Replying is modelled as the sequence of
 * reply texts, in the order sent.
 */
module Bot {
  import opened Wrappers
  import opened Text
  import opened ResultExtraction

  // ---------------------------------------------------------------------------
  // Query gating: `msg.text.strip()`, then ignore commands and empty text.

  /** Python's `str.isspace` for one character. */
  predicate IsSpace(c: char)
  {
    || ('\t' <= c <= '\r')
    || ('\U{1c}' <= c <= '\U{1f}')
    || c == ' '
    || c == '\U{85}'
    || c == '\U{a0}'
    || c == '\U{1680}'
    || ('\U{2000}' <= c <= '\U{200a}')
    || c == '\U{2028}'
    || c == '\U{2029}'
    || c == '\U{202f}'
    || c == '\U{205f}'
    || c == '\U{3000}'
  }

  /** The number of whitespace characters at the start of `s`. */
  function LeadingSpace(s: string): (n: nat)
    ensures n <= |s|
    ensures forall k :: 0 <= k < n ==> IsSpace(s[k])
    ensures n < |s| ==> !IsSpace(s[n])
  {
    if |s| == 0 || !IsSpace(s[0]) then 0
    else
      var n := 1 + LeadingSpace(s[1..]);
      assert forall k :: 1 <= k < n ==> s[k] == s[1..][k - 1];
      n
  }

  /** The number of whitespace characters at the end of `s`. */
  function TrailingSpace(s: string): (n: nat)
    ensures n <= |s|
    ensures forall k :: |s| - n <= k < |s| ==> IsSpace(s[k])
    ensures n < |s| ==> !IsSpace(s[|s| - 1 - n])
  {
    if |s| == 0 || !IsSpace(s[|s| - 1]) then 0
    else
      var n := 1 + TrailingSpace(s[..|s| - 1]);
      assert forall k :: |s| - n <= k < |s| - 1 ==> s[k] == s[..|s| - 1][k];
      n
  }

  /** `str.strip()` with no argument. */
  function Strip(s: string): string
  {
    var i := LeadingSpace(s);
    s[i..|s| - TrailingSpace(s[i..])]
  }

  /**
   * The stripped text is the slice of `s` that starts at the first
   * non-whitespace character; everything before and after it is whitespace,
   * and it neither starts nor ends with whitespace.
   */
  lemma StripSpec(s: string)
    ensures var t, i := Strip(s), LeadingSpace(s);
            && i + |t| <= |s| && t == s[i..i + |t|]
            && (forall k :: 0 <= k < i ==> IsSpace(s[k]))
            && (forall k :: i + |t| <= k < |s| ==> IsSpace(s[k]))
            && (|t| > 0 ==> !IsSpace(t[0]) && !IsSpace(t[|t| - 1]))
  {
    var i := LeadingSpace(s);
    var rest := s[i..];
    var n := TrailingSpace(rest);
    forall k | i + |Strip(s)| <= k < |s| ensures IsSpace(s[k]) {
      assert s[k] == rest[k - i];
    }
    if |Strip(s)| > 0 {
      assert Strip(s)[0] == s[i];
      assert Strip(s)[|Strip(s)| - 1] == rest[|rest| - 1 - n];
    }
  }

  /** Text that neither starts nor ends with whitespace is left as it is. */
  lemma StripTrimmed(s: string)
    requires |s| == 0 || (!IsSpace(s[0]) && !IsSpace(s[|s| - 1]))
    ensures Strip(s) == s
  {
    assert LeadingSpace(s) == 0;
    assert s[0..] == s;
  }

  /** Stripping twice is stripping once. */
  lemma StripIdempotent(s: string)
    ensures Strip(Strip(s)) == Strip(s)
  {
    StripSpec(s);
    StripTrimmed(Strip(s));
  }

  /** Text made only of whitespace strips to nothing, and only such text does. */
  lemma StripEmpty(s: string)
    ensures Strip(s) == "" <==> forall k :: 0 <= k < |s| ==> IsSpace(s[k])
  {
    StripSpec(s);
    if forall k :: 0 <= k < |s| ==> IsSpace(s[k]) {
      assert LeadingSpace(s) == |s|;
    }
  }

  /** The query the handler searches for, or `None` when it returns silently. */
  function Gate(text: string): (query: Option<string>)
    ensures query.Some? ==> query.value == Strip(text) && query.value != "" && query.value[0] != '/'
    ensures query.None? ==> Strip(text) == "" || Strip(text)[0] == '/'
  {
    var query := Strip(text);
    if |query| > 0 && query[0] == '/' then None
    else if |query| == 0 then None
    else Some(query)
  }

  /**
   * In terms of the raw message: it is ignored exactly when it is all
   * whitespace or its first non-whitespace character is `/`.
   */
  lemma GateSpec(text: string)
    ensures var i := LeadingSpace(text);
            Gate(text).None? <==> i == |text| || text[i] == '/'
  {
    var t, i := Strip(text), LeadingSpace(text);
    StripSpec(text);
    if i < |text| {
      assert !IsSpace(text[i]);
      assert |t| > 0;
      assert t[0] == text[i];
    }
  }

  /** The query that is searched has no surrounding whitespace left. */
  lemma GateTrimmed(text: string)
    requires Gate(text).Some?
    ensures var q := Gate(text).value;
            !IsSpace(q[0]) && !IsSpace(q[|q| - 1]) && Strip(q) == q
  {
    StripSpec(text);
    StripIdempotent(text);
  }

  // ---------------------------------------------------------------------------
  // Reply texts.

  /** What the search call gave back: the records, or the text of the exception it raised. */
  datatype SearchOutcome = Found(results: seq<Record>) | Failed(message: string)

  function SearchingReply(query: string): string
  {
    "🔍 正在搜索：" + query + "\n请稍候…"
  }

  function FailureReply(message: string): string
  {
    "❌ 搜索失败\n\n错误信息：\n" + message
  }

  const NoResultsReply: string := "⚠️ 没有找到相关频道或群。\n\n💡 提示：尝试使用不同的关键词或更简短的搜索词"

  /** The first line of the listing: the query and the number of results. */
  function HeaderLine(query: string, count: nat): string
  {
    "🔍 **搜索结果：" + query + "** (共 " + Decimal(count) + " 个)"
  }

  /** The Markdown link of the `i`-th result (counting from 1). */
  function Entry(i: nat, r: Record): string
  {
    Decimal(i) + ". [" + r.title + "](" + r.link + ")"
  }

  const FooterLine: string := "💬 继续输入其他关键词继续搜索"

  function ListingHeader(query: string, count: nat): string
  {
    HeaderLine(query, count) + "\n\n"
  }

  const ListingFooter: string := "\n" + "---" + "\n" + FooterLine

  /** One numbered line per result, in order, numbered from 1. */
  function Lines(results: seq<Record>): string
  {
    if |results| == 0 then ""
    else Lines(results[..|results| - 1]) + Entry(|results|, results[|results| - 1]) + "\n"
  }

  /** The whole listing reply. */
  function ListingText(query: string, results: seq<Record>): string
  {
    ListingHeader(query, |results|) + Lines(results) + ListingFooter
  }

  /** The numbered entries, without their line breaks. */
  function Entries(results: seq<Record>): (entries: seq<string>)
    ensures |entries| == |results|
  {
    seq(|results|, k requires 0 <= k < |results| => Entry(k + 1, results[k]))
  }

  /** `text = header; for i, item in enumerate(results, 1): text += line; text += footer`. */
  method ComposeListing(query: string, results: seq<Record>) returns (text: string)
    ensures text == ListingText(query, results)
  {
    text := ListingHeader(query, |results|);
    for i := 0 to |results|
      invariant text == ListingHeader(query, |results|) + Lines(results[..i])
    {
      assert results[..i + 1][..i] == results[..i];
      text := text + (Entry(i + 1, results[i]) + "\n");
    }
    assert results[..|results|] == results;
    text := text + ListingFooter;
  }

  lemma {:induction false} LinesJoin(head: string, results: seq<Record>)
    ensures head + "\n\n" + Lines(results) == Join([head, ""] + Entries(results), '\n') + "\n"
  {
    if |results| == 0 {
      assert [head, ""] + Entries(results) == [head, ""];
      assert Join([head, ""], '\n') == head + "\n" + "";
    } else {
      var init, n := results[..|results| - 1], |results|;
      var e := Entry(n, results[n - 1]);
      var before := [head, ""] + Entries(init);
      LinesJoin(head, init);
      assert Entries(results) == Entries(init) + [e];
      assert [head, ""] + Entries(results) == before + [e];
      JoinSnoc(before, e, '\n');
      calc {
        head + "\n\n" + Lines(results);
        head + "\n\n" + (Lines(init) + e + "\n");
        (head + "\n\n" + Lines(init)) + e + "\n";
        (Join(before, '\n') + "\n") + e + "\n";
        Join(before + [e], '\n') + "\n";
      }
    }
  }

  lemma FooterJoin(parts: seq<string>, rule: string, last: string, sep: char)
    requires |parts| >= 1
    ensures Join(parts + ["", rule, last], sep) == Join(parts, sep) + [sep] + ([sep] + rule + [sep] + last)
  {
    JoinAppend(parts, ["", rule, last], sep);
    assert ["", rule, last][1..] == [rule, last];
    assert [rule, last][1..] == [last];
    assert Join([rule, last], sep) == rule + [sep] + last;
    assert Join(["", rule, last], sep) == "" + [sep] + (rule + [sep] + last);
    assert "" + [sep] + (rule + [sep] + last) == [sep] + rule + [sep] + last;
  }

  /** The lines of the listing: header, blank, entries, blank, rule, hint. */
  function ListingLines(query: string, results: seq<Record>): seq<string>
  {
    [HeaderLine(query, |results|), ""] + Entries(results) + ["", "---", FooterLine]
  }

  lemma ListingJoined(query: string, results: seq<Record>)
    ensures ListingText(query, results) == Join(ListingLines(query, results), '\n')
  {
    var head := HeaderLine(query, |results|);
    LinesJoin(head, results);
    FooterJoin([head, ""] + Entries(results), "---", FooterLine, '\n');
  }

  lemma ListingLinesSingle(query: string, results: seq<Record>)
    requires '\n' !in query
    requires forall k :: 0 <= k < |results| ==> '\n' !in results[k].title && '\n' !in results[k].link
    ensures forall k :: 0 <= k < |ListingLines(query, results)| ==> '\n' !in ListingLines(query, results)[k]
  {
    var pieces := ListingLines(query, results);
    forall k | 0 <= k < |pieces| ensures '\n' !in pieces[k] {
      if 2 <= k < 2 + |results| {
        assert pieces[k] == Entry(k - 1, results[k - 2]);
      }
    }
  }

  /**
   * Read line by line, the listing is the header line (query and count), a
   * blank line, one numbered entry per result in result order, a blank line,
   * the rule and the closing hint, provided no text in it spans several lines.
   */
  lemma ListingReadsBack(query: string, results: seq<Record>)
    requires '\n' !in query
    requires forall k :: 0 <= k < |results| ==> '\n' !in results[k].title && '\n' !in results[k].link
    ensures Split(ListingText(query, results), '\n')
         == [HeaderLine(query, |results|), ""] + Entries(results) + ["", "---", FooterLine]
  {
    ListingJoined(query, results);
    ListingLinesSingle(query, results);
    SplitJoin(ListingLines(query, results), '\n');
  }

  // ---------------------------------------------------------------------------
  // The handler.

  /**
   * `replies` are the texts sent, in order; `searched` the queries the search
   * was called with. A gated message gets no reply and no search. Otherwise
   * the query is searched once, the "searching" notice goes first, and exactly
   * one more reply follows: the failure text when the search raised, the
   * warning when it found nothing, the listing otherwise.
   */
  method SearchHandler(text: string, search: string -> SearchOutcome)
    returns (replies: seq<string>, searched: seq<string>)
    ensures Gate(text).None? ==> replies == [] && searched == []
    ensures Gate(text).Some? ==>
              var query := Gate(text).value;
              && searched == [query]
              && |replies| == 2
              && replies[0] == SearchingReply(query)
              && replies[1] == match search(query)
                               case Failed(m) => FailureReply(m)
                               case Found(rs) => if rs == [] then NoResultsReply else ListingText(query, rs)
  {
    replies, searched := [], [];
    var query := Strip(text);
    if |query| > 0 && query[0] == '/' {
      return;
    }
    if |query| == 0 {
      return;
    }
    replies := replies + [SearchingReply(query)];
    searched := searched + [query];
    var outcome := search(query);
    var results: seq<Record>;
    match outcome {
      case Failed(m) =>
        replies := replies + [FailureReply(m)];
        return;
      case Found(rs) =>
        results := rs;
    }
    if |results| == 0 {
      replies := replies + [NoResultsReply];
      return;
    }
    var listing := ComposeListing(query, results);
    replies := replies + [listing];
  }
}
