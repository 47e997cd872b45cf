/**
 * The last stage of `search_telegram`: from the anchors the page selector
 * found, in document order, keep those with a non-empty title and link,
 * drop every later anchor whose link was already kept, and return at most
 * twenty records.
 */
module ResultExtraction {
  import opened Wrappers

  /** A selected anchor: its stripped text and its `href` attribute, if any. */
  datatype Anchor = Anchor(title: string, href: Option<string>)

  datatype Record = Record(title: string, link: string)

  const MaxResults: nat := 20

  /** `if title and link`: both present and non-empty. */
  predicate Usable(a: Anchor)
  {
    a.title != "" && a.href.Some? && a.href.value != ""
  }

  function RecordOf(a: Anchor): (r: Record)
    requires Usable(a)
    ensures r.title != "" && r.link != ""
  {
    Record(a.title, a.href.value)
  }

  function LinksOf(rs: seq<Record>): set<string>
  {
    set k | 0 <= k < |rs| :: rs[k].link
  }

  /** The distinct links among the usable anchors. */
  function UsableLinks(items: seq<Anchor>): set<string>
  {
    set j | 0 <= j < |items| && Usable(items[j]) :: items[j].href.value
  }

  /** The records the loop has kept after reading `items` in order. */
  function Deduplicate(items: seq<Anchor>): seq<Record>
  {
    if |items| == 0 then []
    else
      var kept := Deduplicate(items[..|items| - 1]);
      var a := items[|items| - 1];
      if Usable(a) && a.href.value !in LinksOf(kept) then kept + [RecordOf(a)] else kept
  }

  /** `results[:20]`. */
  function SearchResults(items: seq<Anchor>): seq<Record>
  {
    var kept := Deduplicate(items);
    if |kept| <= MaxResults then kept else kept[..MaxResults]
  }

  /** Anchor `j` is usable and no earlier usable anchor has its link. */
  predicate IsFirstOccurrence(items: seq<Anchor>, j: int)
  {
    0 <= j < |items| && Usable(items[j])
    && forall i :: 0 <= i < j ==> !(Usable(items[i]) && items[i].href.value == items[j].href.value)
  }

  predicate DistinctLinks(rs: seq<Record>)
  {
    forall i, j :: 0 <= i < j < |rs| ==> rs[i].link != rs[j].link
  }

  lemma LinksOfSnoc(rs: seq<Record>, r: Record)
    ensures LinksOf(rs + [r]) == LinksOf(rs) + {r.link}
  {
    var both := rs + [r];
    forall x | x in LinksOf(rs) ensures x in LinksOf(both) {
      var k :| 0 <= k < |rs| && rs[k].link == x;
      assert both[k].link == x;
    }
    assert both[|rs|].link == r.link;
  }

  lemma UsableLinksSnoc(items: seq<Anchor>)
    requires |items| > 0
    ensures var init, a := items[..|items| - 1], items[|items| - 1];
            UsableLinks(items) == UsableLinks(init) + (if Usable(a) then {a.href.value} else {})
  {
    var init := items[..|items| - 1];
    forall x | x in UsableLinks(init) ensures x in UsableLinks(items) {
      var j :| 0 <= j < |init| && Usable(init[j]) && init[j].href.value == x;
      assert items[j] == init[j];
    }
    forall x | x in UsableLinks(items)
      ensures x in UsableLinks(init) || (Usable(items[|items| - 1]) && x == items[|items| - 1].href.value)
    {
      var j :| 0 <= j < |items| && Usable(items[j]) && items[j].href.value == x;
      if j < |items| - 1 {
        assert init[j] == items[j];
      }
    }
  }

  /** The kept links are exactly the usable links: nothing usable is lost. */
  lemma {:induction false} DeduplicateLinks(items: seq<Anchor>)
    ensures LinksOf(Deduplicate(items)) == UsableLinks(items)
  {
    if |items| > 0 {
      var init, a := items[..|items| - 1], items[|items| - 1];
      DeduplicateLinks(init);
      UsableLinksSnoc(items);
      if Usable(a) && a.href.value !in LinksOf(Deduplicate(init)) {
        LinksOfSnoc(Deduplicate(init), RecordOf(a));
      }
    }
  }

  /** No two kept records share a link, and every kept record has a title and a link. */
  lemma {:induction false} DeduplicateDistinct(items: seq<Anchor>)
    ensures DistinctLinks(Deduplicate(items))
    ensures forall k :: 0 <= k < |Deduplicate(items)| ==>
              Deduplicate(items)[k].title != "" && Deduplicate(items)[k].link != ""
  {
    if |items| > 0 {
      var init, a := items[..|items| - 1], items[|items| - 1];
      DeduplicateDistinct(init);
      var kept := Deduplicate(init);
      if Usable(a) && a.href.value !in LinksOf(kept) {
        forall k | 0 <= k < |kept| ensures kept[k].link != a.href.value {
          assert kept[k].link in LinksOf(kept);
        }
      }
    }
  }

  /** Reading one more anchor leaves earlier first occurrences as they were, and
      the new anchor is a first occurrence exactly when the loop keeps it. */
  lemma FirstOccurrenceSnoc(items: seq<Anchor>)
    requires |items| > 0
    ensures var n := |items| - 1;
            forall j :: 0 <= j < n ==> IsFirstOccurrence(items, j) == IsFirstOccurrence(items[..n], j)
    ensures var n := |items| - 1;
            IsFirstOccurrence(items, n)
              == (Usable(items[n]) && items[n].href.value !in LinksOf(Deduplicate(items[..n])))
  {
    var n := |items| - 1;
    var init, a := items[..n], items[n];
    forall j | 0 <= j < n ensures IsFirstOccurrence(items, j) == IsFirstOccurrence(init, j) {
      assert forall i :: 0 <= i <= j ==> items[i] == init[i];
    }
    DeduplicateLinks(init);
    if Usable(a) {
      if a.href.value in UsableLinks(init) {
        var i :| 0 <= i < n && Usable(init[i]) && init[i].href.value == a.href.value;
        assert items[i] == init[i];
      } else {
        forall i | 0 <= i < n ensures !(Usable(items[i]) && items[i].href.value == a.href.value) {
          assert items[i] == init[i];
          if Usable(init[i]) {
            assert init[i].href.value in UsableLinks(init);
          }
        }
      }
    }
  }

  /**
   * The kept records are, in order, the first occurrences of the usable links:
   * `idx` lists the anchors they came from, strictly increasing, each the first
   * usable anchor with its link, and every such first occurrence is listed. So a
   * later duplicate never replaces the title of the first.
   */
  lemma {:induction false} DeduplicateFirstOccurrences(items: seq<Anchor>) returns (idx: seq<nat>)
    ensures |idx| == |Deduplicate(items)|
    ensures forall k, m :: 0 <= k < m < |idx| ==> idx[k] < idx[m]
    ensures forall k :: 0 <= k < |idx| ==>
              IsFirstOccurrence(items, idx[k]) && Deduplicate(items)[k] == RecordOf(items[idx[k]])
    ensures forall j :: IsFirstOccurrence(items, j) ==> j in idx
  {
    if |items| == 0 {
      idx := [];
    } else {
      var n := |items| - 1;
      var prev := DeduplicateFirstOccurrences(items[..n]);
      FirstOccurrenceSnoc(items);
      assert forall k :: 0 <= k < |prev| ==> prev[k] < n;
      if IsFirstOccurrence(items, n) {
        idx := prev + [n];
      } else {
        idx := prev;
      }
    }
  }

  lemma {:induction false} DistinctLinksCount(rs: seq<Record>)
    requires DistinctLinks(rs)
    ensures |LinksOf(rs)| == |rs|
  {
    if |rs| > 0 {
      var init := rs[..|rs| - 1];
      assert DistinctLinks(init);
      DistinctLinksCount(init);
      LinksOfSnoc(init, rs[|rs| - 1]);
      assert init + [rs[|rs| - 1]] == rs;
      forall k | 0 <= k < |init| ensures init[k].link != rs[|rs| - 1].link {
        assert init[k] == rs[k];
      }
    }
  }

  /**
   * What `search_telegram` returns: the first min(20, d) first-occurrence
   * records, where d is the number of distinct usable links; no anchors give
   * no records.
   */
  lemma SearchResultsSpec(items: seq<Anchor>)
    ensures var d := |UsableLinks(items)|;
            |SearchResults(items)| == (if d < MaxResults then d else MaxResults)
    ensures SearchResults(items) <= Deduplicate(items)
    ensures DistinctLinks(SearchResults(items))
    ensures forall k :: 0 <= k < |SearchResults(items)| ==>
              SearchResults(items)[k].title != "" && SearchResults(items)[k].link != ""
    ensures items == [] ==> SearchResults(items) == []
  {
    DeduplicateDistinct(items);
    DeduplicateLinks(items);
    DistinctLinksCount(Deduplicate(items));
  }

  /** Usable anchors with pairwise different links are all kept, in order. */
  lemma {:induction false} DeduplicateUnique(items: seq<Anchor>)
    requires forall j :: 0 <= j < |items| ==> Usable(items[j])
    requires forall i, j :: 0 <= i < j < |items| ==> items[i].href != items[j].href
    ensures Deduplicate(items) == seq(|items|, k requires 0 <= k < |items| => RecordOf(items[k]))
  {
    if |items| > 0 {
      var n := |items| - 1;
      var init, a := items[..n], items[n];
      DeduplicateUnique(init);
      DeduplicateLinks(init);
      forall j | 0 <= j < n && Usable(init[j]) ensures init[j].href.value != a.href.value {
        assert items[j] == init[j];
      }
      assert a.href.value !in UsableLinks(init);
    }
  }

  /** With more than twenty such anchors, the first twenty are returned. */
  lemma SearchResultsUniqueOverflow(items: seq<Anchor>)
    requires |items| > MaxResults
    requires forall j :: 0 <= j < |items| ==> Usable(items[j])
    requires forall i, j :: 0 <= i < j < |items| ==> items[i].href != items[j].href
    ensures SearchResults(items) == seq(MaxResults, k requires 0 <= k < MaxResults => RecordOf(items[k]))
  {
    DeduplicateUnique(items);
  }

  /** Links `x`, `y`, `x`: the repeated link is skipped and keeps the first title. */
  lemma SearchResultsRepeatedLink(t1: string, t2: string, t3: string, x: string, y: string)
    requires t1 != "" && t2 != "" && t3 != "" && x != "" && y != "" && x != y
    ensures SearchResults([Anchor(t1, Some(x)), Anchor(t2, Some(y)), Anchor(t3, Some(x))])
         == [Record(t1, x), Record(t2, y)]
  {
    var a1, a2, a3 := Anchor(t1, Some(x)), Anchor(t2, Some(y)), Anchor(t3, Some(x));
    var r1, r2 := Record(t1, x), Record(t2, y);
    assert [a1][..0] == [] && [a1, a2][..1] == [a1] && [a1, a2, a3][..2] == [a1, a2];
    assert Deduplicate([a1]) == [r1] by {
      assert LinksOf([]) == {};
    }
    assert Deduplicate([a1, a2]) == [r1, r2] by {
      LinksOfSnoc([], r1);
      assert [] + [r1] == [r1];
    }
    LinksOfSnoc([r1], r2);
    assert [r1] + [r2] == [r1, r2];
    LinksOfSnoc([], r1);
    assert [] + [r1] == [r1];
  }

  /** The loop of `search_telegram` over the selected anchors, then `results[:20]`. */
  method ExtractResults(items: seq<Anchor>) returns (results: seq<Record>)
    ensures results == SearchResults(items)
  {
    var seenLinks: set<string> := {};
    var kept: seq<Record> := [];
    for i := 0 to |items|
      invariant kept == Deduplicate(items[..i])
      invariant seenLinks == LinksOf(kept)
    {
      var a := items[i];
      if a.title != "" && a.href.Some? && a.href.value != "" {
        var link := a.href.value;
        if link !in seenLinks {
          seenLinks := seenLinks + {link};
          LinksOfSnoc(kept, Record(a.title, link));
          kept := kept + [Record(a.title, link)];
        }
      }
      assert items[..i + 1][..i] == items[..i];
    }
    assert items[..|items|] == items;
    results := if |kept| <= MaxResults then kept else kept[..MaxResults];
  }
}
