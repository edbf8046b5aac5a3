/**
 * `get_links` of scraper.py: walk the result pages `<base>:p:1`,
 * `<base>:p:2`, ... newest first, collecting each card's `linkref`, until
 * the page bound, a failed fetch, an empty page, or the card whose external
 * id is the watermark (the last id stored by an earlier run).
 *
 * A page fetch is the parameter `fetchPage`: the cards the page at that URL
 * lists, or None when the request failed.
 */
module LinkDiscovery {
  import opened Wrappers
  import opened Text
  import opened Identity

  /** One `div.listingBox.sPremium` card: its `linkref` attribute, when present. */
  datatype Card = Card(linkref: Option<string>)

  /** The card's link is the listing seen last time. */
  predicate IsWatermark(link: string, watermark: Option<string>) {
    Truthy(watermark) && GetMubawabExternalId(link) == Some(watermark.value)
  }

  /** The card's link passes the stop test `isMark`. */
  predicate HitsMark(card: Card, isMark: string -> bool) {
    Truthy(card.linkref) && isMark(card.linkref.value)
  }

  /** The truthy `linkref`s of the cards, in card order, duplicates kept. */
  function Linkrefs(cards: seq<Card>): (links: seq<string>)
    ensures |links| <= |cards|
    ensures forall l :: l in links ==> l != ""
  {
    if |cards| == 0 then []
    else if Truthy(cards[0].linkref) then [cards[0].linkref.value] + Linkrefs(cards[1..])
    else Linkrefs(cards[1..])
  }

  lemma {:induction false} LinkrefsAppend(a: seq<Card>, b: seq<Card>)
    ensures Linkrefs(a + b) == Linkrefs(a) + Linkrefs(b)
  {
    if |a| > 0 {
      assert (a + b)[1..] == a[1..] + b;
      LinkrefsAppend(a[1..], b);
    } else {
      assert a + b == b;
    }
  }

  /** Index of the first card carrying the watermark, or |cards| when none does. */
  function FirstHit(cards: seq<Card>, isMark: string -> bool): (k: nat)
    ensures k <= |cards|
    ensures forall j :: 0 <= j < k ==> !HitsMark(cards[j], isMark)
    ensures k < |cards| ==> HitsMark(cards[k], isMark)
  {
    if |cards| == 0 then 0
    else if HitsMark(cards[0], isMark) then 0
    else 1 + FirstHit(cards[1..], isMark)
  }

  /**
   * The inner `for listing in listings` loop: the links one page adds, and
   * whether it met the watermark (which sets `stop_pagination`).
   */
  function ScanPage(cards: seq<Card>, isMark: string -> bool): (r: (seq<string>, bool))
    ensures forall l :: l in r.0 ==> l != "" && !isMark(l)
  {
    if |cards| == 0 then ([], false)
    else if !Truthy(cards[0].linkref) then ScanPage(cards[1..], isMark)
    else if isMark(cards[0].linkref.value) then ([], true)
    else
      var rest := ScanPage(cards[1..], isMark);
      ([cards[0].linkref.value] + rest.0, rest.1)
  }

  /**
   * A page yields exactly the links of the cards before the first watermark
   * card, and reports a hit exactly when there is such a card: nothing at or
   * after the watermark is returned.
   */
  lemma {:induction false} ScanPageStopsAtWatermark(cards: seq<Card>, isMark: string -> bool)
    ensures ScanPage(cards, isMark).0 == Linkrefs(cards[..FirstHit(cards, isMark)])
    ensures ScanPage(cards, isMark).1 <==> FirstHit(cards, isMark) < |cards|
  {
    if |cards| > 0 && !HitsMark(cards[0], isMark) {
      var tail := cards[1..];
      ScanPageStopsAtWatermark(tail, isMark);
      ScanPagePastCard(cards, isMark);
      var k := FirstHit(tail, isMark);
      assert cards[..1 + k] == [cards[0]] + tail[..k];
      LinkrefsAppend([cards[0]], tail[..k]);
    }
  }

  /** A first card that is not the watermark adds its own link, if any, and the scan goes on. */
  lemma ScanPagePastCard(cards: seq<Card>, isMark: string -> bool)
    requires |cards| > 0 && !HitsMark(cards[0], isMark)
    ensures FirstHit(cards, isMark) == 1 + FirstHit(cards[1..], isMark)
    ensures ScanPage(cards, isMark).0 == Linkrefs([cards[0]]) + ScanPage(cards[1..], isMark).0
    ensures ScanPage(cards, isMark).1 == ScanPage(cards[1..], isMark).1
  {
    assert [cards[0]][1..] == [];
  }

  /** The stop test of a run: the card's link resolves to the watermark id. */
  function WatermarkTest(watermark: Option<string>): string -> bool {
    link => IsWatermark(link, watermark)
  }

  /** Without a watermark (first run) a page contributes every truthy link it lists. */
  lemma NoWatermarkKeepsEveryLink(cards: seq<Card>, watermark: Option<string>)
    requires !Truthy(watermark)
    ensures ScanPage(cards, WatermarkTest(watermark)) == (Linkrefs(cards), false)
  {
    ScanPageStopsAtWatermark(cards, WatermarkTest(watermark));
    assert cards[..FirstHit(cards, WatermarkTest(watermark))] == cards;
  }

  /** `f"{base_url}:p:{page}"`. */
  function PageUrl(base: string, page: nat): (u: string)
    ensures u == base + ":p:" + NatToString(page)
    ensures |u| > |base| + 3
  {
    base + ":p:" + NatToString(page)
  }

  /** The URLs of `n` consecutive pages from page `first` on. */
  function PageRange(base: string, first: nat, n: nat): (urls: seq<string>)
    ensures |urls| == n
    decreases n
  {
    if n == 0 then [] else [PageUrl(base, first)] + PageRange(base, first + 1, n - 1)
  }

  lemma {:induction false} PageRangeAt(base: string, first: nat, n: nat, i: nat)
    requires i < n
    ensures PageRange(base, first, n)[i] == PageUrl(base, first + i)
    decreases i
  {
    if i > 0 {
      PageRangeAt(base, first + 1, n - 1, i - 1);
    }
  }

  /** A fetched page after which the walk goes on: fetched, non-empty, no watermark. */
  predicate Continues(fetched: Option<seq<Card>>, watermark: Option<string>) {
    fetched.Some? && |fetched.value| > 0 && !ScanPage(fetched.value, WatermarkTest(watermark)).1
  }

  /** The links a fetched page adds (none when the fetch failed). */
  function PageLinks(fetched: Option<seq<Card>>, watermark: Option<string>): seq<string> {
    if fetched.Some? then ScanPage(fetched.value, WatermarkTest(watermark)).0 else []
  }

  /** The links of the requested pages, page after page. */
  function LinksOf(urls: seq<string>, fetchPage: string -> Option<seq<Card>>, watermark: Option<string>): seq<string> {
    if |urls| == 0 then [] else PageLinks(fetchPage(urls[0]), watermark) + LinksOf(urls[1..], fetchPage, watermark)
  }

  /** The number of pages from `page` to `maxPages`. */
  function PagesLeft(page: nat, maxPages: int): nat {
    if page <= maxPages then maxPages - page + 1 else 0
  }

  /**
   * The `while` loop from `page` on: the links gathered and the page URLs
   * requested, in order. At most `max_pages` pages are requested.
   */
  function Crawl(base: string, page: nat, maxPages: int, watermark: Option<string>,
                 fetchPage: string -> Option<seq<Card>>): (r: (seq<string>, seq<string>))
    ensures |r.1| <= PagesLeft(page, maxPages)
    ensures |r.1| > 0 <==> page <= maxPages
    decreases maxPages - page
  {
    if page > maxPages then ([], [])
    else
      var url := PageUrl(base, page);
      var fetched := fetchPage(url);
      if !Continues(fetched, watermark) then (PageLinks(fetched, watermark), [url])
      else
        var rest := Crawl(base, page + 1, maxPages, watermark, fetchPage);
        (ScanPage(fetched.value, WatermarkTest(watermark)).0 + rest.0, [url] + rest.1)
  }

  /** The pages requested are `page`, `page + 1`, ... with none skipped. */
  lemma {:induction false} CrawlRequestsConsecutivePages(base: string, page: nat, maxPages: int, watermark: Option<string>,
                                                         fetchPage: string -> Option<seq<Card>>)
    ensures var r := Crawl(base, page, maxPages, watermark, fetchPage);
      r.1 == PageRange(base, page, |r.1|)
    decreases maxPages - page
  {
    if page <= maxPages && Continues(fetchPage(PageUrl(base, page)), watermark) {
      CrawlRequestsConsecutivePages(base, page + 1, maxPages, watermark, fetchPage);
    }
  }

  /**
   * Every page but the last requested one was fetched, non-empty and free of
   * the watermark; the walk ends before `max_pages` only on a page that was
   * not.
   */
  lemma {:induction false} CrawlStopsOnlyWhenDone(base: string, page: nat, maxPages: int, watermark: Option<string>,
                                                  fetchPage: string -> Option<seq<Card>>)
    ensures var r := Crawl(base, page, maxPages, watermark, fetchPage);
      && (forall i :: 0 <= i < |r.1| - 1 ==> Continues(fetchPage(r.1[i]), watermark))
      && (|r.1| == PagesLeft(page, maxPages) || !Continues(fetchPage(r.1[|r.1| - 1]), watermark))
    decreases maxPages - page
  {
    var r := Crawl(base, page, maxPages, watermark, fetchPage);
    if page <= maxPages && Continues(fetchPage(PageUrl(base, page)), watermark) {
      var rest := Crawl(base, page + 1, maxPages, watermark, fetchPage);
      CrawlStopsOnlyWhenDone(base, page + 1, maxPages, watermark, fetchPage);
      assert r.1 == [PageUrl(base, page)] + rest.1;
      forall i | 0 <= i < |r.1| - 1
        ensures Continues(fetchPage(r.1[i]), watermark)
      {
        if i > 0 {
          assert r.1[i] == rest.1[i - 1];
        }
      }
      if |rest.1| > 0 {
        assert r.1[|r.1| - 1] == rest.1[|rest.1| - 1];
      }
    }
  }

  /** The links are those of the requested pages, in page order, duplicates kept. */
  lemma {:induction false} CrawlLinksInPageOrder(base: string, page: nat, maxPages: int, watermark: Option<string>,
                                                 fetchPage: string -> Option<seq<Card>>)
    ensures var r := Crawl(base, page, maxPages, watermark, fetchPage);
      r.0 == LinksOf(r.1, fetchPage, watermark)
    decreases maxPages - page
  {
    if page <= maxPages {
      var url := PageUrl(base, page);
      if Continues(fetchPage(url), watermark) {
        var rest := Crawl(base, page + 1, maxPages, watermark, fetchPage);
        CrawlLinksInPageOrder(base, page + 1, maxPages, watermark, fetchPage);
        assert ([url] + rest.1)[1..] == rest.1;
      } else {
        assert [url][1..] == [];
      }
    }
  }

  /** No link the walk returns is the watermark listing. */
  lemma {:induction false} CrawlNeverReturnsWatermark(urls: seq<string>, fetchPage: string -> Option<seq<Card>>,
                                                      watermark: Option<string>)
    ensures forall l :: l in LinksOf(urls, fetchPage, watermark) ==> l != "" && !IsWatermark(l, watermark)
  {
    if |urls| > 0 {
      CrawlNeverReturnsWatermark(urls[1..], fetchPage, watermark);
    }
  }

  /** A watermark on the first card of page 1 (a run with nothing new) yields no link and one request. */
  lemma NothingNewStopsAtOnce(base: string, maxPages: int, watermark: Option<string>,
                              fetchPage: string -> Option<seq<Card>>, cards: seq<Card>)
    requires 1 <= maxPages
    requires fetchPage(PageUrl(base, 1)) == Some(cards)
    requires |cards| > 0 && HitsMark(cards[0], WatermarkTest(watermark))
    ensures Crawl(base, 1, maxPages, watermark, fetchPage) == ([], [PageUrl(base, 1)])
  {
  }

  /** Requests stop at the first failed fetch: nothing after it is asked for. */
  lemma {:induction false} StopsAtFailedFetch(base: string, page: nat, maxPages: int, watermark: Option<string>,
                                              fetchPage: string -> Option<seq<Card>>, failed: nat)
    requires page <= failed <= maxPages
    requires fetchPage(PageUrl(base, failed)).None?
    ensures |Crawl(base, page, maxPages, watermark, fetchPage).1| <= failed - page + 1
    decreases failed - page
  {
    if page < failed && Continues(fetchPage(PageUrl(base, page)), watermark) {
      StopsAtFailedFetch(base, page + 1, maxPages, watermark, fetchPage, failed);
    }
  }

  /** The `for listing in listings` loop over one page's cards. */
  method ScanListings(cards: seq<Card>, watermark: Option<string>) returns (pageLinks: seq<string>, hit: bool)
    ensures (pageLinks, hit) == ScanPage(cards, WatermarkTest(watermark))
  {
    pageLinks := [];
    hit := false;
    var j := 0;
    assert cards[j..] == cards;
    while j < |cards|
      invariant 0 <= j <= |cards|
      invariant pageLinks + ScanPage(cards[j..], WatermarkTest(watermark)).0 == ScanPage(cards, WatermarkTest(watermark)).0
      invariant ScanPage(cards[j..], WatermarkTest(watermark)).1 == ScanPage(cards, WatermarkTest(watermark)).1
      invariant !hit
    {
      assert cards[j..][1..] == cards[j + 1..];
      var link := cards[j].linkref;
      if !Truthy(link) {
        j := j + 1;
        continue;
      }
      if IsWatermark(link.value, watermark) {
        assert cards[j..][0] == cards[j];
        assert ScanPage(cards[j..], WatermarkTest(watermark)) == ([], true);
        assert pageLinks + [] == pageLinks;
        hit := true;
        return;
      }
      pageLinks := pageLinks + [link.value];
      j := j + 1;
    }
    assert cards[j..] == [];
    assert ScanPage(cards[j..], WatermarkTest(watermark)) == ([], false);
    assert pageLinks + [] == pageLinks;
  }

  /**
   * One turn of the page loop: with `links` and `requested` gathered so far
   * and the walk from `page` still to come, request the page, then either
   * stop with its links or go on with the next page.
   */
  lemma CrawlAdvance(base: string, page: nat, maxPages: int, watermark: Option<string>,
                     fetchPage: string -> Option<seq<Card>>, links: seq<string>, requested: seq<string>,
                     total: (seq<string>, seq<string>))
    requires page <= maxPages
    requires links + Crawl(base, page, maxPages, watermark, fetchPage).0 == total.0
    requires requested + Crawl(base, page, maxPages, watermark, fetchPage).1 == total.1
    ensures var fetched := fetchPage(PageUrl(base, page));
      var requested' := requested + [PageUrl(base, page)];
      if !Continues(fetched, watermark) then links + PageLinks(fetched, watermark) == total.0 && requested' == total.1
      else
        var rest := Crawl(base, page + 1, maxPages, watermark, fetchPage);
        (links + ScanPage(fetched.value, WatermarkTest(watermark)).0) + rest.0 == total.0 && requested' + rest.1 == total.1
  {
    var url := PageUrl(base, page);
    if Continues(fetchPage(url), watermark) {
      var rest := Crawl(base, page + 1, maxPages, watermark, fetchPage);
      assert (links + ScanPage(fetchPage(url).value, WatermarkTest(watermark)).0) + rest.0
          == links + (ScanPage(fetchPage(url).value, WatermarkTest(watermark)).0 + rest.0);
      assert (requested + [url]) + rest.1 == requested + ([url] + rest.1);
    }
  }

  /**
   * `get_links(base_url, max_pages)` with the watermark given: the links in
   * the order found and the page URLs it requested.
   */
  method GetLinks(base: string, maxPages: int, watermark: Option<string>,
                  fetchPage: string -> Option<seq<Card>>) returns (links: seq<string>, requested: seq<string>)
    ensures (links, requested) == Crawl(base, 1, maxPages, watermark, fetchPage)
  {
    ghost var total := Crawl(base, 1, maxPages, watermark, fetchPage);
    links := [];
    requested := [];
    var page: nat := 1;
    var stop := false;
    assert links + total.0 == total.0 && requested + total.1 == total.1;
    while page <= maxPages && !stop
      invariant 1 <= page
      invariant !stop ==> links + Crawl(base, page, maxPages, watermark, fetchPage).0 == total.0
      invariant !stop ==> requested + Crawl(base, page, maxPages, watermark, fetchPage).1 == total.1
      invariant stop ==> links == total.0 && requested == total.1
      decreases maxPages - page
    {
      CrawlAdvance(base, page, maxPages, watermark, fetchPage, links, requested, total);
      var url := PageUrl(base, page);
      requested := requested + [url];
      var fetched := fetchPage(url);
      if fetched.None? {
        assert links + [] == links;
        return;
      }
      var cards := fetched.value;
      if |cards| == 0 {
        assert links + [] == links;
        return;
      }
      var pageLinks, hit := ScanListings(cards, watermark);
      links := links + pageLinks;
      if hit {
        stop := true;
      }
      page := page + 1;
    }
    if !stop {
      assert links + [] == links && requested + [] == requested;
    }
  }
}
