/** PubMedCrawlerService.searchAndCrawl: fetch the search results page, turn
    each listing block into a record, enrich the records from their detail
    pages when a browser driver is injected, save them, and report progress
    all along. The listing page, the browser and the detail pages are
    parameters: `fetch` is the listing page each URL yields (or the exception
    the fetch raises), `launch` the driver each detail attempt is able to
    start, `detail` what each detail URL renders. */
module Crawler {
  import opened Common
  import opened Entities
  import opened ListingExtraction
  import opened DetailExtraction
  import opened CrawlProgressTracking
  import opened Store

  /** The search results page, or the message of the exception fetching it
      raised. */
  datatype ListingFetch = Fetched(blocks: seq<ListingBlock>) | FetchError(message: string)

  const TERM_PARAMETER: string := "/?term="
  const SIZE_PARAMETER: string := "&size="

  /** The search URL: the term as given (not URL-encoded) and the page size. */
  function SearchUrl(term: string, maxResults: int): string {
    PUBMED_BASE_URL + TERM_PARAMETER + term + SIZE_PARAMETER + IntToString(maxResults)
  }

  /** The URL carries the term right after the base and the term parameter,
      and its tail reads back as the requested size. */
  lemma SearchUrlCarriesTermAndSize(term: string, maxResults: nat)
    ensures var url := SearchUrl(term, maxResults);
      var head := PUBMED_BASE_URL + TERM_PARAMETER + term + SIZE_PARAMETER;
      && head <= url
      && url[|PUBMED_BASE_URL + TERM_PARAMETER|..|PUBMED_BASE_URL + TERM_PARAMETER| + |term|] == term
      && AllDigits(url[|head|..]) && DigitsValue(url[|head|..]) == maxResults
  {
    var head := PUBMED_BASE_URL + TERM_PARAMETER + term + SIZE_PARAMETER;
    var url := SearchUrl(term, maxResults);
    assert url == head + NatToString(maxResults);
    assert url[|head|..] == NatToString(maxResults);
    NatToStringRoundTrip(maxResults);
  }

  // ---------------------------------------------------------------------------
  // What a crawl reports, keeps and quits, as functions of its inputs.

  /** The listing loop's reports: after the n-th kept record, n of the
      `total` blocks. */
  function BasicReports(term: string, n: nat, total: int): (cs: seq<Call>)
    ensures |cs| == n
  {
    seq(n, j => Update(term, j + 1, ExtractingBasics(j + 1, total)))
  }

  lemma BasicReportsStep(term: string, n: nat, total: int)
    ensures BasicReports(term, n + 1, total)
      == BasicReports(term, n, total) + [Update(term, n + 1, ExtractingBasics(n + 1, total))]
  {
    var longer := BasicReports(term, n + 1, total);
    var shorter := BasicReports(term, n, total) + [Update(term, n + 1, ExtractingBasics(n + 1, total))];
    assert forall j :: 0 <= j < n + 1 ==> longer[j] == shorter[j];
  }

  /** The detail loop's reports: the processed count stays at `processed`,
      the status counts detail pages 1..k of n. */
  function DetailReports(term: string, processed: int, k: nat, n: int): (cs: seq<Call>)
    ensures |cs| == k
  {
    seq(k, j => Update(term, processed, FetchingDetails(j + 1, n)))
  }

  lemma DetailReportsStep(term: string, processed: int, k: nat, n: int)
    ensures DetailReports(term, processed, k + 1, n)
      == DetailReports(term, processed, k, n) + [Update(term, processed, FetchingDetails(k + 1, n))]
  {
    var longer := DetailReports(term, processed, k + 1, n);
    var shorter := DetailReports(term, processed, k, n) + [Update(term, processed, FetchingDetails(k + 1, n))];
    assert forall j :: 0 <= j < k + 1 ==> longer[j] == shorter[j];
  }

  /** The reports after a listing page was fetched: one per kept record,
      one per detail page when a driver is injected, and the saving report
      when there is anything to save. */
  function FetchedReports(term: string, blocks: seq<ListingBlock>, injected: Option<WebDriver>): seq<Call> {
    var n := |BasicResults(blocks)|;
    BasicReports(term, n, |blocks|)
    + (if n > 0 && injected.Some? then [Update(term, n, FetchingDetails(0, n))] + DetailReports(term, n, n, n) else [])
    + (if n > 0 then [Update(term, n, Saving)] else [])
  }

  /** The calls after the listing fetch: the reports and completeCrawl when
      the page came in, failCrawl with the exception's message otherwise. */
  function CrawlTail(term: string, listing: ListingFetch, injected: Option<WebDriver>): seq<Call> {
    match listing
    case FetchError(message) => [Fail(term, message)]
    case Fetched(blocks) => FetchedReports(term, blocks, injected) + [Complete(term)]
  }

  /** Every call a crawl makes on the tracker, in order: the start, the
      searching report, and the tail. */
  function CrawlCalls(term: string, maxResults: int, listing: ListingFetch, injected: Option<WebDriver>): seq<Call> {
    [Start(term, maxResults), Update(term, 0, Searching)] + CrawlTail(term, listing, injected)
  }

  lemma Regroup(a: seq<Call>, b: seq<Call>, c: seq<Call>)
    ensures (a + b) + c == a + (b + c)
  {
  }

  /** Each listing record after its detail attempt; attempt k uses the
      k-th launch. */
  function DetailedRecords(ls: seq<Literature>, injected: Option<WebDriver>, launch: nat -> Option<nat>,
                           detail: string -> DetailFetch): (r: seq<Literature>)
    ensures |r| == |ls|
  {
    seq(|ls|, k requires 0 <= k < |ls| => DetailedInfo(ls[k], injected, launch(k), detail).0)
  }

  /** The drivers quit by the first n detail attempts, in order. */
  function DetailQuits(ls: seq<Literature>, injected: Option<WebDriver>, launch: nat -> Option<nat>,
                       detail: string -> DetailFetch, n: nat): seq<WebDriver>
    requires n <= |ls|
  {
    if n == 0 then []
    else DetailQuits(ls, injected, launch, detail, n - 1) + DetailedInfo(ls[n - 1], injected, launch(n - 1), detail).1
  }

  /** The list searchAndCrawl returns. */
  function CrawlResults(listing: ListingFetch, injected: Option<WebDriver>, launch: nat -> Option<nat>,
                        detail: string -> DetailFetch): seq<Literature>
  {
    match listing
    case FetchError(_) => []
    case Fetched(blocks) =>
      var basic := BasicResults(blocks);
      if injected.Some? then DetailedRecords(basic, injected, launch, detail) else basic
  }

  /** The drivers a crawl quits. */
  function CrawlQuits(listing: ListingFetch, injected: Option<WebDriver>, launch: nat -> Option<nat>,
                      detail: string -> DetailFetch): seq<WebDriver>
  {
    match listing
    case FetchError(_) => []
    case Fetched(blocks) =>
      var basic := BasicResults(blocks);
      if injected.Some? then DetailQuits(basic, injected, launch, detail, |basic|) else []
  }

  // ---------------------------------------------------------------------------
  // What a crawl leaves behind.

  /** Every report of a fetched crawl is an update of its own term. */
  lemma FetchedReportsAreUpdates(term: string, blocks: seq<ListingBlock>, injected: Option<WebDriver>)
    ensures AllUpdatesOf(term, [Update(term, 0, Searching)] + FetchedReports(term, blocks, injected))
  {
    var n := |BasicResults(blocks)|;
    var r1 := BasicReports(term, n, |blocks|);
    var r2: seq<Call> := if n > 0 && injected.Some? then [Update(term, n, FetchingDetails(0, n))] + DetailReports(term, n, n, n) else [];
    var r3: seq<Call> := if n > 0 then [Update(term, n, Saving)] else [];
    assert FetchedReports(term, blocks, injected) == r1 + r2 + r3;
    BasicReportsAreUpdates(term, n, |blocks|);
    DetailPhaseIsUpdates(term, n, injected.Some?);
    var head := [Update(term, 0, Searching)];
    UpdatesOfAppend(term, head, r1);
    UpdatesOfAppend(term, head + r1, r2);
    UpdatesOfAppend(term, head + r1 + r2, r3);
  }

  lemma BasicReportsAreUpdates(term: string, n: nat, total: int)
    ensures AllUpdatesOf(term, BasicReports(term, n, total))
  {
  }

  lemma DetailPhaseIsUpdates(term: string, n: nat, injected: bool)
    ensures AllUpdatesOf(term, if n > 0 && injected then [Update(term, n, FetchingDetails(0, n))] + DetailReports(term, n, n, n) else [])
  {
    if n > 0 && injected {
      UpdatesOfAppend(term, [Update(term, n, FetchingDetails(0, n))], DetailReports(term, n, n, n));
    }
  }

  lemma UpdatesOfAppend(term: string, xs: seq<Call>, ys: seq<Call>)
    requires AllUpdatesOf(term, xs) && AllUpdatesOf(term, ys)
    ensures AllUpdatesOf(term, xs + ys)
  {
    forall j | 0 <= j < |xs + ys| ensures (xs + ys)[j].Update? && (xs + ys)[j].term == term {
      if j < |xs| {
        assert (xs + ys)[j] == xs[j];
      } else {
        assert (xs + ys)[j] == ys[j - |xs|];
      }
    }
  }

  /** A crawl whose listing page came in ends completed: processed equals
      the requested maximum, 100 percent, inactive, whatever the reports
      said along the way. */
  lemma CrawlCompletes(m: map<string, CrawlProgress>, term: string, maxResults: int,
                       blocks: seq<ListingBlock>, injected: Option<WebDriver>)
    ensures var e := ApplyAll(m, CrawlCalls(term, maxResults, Fetched(blocks), injected));
      term in e && e[term] == CrawlProgress(term, maxResults, maxResults, 100, Completed, false)
  {
    var cs := [Update(term, 0, Searching)] + FetchedReports(term, blocks, injected);
    FetchedReportsAreUpdates(term, blocks, injected);
    CompleteOverridesUpdates(m, term, maxResults, cs);
    assert CrawlCalls(term, maxResults, Fetched(blocks), injected) == [Start(term, maxResults)] + cs + [Complete(term)];
  }

  /** A crawl whose listing fetch raised ends failed with the exception's
      message, nothing processed and 0 percent. */
  lemma CrawlFailureEntry(m: map<string, CrawlProgress>, term: string, maxResults: int, message: string,
                          injected: Option<WebDriver>)
    ensures var e := ApplyAll(m, CrawlCalls(term, maxResults, FetchError(message), injected));
      term in e && e[term] == CrawlProgress(term, maxResults, 0, 0, Failed(message), false)
  {
    var cs := [Update(term, 0, Searching)];
    FailFreezesProgress(m, term, maxResults, cs, message);
    assert CrawlCalls(term, maxResults, FetchError(message), injected) == [Start(term, maxResults)] + cs + [Fail(term, message)];
    var before := ApplyAll(m, [Start(term, maxResults)] + cs);
    assert before[term] == Updated(Started(term, maxResults), 0, Searching) by {
      ApplyAllSnoc(m, [], Start(term, maxResults));
      assert [] + [Start(term, maxResults)] == [Start(term, maxResults)];
      ApplyAllSnoc(m, [Start(term, maxResults)], cs[0]);
    }
    assert Percentage(0, maxResults) == 0 by {
      if maxResults > 0 {
        assert JavaDiv(WrapInt32(0), maxResults) == 0;
      }
    }
  }

  /** A crawl changes no other term's progress entry. */
  lemma CrawlTouchesOnlyItsTerm(m: map<string, CrawlProgress>, term: string, maxResults: int,
                                listing: ListingFetch, injected: Option<WebDriver>, k: string)
    requires k != term
    ensures var e := ApplyAll(m, CrawlCalls(term, maxResults, listing, injected));
      (k in e) == (k in m) && (k in m ==> e[k] == m[k])
  {
    var cs := CrawlCalls(term, maxResults, listing, injected);
    assert AllCallsOf(term, cs) by {
      if listing.Fetched? {
        var ups := [Update(term, 0, Searching)] + FetchedReports(term, listing.blocks, injected);
        FetchedReportsAreUpdates(term, listing.blocks, injected);
        assert cs == [Start(term, maxResults)] + ups + [Complete(term)];
        forall j | 0 <= j < |cs| ensures cs[j].term == term {
          if 0 < j <= |ups| {
            assert cs[j] == ups[j - 1];
          }
        }
      }
    }
    OtherTermsUntouched(m, term, cs, k);
  }

  /** A fetched crawl returns one record per block, less the broken blocks;
      a failed fetch returns none. */
  lemma CrawlResultCount(listing: ListingFetch, injected: Option<WebDriver>, launch: nat -> Option<nat>,
                         detail: string -> DetailFetch)
    ensures listing.FetchError? ==> CrawlResults(listing, injected, launch, detail) == []
    ensures listing.Fetched? ==>
      |CrawlResults(listing, injected, launch, detail)| == |listing.blocks| - BrokenCount(listing.blocks)
  {
    if listing.Fetched? {
      BasicResultsCount(listing.blocks);
    }
  }

  lemma {:induction false} DetailQuitsSpareInjected(ls: seq<Literature>, injected: Option<WebDriver>,
                                                   launch: nat -> Option<nat>, detail: string -> DetailFetch, n: nat)
    requires n <= |ls|
    ensures forall q :: q in DetailQuits(ls, injected, launch, detail, n) ==> Some(q) != injected
  {
    if n > 0 {
      DetailQuitsSpareInjected(ls, injected, launch, detail, n - 1);
      InjectedDriverNeverQuit(ls[n - 1], injected, launch(n - 1), detail);
    }
  }

  /** A crawl never quits the injected driver. */
  lemma CrawlNeverQuitsInjected(listing: ListingFetch, injected: Option<WebDriver>, launch: nat -> Option<nat>,
                                detail: string -> DetailFetch)
    ensures forall q :: q in CrawlQuits(listing, injected, launch, detail) ==> Some(q) != injected
  {
    if listing.Fetched? {
      var basic := BasicResults(listing.blocks);
      DetailQuitsSpareInjected(basic, injected, launch, detail, |basic|);
    }
  }

  /** The drivers the first n detail attempts manage to launch, in order:
      attempt k launches one exactly when `launch(k)` succeeds. */
  function Launched(launch: nat -> Option<nat>, n: nat): (ds: seq<WebDriver>)
    ensures |ds| <= n
    ensures forall d :: d in ds ==> d.isChromeDriver
  {
    if n == 0 then []
    else Launched(launch, n - 1) + (if launch(n - 1).Some? then [WebDriver(launch(n - 1).value, true)] else [])
  }

  /** When every launch succeeds, one driver is launched per attempt. */
  lemma {:induction false} LaunchedWhenAllSucceed(launch: nat -> Option<nat>, n: nat)
    requires forall k :: 0 <= k < n ==> launch(k).Some?
    ensures Launched(launch, n) == seq(n, k requires 0 <= k < n => WebDriver(launch(k).value, true))
  {
    if n > 0 {
      LaunchedWhenAllSucceed(launch, n - 1);
      var launched := seq(n, k requires 0 <= k < n => WebDriver(launch(k).value, true));
      assert launched[..n - 1] == seq(n - 1, k requires 0 <= k < n - 1 => WebDriver(launch(k).value, true));
      assert launched == launched[..n - 1] + [launched[n - 1]];
    }
  }

  /** With an injected driver that is not a ChromeDriver, the first n detail
      attempts quit exactly the drivers they launched, in order; an attempt
      whose launch raises quits nothing. */
  lemma {:induction false} DetailQuitsAreLaunches(ls: seq<Literature>, w: WebDriver, launch: nat -> Option<nat>,
                                                 detail: string -> DetailFetch, n: nat)
    requires n <= |ls| && !w.isChromeDriver
    ensures DetailQuits(ls, Some(w), launch, detail, n) == Launched(launch, n)
  {
    if n > 0 {
      DetailQuitsAreLaunches(ls, w, launch, detail, n - 1);
      if launch(n - 1).Some? {
        LaunchedDriverAlwaysQuit(ls[n - 1], w, launch(n - 1).value, detail);
      }
    }
  }

  /** With an injected driver that is not a ChromeDriver, a crawl quits
      every driver it launches, exactly once each, in record order, whether
      or not the other launches raise. */
  lemma CrawlQuitsEveryLaunchedDriver(blocks: seq<ListingBlock>, w: WebDriver, launch: nat -> Option<nat>,
                                      detail: string -> DetailFetch)
    requires !w.isChromeDriver
    ensures CrawlQuits(Fetched(blocks), Some(w), launch, detail) == Launched(launch, |BasicResults(blocks)|)
  {
    var basic := BasicResults(blocks);
    DetailQuitsAreLaunches(basic, w, launch, detail, |basic|);
  }

  /** When every launch succeeds, the crawl quits one launched driver per
      kept record, in record order. */
  lemma CrawlQuitsOnePerRecord(blocks: seq<ListingBlock>, w: WebDriver, launch: nat -> Option<nat>,
                               detail: string -> DetailFetch)
    requires !w.isChromeDriver
    requires forall k :: 0 <= k < |BasicResults(blocks)| ==> launch(k).Some?
    ensures var n := |BasicResults(blocks)|;
      CrawlQuits(Fetched(blocks), Some(w), launch, detail)
        == seq(n, k requires 0 <= k < n => WebDriver(launch(k).value, true))
  {
    CrawlQuitsEveryLaunchedDriver(blocks, w, launch, detail);
    LaunchedWhenAllSucceed(launch, |BasicResults(blocks)|);
  }

  lemma {:induction false} DetailQuitsWithChromeDriver(ls: seq<Literature>, w: WebDriver, launch: nat -> Option<nat>,
                                                      detail: string -> DetailFetch, n: nat)
    requires n <= |ls| && w.isChromeDriver
    ensures DetailQuits(ls, Some(w), launch, detail, n) == []
  {
    if n > 0 {
      DetailQuitsWithChromeDriver(ls, w, launch, detail, n - 1);
    }
  }

  /** An injected ChromeDriver serves every detail page and no driver is
      quit. */
  lemma CrawlWithChromeDriverQuitsNothing(listing: ListingFetch, w: WebDriver, launch: nat -> Option<nat>,
                                          detail: string -> DetailFetch)
    requires w.isChromeDriver
    ensures CrawlQuits(listing, Some(w), launch, detail) == []
  {
    if listing.Fetched? {
      var basic := BasicResults(listing.blocks);
      DetailQuitsWithChromeDriver(basic, w, launch, detail, |basic|);
    }
  }

  /** The detail step keeps each record's listing fields: the k-th result
      has the pmid, title, authors, abstract, date and url of the k-th kept
      listing block. */
  lemma CrawlKeepsListingFields(blocks: seq<ListingBlock>, injected: Option<WebDriver>,
                                launch: nat -> Option<nat>, detail: string -> DetailFetch, k: nat)
    requires k < |BasicResults(blocks)|
    ensures var r := CrawlResults(Fetched(blocks), injected, launch, detail);
      var b := BasicResults(blocks)[k];
      && |r| == |BasicResults(blocks)|
      && r[k].pmid == b.pmid && r[k].title == b.title && r[k].authors == b.authors
      && r[k].abstractText == b.abstractText && r[k].publicationDate == b.publicationDate && r[k].url == b.url
  {
    var basic := BasicResults(blocks);
    var b := basic[k];
    if injected.Some? {
      assert CrawlResults(Fetched(blocks), injected, launch, detail)[k] == DetailedInfo(b, injected, launch(k), detail).0;
      DetailedInfoKeepsListingFields(b, injected, launch(k), detail);
    }
  }

  // ---------------------------------------------------------------------------
  // The service object.

  class PubMedCrawlerService {
    const literatureRepository: LiteratureRepository
    const crawlProgressService: CrawlProgressService
    /** The optionally injected driver. */
    const webDriver: Option<WebDriver>

    constructor(literatureRepository: LiteratureRepository, crawlProgressService: CrawlProgressService,
                webDriver: Option<WebDriver>)
      ensures this.literatureRepository == literatureRepository
      ensures this.crawlProgressService == crawlProgressService
      ensures this.webDriver == webDriver
    {
      this.literatureRepository := literatureRepository;
      this.crawlProgressService := crawlProgressService;
      this.webDriver := webDriver;
    }

    /** searchAndCrawl. The returned list, the drivers quit, the tracker's
        calls and map, and the saved rows, each as the functions above give
        them. */
    method SearchAndCrawl(searchTerm: string, maxResults: int, fetch: string -> ListingFetch,
                          launch: nat -> Option<nat>, detail: string -> DetailFetch)
      returns (results: seq<Literature>, quits: seq<WebDriver>)
      modifies literatureRepository, crawlProgressService
      ensures var listing := fetch(SearchUrl(searchTerm, maxResults));
        && results == CrawlResults(listing, webDriver, launch, detail)
        && quits == CrawlQuits(listing, webDriver, launch, detail)
        && crawlProgressService.calls
             == old(crawlProgressService.calls) + CrawlCalls(searchTerm, maxResults, listing, webDriver)
        && crawlProgressService.progressMap
             == ApplyAll(old(crawlProgressService.progressMap), CrawlCalls(searchTerm, maxResults, listing, webDriver))
        && literatureRepository.rows == old(literatureRepository.rows) + results
    {
      var tracker := crawlProgressService;
      ghost var m0 := tracker.progressMap;
      ghost var c0 := tracker.calls;
      ghost var head := [Start(searchTerm, maxResults), Update(searchTerm, 0, Searching)];

      tracker.StartCrawl(searchTerm, maxResults);
      var searchUrl := SearchUrl(searchTerm, maxResults);
      tracker.UpdateProgress(searchTerm, 0, Searching);
      ghost var m1 := tracker.progressMap;
      ghost var c1 := tracker.calls;
      assert c1 == c0 + head;
      assert m1 == ApplyAll(m0, head) by {
        ApplyAllSnoc(m0, [], head[0]);
        assert [] + [head[0]] == [head[0]];
        ApplyAllSnoc(m0, [head[0]], head[1]);
        assert [head[0]] + [head[1]] == head;
      }

      var listing := fetch(searchUrl);
      ghost var tail := CrawlTail(searchTerm, listing, webDriver);
      if listing.FetchError? {
        // the catch block
        results, quits := [], [];
        tracker.FailCrawl(searchTerm, listing.message);
        assert tracker.progressMap == ApplyAll(m1, tail) by {
          ApplyAllSnoc(m1, [], tail[0]);
          assert [] + [tail[0]] == tail;
        }
      } else {
        results, quits := CrawlFetched(searchTerm, listing.blocks, launch, detail);
      }
      assert tracker.calls == c1 + tail;
      Regroup(c0, head, tail);
      ApplyAllAppend(m0, head, tail);
    }

    /** The rest of searchAndCrawl once the listing page is in: the listing
        loop, the detail loop when a driver is injected, the save, and
        completeCrawl. */
    method CrawlFetched(searchTerm: string, blocks: seq<ListingBlock>, launch: nat -> Option<nat>,
                        detail: string -> DetailFetch)
      returns (results: seq<Literature>, quits: seq<WebDriver>)
      modifies literatureRepository, crawlProgressService
      ensures results == CrawlResults(Fetched(blocks), webDriver, launch, detail)
      ensures quits == CrawlQuits(Fetched(blocks), webDriver, launch, detail)
      ensures crawlProgressService.calls == old(crawlProgressService.calls)
        + (FetchedReports(searchTerm, blocks, webDriver) + [Complete(searchTerm)])
      ensures crawlProgressService.progressMap == ApplyAll(old(crawlProgressService.progressMap),
        FetchedReports(searchTerm, blocks, webDriver) + [Complete(searchTerm)])
      ensures literatureRepository.rows == old(literatureRepository.rows) + results
    {
      var tracker := crawlProgressService;
      ghost var m0 := tracker.progressMap;
      ghost var c0 := tracker.calls;
      quits := [];
      results := ExtractListing(searchTerm, blocks);
      var processedCount := |results|;
      ghost var n := processedCount;
      ghost var r1 := BasicReports(searchTerm, n, |blocks|);
      ghost var r2: seq<Call> :=
        if n > 0 && webDriver.Some? then [Update(searchTerm, n, FetchingDetails(0, n))] + DetailReports(searchTerm, n, n, n) else [];
      ghost var r3: seq<Call> := if n > 0 then [Update(searchTerm, n, Saving)] else [];
      ghost var m1 := tracker.progressMap;
      ghost var c1 := tracker.calls;

      if processedCount > 0 && webDriver.Some? {
        results, quits := FetchDetails(searchTerm, results, launch, detail);
      }
      ghost var m2 := tracker.progressMap;
      ghost var c2 := tracker.calls;
      assert m2 == ApplyAll(m1, r2) && c2 == c1 + r2;

      if processedCount > 0 {
        tracker.UpdateProgress(searchTerm, processedCount, Saving);
        ApplyAllSnoc(m2, [], r3[0]);
        assert [] + [r3[0]] == r3;
        literatureRepository.SaveAll(results);
      }
      ghost var m3 := tracker.progressMap;
      assert m3 == ApplyAll(m2, r3) && tracker.calls == c2 + r3;

      tracker.CompleteCrawl(searchTerm);
      ghost var fr := FetchedReports(searchTerm, blocks, webDriver);
      assert fr == r1 + r2 + r3;
      ApplyAllAppend(m0, r1, r2);
      ApplyAllAppend(m0, r1 + r2, r3);
      ApplyAllSnoc(m0, fr, Complete(searchTerm));
      Regroup(c0, r1, r2);
      Regroup(c0, r1 + r2, r3);
      Regroup(c0, fr, [Complete(searchTerm)]);
    }

    /** The listing loop: the records kept, with one progress report per
        kept record. */
    method ExtractListing(searchTerm: string, blocks: seq<ListingBlock>) returns (results: seq<Literature>)
      modifies crawlProgressService
      ensures results == BasicResults(blocks)
      ensures crawlProgressService.calls
        == old(crawlProgressService.calls) + BasicReports(searchTerm, |results|, |blocks|)
      ensures crawlProgressService.progressMap
        == ApplyAll(old(crawlProgressService.progressMap), BasicReports(searchTerm, |results|, |blocks|))
    {
      var tracker := crawlProgressService;
      ghost var m0 := tracker.progressMap;
      ghost var c0 := tracker.calls;
      results := [];
      var processedCount := 0;
      for j := 0 to |blocks|
        invariant results == BasicResults(blocks[..j])
        invariant processedCount == |results|
        invariant tracker.calls == c0 + BasicReports(searchTerm, processedCount, |blocks|)
        invariant tracker.progressMap == ApplyAll(m0, BasicReports(searchTerm, processedCount, |blocks|))
      {
        BasicResultsStep(blocks, j);
        var literature := ExtractBasicInfo(blocks[j]);
        if literature.Some? {
          results := results + [literature.value];
          processedCount := processedCount + 1;
          ReportKept(searchTerm, processedCount, |blocks|, m0, c0);
        }
      }
      assert blocks[..|blocks|] == blocks;
    }

    /** The detail step: the opening report, then each record visited in
        turn and replaced by what its detail page adds, with one progress
        report per record. */
    method FetchDetails(searchTerm: string, basic: seq<Literature>, launch: nat -> Option<nat>,
                        detail: string -> DetailFetch)
      returns (results: seq<Literature>, quits: seq<WebDriver>)
      modifies crawlProgressService
      ensures results == DetailedRecords(basic, webDriver, launch, detail)
      ensures quits == DetailQuits(basic, webDriver, launch, detail, |basic|)
      ensures var opening := Update(searchTerm, |basic|, FetchingDetails(0, |basic|));
        crawlProgressService.calls
          == old(crawlProgressService.calls) + ([opening] + DetailReports(searchTerm, |basic|, |basic|, |basic|))
      ensures var opening := Update(searchTerm, |basic|, FetchingDetails(0, |basic|));
        crawlProgressService.progressMap
          == ApplyAll(old(crawlProgressService.progressMap), [opening] + DetailReports(searchTerm, |basic|, |basic|, |basic|))
    {
      var tracker := crawlProgressService;
      var n := |basic|;
      ghost var m0 := tracker.progressMap;
      ghost var c0 := tracker.calls;
      ghost var opening := Update(searchTerm, n, FetchingDetails(0, n));
      tracker.UpdateProgress(searchTerm, n, FetchingDetails(0, n));
      ghost var m1 := tracker.progressMap;
      ghost var c1 := tracker.calls;
      assert m1 == ApplyAll(m0, [opening]) by {
        ApplyAllSnoc(m0, [], opening);
        assert [] + [opening] == [opening];
      }
      results := basic;
      quits := [];
      for i := 0 to n
        invariant |results| == n
        invariant forall k :: 0 <= k < i ==> results[k] == DetailedInfo(basic[k], webDriver, launch(k), detail).0
        invariant forall k :: i <= k < n ==> results[k] == basic[k]
        invariant quits == DetailQuits(basic, webDriver, launch, detail, i)
        invariant tracker.calls == c1 + DetailReports(searchTerm, n, i, n)
        invariant tracker.progressMap == ApplyAll(m1, DetailReports(searchTerm, n, i, n))
      {
        var r, q := ExtractDetailedInfo(results[i], webDriver, launch(i), detail);
        results := results[i := r];
        quits := quits + q;
        ReportVisited(searchTerm, i + 1, n, m1, c1);
      }
      assert results == DetailedRecords(basic, webDriver, launch, detail);
      ApplyAllAppend(m0, [opening], DetailReports(searchTerm, n, n, n));
      Regroup(c0, [opening], DetailReports(searchTerm, n, n, n));
    }

    /** The listing loop's updateProgress after the n-th kept record. */
    method ReportKept(searchTerm: string, n: nat, total: int, ghost m0: map<string, CrawlProgress>, ghost c0: seq<Call>)
      requires n > 0
      requires crawlProgressService.calls == c0 + BasicReports(searchTerm, n - 1, total)
      requires crawlProgressService.progressMap == ApplyAll(m0, BasicReports(searchTerm, n - 1, total))
      modifies crawlProgressService
      ensures crawlProgressService.calls == c0 + BasicReports(searchTerm, n, total)
      ensures crawlProgressService.progressMap == ApplyAll(m0, BasicReports(searchTerm, n, total))
    {
      var c := Update(searchTerm, n, ExtractingBasics(n, total));
      crawlProgressService.UpdateProgress(searchTerm, n, ExtractingBasics(n, total));
      ApplyAllSnoc(m0, BasicReports(searchTerm, n - 1, total), c);
      BasicReportsStep(searchTerm, n - 1, total);
    }

    /** The detail loop's updateProgress after the k-th of n records. */
    method ReportVisited(searchTerm: string, k: nat, n: int, ghost m0: map<string, CrawlProgress>, ghost c0: seq<Call>)
      requires k > 0
      requires crawlProgressService.calls == c0 + DetailReports(searchTerm, n, k - 1, n)
      requires crawlProgressService.progressMap == ApplyAll(m0, DetailReports(searchTerm, n, k - 1, n))
      modifies crawlProgressService
      ensures crawlProgressService.calls == c0 + DetailReports(searchTerm, n, k, n)
      ensures crawlProgressService.progressMap == ApplyAll(m0, DetailReports(searchTerm, n, k, n))
    {
      var c := Update(searchTerm, n, FetchingDetails(k, n));
      crawlProgressService.UpdateProgress(searchTerm, n, FetchingDetails(k, n));
      ApplyAllSnoc(m0, DetailReports(searchTerm, n, k - 1, n), c);
      DetailReportsStep(searchTerm, n, k - 1, n);
    }
  }
}
