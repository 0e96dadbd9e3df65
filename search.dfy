/** SearchService.searchLiterature: answer a term from the store when it
    already holds matching records, crawl otherwise, and cut the requested
    page out of the matches; and getCrawlProgress. */
module Search {
  import opened Common
  import opened Entities
  import opened ListingExtraction
  import opened DetailExtraction
  import opened CrawlProgressTracking
  import opened Store
  import opened Crawler

  /** The number of records a crawl on a miss asks for. */
  const CRAWL_LIMIT: int := 50

  /** Why a search raises: PageRequest.of refuses its arguments
      (IllegalArgumentException), or subList refuses the computed bounds:
      a negative start is an IndexOutOfBoundsException, a start past the end
      an IllegalArgumentException. */
  datatype SearchError = IllegalPageRequest | IndexOutOfBounds | FromIndexAfterToIndex

  datatype Result<T> = Ok(value: T) | Err(error: SearchError)

  /** The page PageImpl holds: the slice, the request, and the match count. */
  datatype Page = Page(content: seq<Literature>, pageNumber: int, pageSize: int, totalElements: int)

  /** PageRequest.of accepts a page index >= 0 and a size >= 1. */
  predicate ValidPageRequest(page: int, size: int) {
    page >= 0 && size >= 1
  }

  /** The subList bounds: the offset is a long cut to an int, and the end is
      `min(start + size, n)` in int arithmetic. */
  function PageStart(page: int, size: int): int {
    WrapInt32(page * size)
  }

  function PageEnd(page: int, size: int, n: int): int {
    Min(WrapInt32(PageStart(page, size) + size), n)
  }

  /** The manual paging of both branches: `subList(start, end)` of the
      matches. The end never exceeds n, so subList raises exactly when
      start < 0 (index out of bounds, checked first) or start > end. */
  function PageSlice(matches: seq<Literature>, page: int, size: int): (r: Result<Page>)
    ensures r.Err? ==> r.error == (if PageStart(page, size) < 0 then IndexOutOfBounds else FromIndexAfterToIndex)
    ensures r.Ok? <==> 0 <= PageStart(page, size) <= PageEnd(page, size, |matches|)
    ensures r.Ok? ==> r.value.totalElements == |matches| && r.value.pageNumber == page && r.value.pageSize == size
    ensures r.Ok? ==> r.value.content == matches[PageStart(page, size)..PageEnd(page, size, |matches|)]
  {
    var start := PageStart(page, size);
    var end := PageEnd(page, size, |matches|);
    if start < 0 then Err(IndexOutOfBounds)
    else if start > end then Err(FromIndexAfterToIndex)
    else Ok(Page(matches[start..end], page, size, |matches|))
  }

  /** The slice of a page whose first index is `first` and whose end does
      not overflow. */
  lemma PageSliceFrom(matches: seq<Literature>, page: int, size: int, first: int)
    requires ValidPageRequest(page, size) && first == page * size
    requires 0 <= first <= |matches| && first + size <= INT_MAX
    ensures var r := PageSlice(matches, page, size);
      && r.Ok?
      && r.value.content == matches[first..Min(first + size, |matches|)]
  {
    assert PageStart(page, size) == first;
    assert PageEnd(page, size, |matches|) == Min(first + size, |matches|);
  }

  /** Without overflow, page p holds the records p*size up to (but not
      including) (p+1)*size, fewer on the last page. */
  lemma PageSliceWithoutOverflow(matches: seq<Literature>, page: int, size: int)
    requires ValidPageRequest(page, size) && (page + 1) * size <= INT_MAX
    requires page * size <= |matches|
    ensures var r := PageSlice(matches, page, size);
      && r.Ok?
      && r.value.content == matches[page * size..Min((page + 1) * size, |matches|)]
      && |r.value.content| <= size
  {
    assert page * size + size == (page + 1) * size;
    assert 0 <= page * size;
    PageSliceFrom(matches, page, size, page * size);
  }

  /** The page right past the last record is empty, not an error. */
  lemma PageAtEndIsEmpty(matches: seq<Literature>, page: int, size: int)
    requires ValidPageRequest(page, size) && (page + 1) * size <= INT_MAX
    requires page * size == |matches|
    ensures PageSlice(matches, page, size) == Ok(Page([], page, size, |matches|))
  {
    PageSliceWithoutOverflow(matches, page, size);
  }

  /** A page that starts past the end raises: its start lies beyond the
      end, which is cut to n. */
  lemma PagePastEndRaises(matches: seq<Literature>, page: int, size: int)
    requires ValidPageRequest(page, size) && (page + 1) * size <= INT_MAX
    requires page * size > |matches|
    ensures PageSlice(matches, page, size) == Err(FromIndexAfterToIndex)
  {
    assert page * size + size == (page + 1) * size;
    assert 0 <= page * size;
  }

  lemma PageOf(i: nat, size: int)
    requires size >= 1
    ensures var page := i / size;
      && 0 <= page && 0 <= page * size <= i && i < page * size + size && i % size == i - page * size
  {
  }

  /** Record i of the matches sits on page i / size, at position i % size. */
  lemma RecordOnItsPage(matches: seq<Literature>, i: nat, size: int)
    requires i < |matches| && size >= 1 && |matches| + size <= INT_MAX
    ensures var r := PageSlice(matches, i / size, size);
      r.Ok? && i % size < |r.value.content| && r.value.content[i % size] == matches[i]
  {
    PageOf(i, size);
    var page := i / size;
    var first := page * size;
    PageSliceFrom(matches, page, size, first);
    var content := matches[first..Min(first + size, |matches|)];
    assert content[i - first] == matches[i];
  }

  /** An offset past the int range wraps negative, and the slice raises. */
  lemma OffsetOverflowRaises(matches: seq<Literature>)
    ensures PageStart(65536, 32768) == INT_MIN
    ensures PageSlice(matches, 65536, 32768) == Err(IndexOutOfBounds)
  {
    assert 65536 * 32768 == 0x8000_0000;
    assert WrapInt32(0x8000_0000) == INT_MIN;
  }

  class SearchService {
    const literatureRepository: LiteratureRepository
    const searchRecordRepository: SearchRecordRepository
    const pubMedCrawlerService: PubMedCrawlerService
    const crawlProgressService: CrawlProgressService

    /** The service and its crawler share the store and the tracker. */
    predicate Wired()
      reads this
    {
      pubMedCrawlerService.literatureRepository == literatureRepository
      && pubMedCrawlerService.crawlProgressService == crawlProgressService
    }

    constructor(literatureRepository: LiteratureRepository, searchRecordRepository: SearchRecordRepository,
                pubMedCrawlerService: PubMedCrawlerService, crawlProgressService: CrawlProgressService)
      requires pubMedCrawlerService.literatureRepository == literatureRepository
      requires pubMedCrawlerService.crawlProgressService == crawlProgressService
      ensures this.literatureRepository == literatureRepository
      ensures this.searchRecordRepository == searchRecordRepository
      ensures this.pubMedCrawlerService == pubMedCrawlerService
      ensures this.crawlProgressService == crawlProgressService
      ensures Wired()
    {
      this.literatureRepository := literatureRepository;
      this.searchRecordRepository := searchRecordRepository;
      this.pubMedCrawlerService := pubMedCrawlerService;
      this.crawlProgressService := crawlProgressService;
    }

    /** searchLiterature, in one transaction. An invalid page request raises
        before anything happens. On a hit the page comes from the stored
        matches and nothing is crawled or saved. On a miss the crawler runs
        with the limit of 50, a search record with the crawl's size is saved,
        and the page comes from the new matches. A raising slice rolls the
        store and the search records back; the tracker is not transactional
        and keeps what the crawl did. */
    method SearchLiterature(searchTerm: string, page: int, size: int, fetch: string -> ListingFetch,
                            launch: nat -> Option<nat>, detail: string -> DetailFetch)
      returns (r: Result<Page>)
      requires Wired()
      modifies literatureRepository, searchRecordRepository, crawlProgressService
      ensures !ValidPageRequest(page, size) ==>
        r == Err(IllegalPageRequest)
        && literatureRepository.rows == old(literatureRepository.rows)
        && searchRecordRepository.records == old(searchRecordRepository.records)
        && crawlProgressService.progressMap == old(crawlProgressService.progressMap)
        && crawlProgressService.calls == old(crawlProgressService.calls)
      ensures ValidPageRequest(page, size) && Filter(old(literatureRepository.rows), searchTerm) != [] ==>
        r == PageSlice(Filter(old(literatureRepository.rows), searchTerm), page, size)
        && literatureRepository.rows == old(literatureRepository.rows)
        && searchRecordRepository.records == old(searchRecordRepository.records)
        && crawlProgressService.progressMap == old(crawlProgressService.progressMap)
        && crawlProgressService.calls == old(crawlProgressService.calls)
      ensures ValidPageRequest(page, size) && Filter(old(literatureRepository.rows), searchTerm) == [] ==>
        var listing := fetch(SearchUrl(searchTerm, CRAWL_LIMIT));
        var crawled := CrawlResults(listing, pubMedCrawlerService.webDriver, launch, detail);
        var calls := CrawlCalls(searchTerm, CRAWL_LIMIT, listing, pubMedCrawlerService.webDriver);
        && r == PageSlice(Filter(old(literatureRepository.rows) + crawled, searchTerm), page, size)
        && crawlProgressService.calls == old(crawlProgressService.calls) + calls
        && crawlProgressService.progressMap == ApplyAll(old(crawlProgressService.progressMap), calls)
        && (r.Ok? ==>
              literatureRepository.rows == old(literatureRepository.rows) + crawled
              && searchRecordRepository.records
                   == old(searchRecordRepository.records) + [SearchRecord(searchTerm, |crawled|)])
        && (r.Err? ==>
              literatureRepository.rows == old(literatureRepository.rows)
              && searchRecordRepository.records == old(searchRecordRepository.records))
    {
      if !ValidPageRequest(page, size) {
        return Err(IllegalPageRequest);
      }
      // the transaction's starting point, restored when it rolls back
      var savedRows := literatureRepository.rows;
      var savedRecords := searchRecordRepository.records;

      var existingResults := literatureRepository.FindBySearchTerm(searchTerm);
      if existingResults != [] {
        return PageSlice(existingResults, page, size);
      }

      var crawledResults, _ := pubMedCrawlerService.SearchAndCrawl(searchTerm, CRAWL_LIMIT, fetch, launch, detail);
      searchRecordRepository.Save(SearchRecord(searchTerm, |crawledResults|));

      var allResults := literatureRepository.FindBySearchTerm(searchTerm);
      r := PageSlice(allResults, page, size);
      if r.Err? {
        literatureRepository.Rollback(savedRows);
        searchRecordRepository.Rollback(savedRecords);
      }
    }

    /** getCrawlProgress: the tracker's entry for the term, or null. */
    function GetCrawlProgress(searchTerm: string): (r: Option<CrawlProgress>)
      reads this, crawlProgressService
      ensures r == crawlProgressService.GetProgress(searchTerm)
      ensures r.Some? <==> searchTerm in crawlProgressService.progressMap
    {
      crawlProgressService.GetProgress(searchTerm)
    }
  }

  /** On a miss the stored rows match nothing, so the page is cut from the
      crawled records that match the term, in crawl order. */
  lemma MissPagesTheCrawledMatches(rows: seq<Literature>, crawled: seq<Literature>, term: string, page: int, size: int)
    requires Filter(rows, term) == []
    ensures Filter(rows + crawled, term) == Filter(crawled, term)
    ensures PageSlice(Filter(rows + crawled, term), page, size) == PageSlice(Filter(crawled, term), page, size)
  {
    FilterAppend(rows, crawled, term);
    assert [] + Filter(crawled, term) == Filter(crawled, term);
  }

  /** A crawled record that matches nothing the query looks at is saved but
      never shown: on a miss the total counts only the crawled matches. */
  lemma MissTotalCountsCrawledMatches(rows: seq<Literature>, crawled: seq<Literature>, term: string, page: int, size: int)
    requires Filter(rows, term) == []
    requires PageSlice(Filter(rows + crawled, term), page, size).Ok?
    ensures PageSlice(Filter(rows + crawled, term), page, size).value.totalElements == |Filter(crawled, term)|
    ensures |Filter(crawled, term)| <= |crawled|
  {
    MissPagesTheCrawledMatches(rows, crawled, term, page, size);
  }

  /** A second search for the same term, once the first stored a match, is a
      hit: it pages the same matches and crawls nothing. */
  lemma StoredMatchMakesHit(rows: seq<Literature>, crawled: seq<Literature>, term: string)
    requires Filter(crawled, term) != []
    ensures Filter(rows + crawled, term) != []
  {
    FilterAppend(rows, crawled, term);
  }
}
