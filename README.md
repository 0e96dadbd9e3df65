# literature-crawler: a verified model of the crawl, progress and search core

This project models the part of the literature crawler that does the work, and proves properties of that model. The crawler searches PubMed for a term and turns each block of the results page into a `Literature` record. When a browser driver is injected, it enriches each record from its article page. It saves the records and reports its progress to an in-memory tracker keyed by search term. The search service puts a cache in front of all this: if the store already holds records matching the term, it pages those. Otherwise it crawls 50 records, saves a `SearchRecord`, queries the store again and pages the result.

The modules follow the Java classes:

- `Common`: `String.trim`, ASCII lower-casing, substring search, decimal digits, and Java `int` arithmetic (32-bit wrap-around, and `/` and `%` rounding toward zero).
- `Entities`: `LocalDate` as a `Date` with its validity rules, `Literature` with every column as an `Option`, and `SearchRecord`.
- `DateParsing`: `parseDate`, with the java.time semantics of its five patterns written out, plus worked examples in `DateParsingExamples`.
- `ListingExtraction`: `extractBasicInfo` on one listing block, and the records the listing loop keeps.
- `DetailExtraction`:
  - the five `extract*` helpers of the detail page, including the `StringBuilder` loops that join element texts;
  - `extractDetailedInfo`, and which drivers it quits.
- `CrawlProgressTracking`:
  - `CrawlProgressService`, a class whose `progressMap` the methods update, plus a ghost log of the calls made on it;
  - the percentage arithmetic;
  - `getFormattedElapsedTime`.
- `Store`:
  - the `findBySearchTerm` query, as a case-insensitive substring filter over title, abstract, authors and keywords;
  - the two repositories, as classes holding their rows.
- `Crawler`: `PubMedCrawlerService.searchAndCrawl`, as a class whose methods run the listing loop and the detail loop. Each method is proved against functions that give:
  - the records it returns;
  - the drivers it quits;
  - the exact sequence of tracker calls it makes.
- `Search`: `SearchService.searchLiterature` with its one transaction, the manual paging, and `getCrawlProgress`.

The model replaces the outside world with parameters:

- `fetch` stands for what the listing URL yields: the blocks, or the message of the exception the fetch raised.
- `launch` stands for the ChromeDriver that each detail attempt is able to start, if any.
- `detail` stands for what each article URL renders: the page, or a failure (navigation error or wait timeout).
- A page element lookup is `Present(text) | Absent | Raises` on the listing page. On the detail page it is `Found | Missing` or `Elements(texts) | Raised`.
- The elapsed milliseconds are a parameter of `FormatElapsed`.

### Behaviour of the code worth noting

- A listing block without a pmid is kept, without a URL, and it is saved (`BlockWithoutPmidIsKept`).
- `"2023 Nov"`, `"Nov 2023"` and `"2023"` give 1 January of the year. A `LocalDate` cannot be built without a day, so these three patterns never succeed and the input falls through to the four-digit fallback.
- The cache check and the `SearchRecord` save happen in `searchLiterature`; `searchAndCrawl` itself always crawls.
- `completeCrawl` sets the processed count to the requested maximum (50 on a miss), not to the number of records found (`CrawlCompletes`).
- The percentage is not clamped below. A negative processed count, or a product `processed * 100` that wraps past 2^31, gives a negative percentage (`PercentageOverflowsNegative`).
- Keywords and MeSH terms are stored as one comma-joined text that keeps its trailing `,`. Affiliations end in `;`.
- `saveAll` appends rows; it does not upsert. The query has no `ORDER BY`, so the database promises no order; the model returns stored rows in insertion order (see "## Left out").

## Model

| member | source | states |
|---|---|---|
| Common.Trim | src/main/java/com/alan/work/service/PubMedCrawlerService.java:124-152 | `String.trim` as the listing fields use it: the result is no longer than the text, and a non-empty result starts and ends with a char above U+0020. |
| Entities.DaysInMonth | src/main/java/com/alan/work/service/PubMedCrawlerService.java:309 | The length of a month in the proleptic Gregorian calendar that `LocalDate` uses lies between 28 and 31. |
| DateParsing.MonthNumber | src/main/java/com/alan/work/service/PubMedCrawlerService.java:299-303 | `MMM` accepts exactly the twelve English short month names, case-sensitively. A result is a month from 1 to 12, and the text has a capital letter followed by two lower-case letters. |
| DateParsing.MonthNumberOfName | src/main/java/com/alan/work/service/PubMedCrawlerService.java:299-303 | Every short month name reads back as its own month number. |
| DateParsing.MonthNumberIsName | src/main/java/com/alan/work/service/PubMedCrawlerService.java:299-303 | Only the short month names are accepted: an accepted text is the name of the month it yields. |
| DateParsing.Resolve | src/main/java/com/alan/work/service/PubMedCrawlerService.java:309 | Resolving parsed fields into a `LocalDate` needs a day. The result is a valid date that keeps the year and month. The SMART resolver can only lower the day, never raise it. |
| DateParsing.FirstParse | src/main/java/com/alan/work/service/PubMedCrawlerService.java:306-313 | Trying the patterns in order gives nothing iff every pattern fails. Whatever it returns is some pattern's parse. |
| DateParsing.FirstParseTakesFirstSuccess | src/main/java/com/alan/work/service/PubMedCrawlerService.java:306-313 | The first pattern that parses decides the result, and later patterns are not consulted. |
| DateParsing.FindYearFrom | src/main/java/com/alan/work/service/PubMedCrawlerService.java:316-318 | `Matcher.find` for `\d{4}` returns the first position that holds four ASCII digits, or none. |
| DateParsing.YearMonthDayShapeParses | src/main/java/com/alan/work/service/PubMedCrawlerService.java:299 | Text shaped `yyyy MMM dd` parses under the first pattern into that year, month and day. |
| DateParsing.MonthDayYearShapeParses | src/main/java/com/alan/work/service/PubMedCrawlerService.java:303 | Text shaped `MMM dd yyyy` parses under the fifth pattern into that year, month and day. |
| DateParsing.ParseDate | src/main/java/com/alan/work/service/PubMedCrawlerService.java:287-329 | Text that is blank after `trim()` gives null. A text that one of the patterns parses never gives null. Any other date returned is 1 January, of the first four-digit run (`ParseDateByYearRun`). |
| DateParsing.ParseDateBlankIsAbsent | src/main/java/com/alan/work/service/PubMedCrawlerService.java:289-291 | Empty or blank text gives no date. |
| DateParsing.ParseTokensKeepsDay | src/main/java/com/alan/work/service/PubMedCrawlerService.java:300-302 | A pattern without `dd` never sets a day. |
| DateParsing.DaylessPatternsNeverYieldDate | src/main/java/com/alan/work/service/PubMedCrawlerService.java:300-302 | `yyyy MMM`, `MMM yyyy` and `yyyy` never produce a `LocalDate`, whatever the text. |
| DateParsing.FirstParseOfPatterns | src/main/java/com/alan/work/service/PubMedCrawlerService.java:298-313 | The ordered search over the five patterns is the first pattern's parse, else the fifth pattern's parse. |
| DateParsing.ParseDateByFullPattern | src/main/java/com/alan/work/service/PubMedCrawlerService.java:306-309 | When `yyyy MMM dd` parses the trimmed text, that parse is the result. |
| DateParsing.ParseDateByMonthFirstPattern | src/main/java/com/alan/work/service/PubMedCrawlerService.java:306-313 | When only `MMM dd yyyy` parses, its parse is the result. |
| DateParsing.ParseDateByYearRun | src/main/java/com/alan/work/service/PubMedCrawlerService.java:316-321 | When no pattern parses, the result is 1 January of the year formed by the first run of four digits. |
| DateParsing.ParseDateWithoutYearRun | src/main/java/com/alan/work/service/PubMedCrawlerService.java:316-328 | When no pattern parses and there is no run of four digits, there is no date. |
| DateParsing.ParseDateIsValid | src/main/java/com/alan/work/service/PubMedCrawlerService.java:287-329 | Every date `parseDate` returns is a valid calendar date. |
| DateParsing.FullPatternNeedsLeadingYear | src/main/java/com/alan/work/service/PubMedCrawlerService.java:299 | `yyyy MMM dd` fails unless the text starts with four digits. |
| DateParsing.MonthFirstPatternNeedsCapital | src/main/java/com/alan/work/service/PubMedCrawlerService.java:303 | `MMM dd yyyy` fails unless the text starts with a capital letter. |
| DateParsing.ParseDateYearMonthDay | src/main/java/com/alan/work/service/PubMedCrawlerService.java:297-299 | `"yyyy MMM dd"` text gives that date, with the day clamped to the month's length. |
| DateParsing.ParseDateMonthDayYear | src/main/java/com/alan/work/service/PubMedCrawlerService.java:297-303 | `"MMM dd yyyy"` text gives that date, with the day clamped to the month's length. |
| DateParsing.ParseDateYearMonth | src/main/java/com/alan/work/service/PubMedCrawlerService.java:300-321 | `"2023 Nov"`-shaped text gives 1 January of the year (the fallback), not the named month. |
| DateParsing.YearMonthReachesFallback | src/main/java/com/alan/work/service/PubMedCrawlerService.java:300-318 | `"yyyy MMM"` text fails every pattern, and its first four-digit run is at position 0. |
| DateParsing.ParseDateMonthYear | src/main/java/com/alan/work/service/PubMedCrawlerService.java:301-321 | `"Nov 2023"`-shaped text gives 1 January of the year. |
| DateParsing.MonthYearReachesFallback | src/main/java/com/alan/work/service/PubMedCrawlerService.java:301-318 | `"MMM yyyy"` text fails every pattern, and its first four-digit run follows the month name. |
| DateParsing.MonthYearFailsMonthFirstPattern | src/main/java/com/alan/work/service/PubMedCrawlerService.java:303 | `"MMM yyyy"` text does not parse under `MMM dd yyyy`. |
| DateParsingExamples.ExampleFullDate | src/main/java/com/alan/work/service/PubMedCrawlerService.java:299 | "2023 Nov 15" is 15 November 2023. |
| DateParsingExamples.ExampleYearMonthFallsBackToJanuary | src/main/java/com/alan/work/service/PubMedCrawlerService.java:300-321 | "2023 Nov" is 1 January 2023. |
| DateParsingExamples.ExampleMonthYearFallsBackToJanuary | src/main/java/com/alan/work/service/PubMedCrawlerService.java:301-321 | "Nov 2023" is 1 January 2023. |
| DateParsingExamples.ExampleMonthDayYear | src/main/java/com/alan/work/service/PubMedCrawlerService.java:303 | "Nov 15 2023" is 15 November 2023. |
| DateParsingExamples.ExampleSmartResolverClampsDay | src/main/java/com/alan/work/service/PubMedCrawlerService.java:309 | "2023 Feb 30" is 28 February 2023. |
| DateParsingExamples.ExampleLeapYearClampsToTwentyNinth | src/main/java/com/alan/work/service/PubMedCrawlerService.java:309 | "2024 Feb 30" is 29 February 2024. |
| DateParsingExamples.ExampleYearInsideText | src/main/java/com/alan/work/service/PubMedCrawlerService.java:316-321 | "circa 2019 report" is 1 January 2019. |
| DateParsingExamples.ExampleNoYearIsAbsent | src/main/java/com/alan/work/service/PubMedCrawlerService.java:324-328 | "n.d." gives no date. |
| ListingExtraction.ExtractBasicInfo | src/main/java/com/alan/work/service/PubMedCrawlerService.java:117-166 | Null iff some lookup raises. Otherwise: pmid, title, authors and abstract are each the trimmed text of their element when it exists, else null. The date is the `parseDate` of the citation. The URL is set iff the pmid is, and equals the base URL + "/" + pmid. Every detail-page field stays null. |
| ListingExtraction.BlockWithoutPmidIsKept | src/main/java/com/alan/work/service/PubMedCrawlerService.java:122-160 | A block with no pmid element is still returned, with neither pmid nor URL. |
| ListingExtraction.MissingTitleAffectsOnlyTitle | src/main/java/com/alan/work/service/PubMedCrawlerService.java:128-131 | A missing title element changes the record only in its title. |
| ListingExtraction.MissingSnippetAffectsOnlyAbstract | src/main/java/com/alan/work/service/PubMedCrawlerService.java:150-153 | A missing snippet element changes the record only in its abstract. |
| ListingExtraction.CitationDateIgnoresSurroundingBlanks | src/main/java/com/alan/work/service/PubMedCrawlerService.java:140-147 | The citation date is `parseDate` of the untrimmed text: the second trim changes nothing. |
| ListingExtraction.BasicResults | src/main/java/com/alan/work/service/PubMedCrawlerService.java:67-80 | The listing loop keeps at most one record per block, and each kept record has only listing fields. |
| ListingExtraction.BasicResultsStep | src/main/java/com/alan/work/service/PubMedCrawlerService.java:68-76 | One more block adds its extraction to the kept records iff that extraction is non-null. |
| ListingExtraction.BasicResultsCount | src/main/java/com/alan/work/service/PubMedCrawlerService.java:67-80 | The loop keeps exactly the blocks minus the broken ones. |
| ListingExtraction.BasicResultsAppend | src/main/java/com/alan/work/service/PubMedCrawlerService.java:68-80 | Blocks are handled independently and in document order: the records of two runs of blocks are the records of each run, concatenated. |
| ListingExtraction.BasicResultsAreExtractions | src/main/java/com/alan/work/service/PubMedCrawlerService.java:70-72 | Every kept record is the extraction of some block. |
| ListingExtraction.OneBrokenBlockIsSkipped | src/main/java/com/alan/work/service/PubMedCrawlerService.java:68-80 | A broken block is skipped without disturbing the records before or after it. |
| DetailExtraction.AppendEach | src/main/java/com/alan/work/service/PubMedCrawlerService.java:224-227 | The `StringBuilder` loop builds each text followed by the separator, in order. |
| DetailExtraction.JoinedPrefix | src/main/java/com/alan/work/service/PubMedCrawlerService.java:225-227 | Each text, followed by its separator, sits in the builder right after the earlier texts. |
| DetailExtraction.JoinedHoldsEachText | src/main/java/com/alan/work/service/PubMedCrawlerService.java:225-227 | The joined text contains every element text. |
| DetailExtraction.TrimmedJoinEndsWithSeparator | src/main/java/com/alan/work/service/PubMedCrawlerService.java:224-228 | After the trim, a non-empty join still ends in the separator's first character (";" or ","). |
| DetailExtraction.ExtractAffiliationInfo | src/main/java/com/alan/work/service/PubMedCrawlerService.java:219-233 | Affiliation becomes the trimmed "; "-join of the link texts when the list is non-empty. It is kept when the list is empty or a lookup raises. Nothing else changes. |
| DetailExtraction.ExtractJournalInfo | src/main/java/com/alan/work/service/PubMedCrawlerService.java:235-244 | A found element sets the journal to its trimmed text. A missing one leaves the record unchanged. Only the journal can change. |
| DetailExtraction.ExtractDoi | src/main/java/com/alan/work/service/PubMedCrawlerService.java:246-255 | A found element sets the DOI to its trimmed text. A missing one leaves the record unchanged. Only the DOI can change. |
| DetailExtraction.ExtractKeywords | src/main/java/com/alan/work/service/PubMedCrawlerService.java:257-270 | Keywords become the trimmed ", "-join of the items when the list is non-empty, and are kept otherwise. Nothing else changes. |
| DetailExtraction.ExtractMeshTerms | src/main/java/com/alan/work/service/PubMedCrawlerService.java:272-285 | MeSH terms become the trimmed ", "-join of the items when the list is non-empty, and are kept otherwise. Nothing else changes. |
| DetailExtraction.ExtractAll | src/main/java/com/alan/work/service/PubMedCrawlerService.java:201-205 | Running the five helpers in order gives the enriched record. |
| DetailExtraction.EnrichedIsAdditive | src/main/java/com/alan/work/service/PubMedCrawlerService.java:201-205 | Enrichment touches only the five detail fields, and never turns a set field back to null. |
| DetailExtraction.MissingKeywordsKeepOtherFields | src/main/java/com/alan/work/service/PubMedCrawlerService.java:257-270 | A page without keywords (an empty list or a raising lookup) leaves the keywords as they were, and is enriched exactly like a page whose keyword lookup raises. |
| DetailExtraction.StoredKeywordsEndWithComma | src/main/java/com/alan/work/service/PubMedCrawlerService.java:261-265 | Stored keywords always end in ",". |
| DetailExtraction.StoredAffiliationsEndWithSemicolon | src/main/java/com/alan/work/service/PubMedCrawlerService.java:224-228 | Stored affiliations always end in ";". |
| DetailExtraction.ExtractDetailedInfo | src/main/java/com/alan/work/service/PubMedCrawlerService.java:168-217 | With no injected driver, the record is unchanged. Otherwise the method uses the injected ChromeDriver or launches one, visits the page, enriches the record when the page renders, and in `finally` quits the driver unless it is the injected one. |
| DetailExtraction.NoDriverLeavesRecord | src/main/java/com/alan/work/service/PubMedCrawlerService.java:170-173 | Without an injected driver, the record is unchanged and nothing is quit. |
| DetailExtraction.InjectedDriverNeverQuit | src/main/java/com/alan/work/service/PubMedCrawlerService.java:211-216 | The injected driver is never among the drivers quit. |
| DetailExtraction.LaunchedDriverAlwaysQuit | src/main/java/com/alan/work/service/PubMedCrawlerService.java:180-216 | A driver launched here is quit exactly once, whether or not the page renders. |
| DetailExtraction.QuitTestIsOwnership | src/main/java/com/alan/work/service/PubMedCrawlerService.java:213 | The test `driver != webDriver` holds exactly for a driver launched here. |
| DetailExtraction.DetailedInfoKeepsListingFields | src/main/java/com/alan/work/service/PubMedCrawlerService.java:168-217 | The detail stage keeps pmid, title, authors, abstract, date and URL as the listing set them. |
| DetailExtraction.FailedVisitLeavesRecord | src/main/java/com/alan/work/service/PubMedCrawlerService.java:192-210 | A null URL, a navigation exception or a wait timeout leaves the record unchanged. |
| CrawlProgressTracking.Percentage | src/main/java/com/alan/work/service/CrawlProgressService.java:35-39 | The percentage never exceeds 100. |
| CrawlProgressTracking.ApplyAllAppend | src/main/java/com/alan/work/service/CrawlProgressService.java:14 | Applying two runs of calls equals applying the first run, then the second. |
| CrawlProgressTracking.CrawlProgressService.StartCrawl | src/main/java/com/alan/work/service/CrawlProgressService.java:16-27 | The map gets, for the term, a fresh entry (total = totalItems, processed 0, 0 percent, active, the start status), overwriting any earlier one. |
| CrawlProgressTracking.CrawlProgressService.UpdateProgress | src/main/java/com/alan/work/service/CrawlProgressService.java:29-43 | Does nothing to an absent term. Otherwise it sets processed, status and the recomputed percentage, and leaves the rest of the entry alone. |
| CrawlProgressTracking.CrawlProgressService.CompleteCrawl | src/main/java/com/alan/work/service/CrawlProgressService.java:45-55 | Does nothing to an absent term. Otherwise it sets the completed status, 100 percent, processed = total, and inactive. |
| CrawlProgressTracking.CrawlProgressService.FailCrawl | src/main/java/com/alan/work/service/CrawlProgressService.java:57-65 | Does nothing to an absent term. Otherwise it sets the failure status carrying the error, and inactive. |
| CrawlProgressTracking.CrawlProgressService.GetProgress | src/main/java/com/alan/work/service/CrawlProgressService.java:67-69 | The entry for the term, or null exactly when there is none. |
| CrawlProgressTracking.CrawlProgressService.RemoveProgress | src/main/java/com/alan/work/service/CrawlProgressService.java:71-74 | The term's entry is deleted. |
| CrawlProgressTracking.CallTouchesOnlyItsTerm | src/main/java/com/alan/work/service/CrawlProgressService.java:14-72 | A tracker call leaves every other term's entry, and its presence, as it was. |
| CrawlProgressTracking.OtherTermsUntouched | src/main/java/com/alan/work/service/CrawlProgressService.java:14-74 | Any sequence of calls on one term leaves the entries of all other terms as they were. |
| CrawlProgressTracking.PercentageWithoutOverflow | src/main/java/com/alan/work/service/CrawlProgressService.java:35-39 | Without overflow, the percentage is min(processed*100/total, 100), lies in [0, 100], and is 100 once processed >= total. |
| CrawlProgressTracking.PercentageOverflowsNegative | src/main/java/com/alan/work/service/CrawlProgressService.java:37 | `processed * 100` wraps: 21474837 of 100 gives -21474835 percent. |
| CrawlProgressTracking.PercentageExamples | src/main/java/com/alan/work/service/CrawlProgressService.java:35-39 | 3 of 10 is 30 percent, 10 of 10 is 100, 12 of 10 is 100, and a zero total gives 0. |
| CrawlProgressTracking.UpdatesKeepEntry | src/main/java/com/alan/work/service/CrawlProgressService.java:29-43 | Updates keep the entry present with its term, total and active flag, and leave the processed count of the last update. |
| CrawlProgressTracking.CompleteOverridesUpdates | src/main/java/com/alan/work/service/CrawlProgressService.java:45-55 | Start, any updates, then complete give processed = total, 100 percent, completed, inactive, whatever the updates said. |
| CrawlProgressTracking.FailFreezesProgress | src/main/java/com/alan/work/service/CrawlProgressService.java:57-65 | Fail after start and updates changes only the status and the active flag. The processed count stays at the last update's, or 0 without one. |
| CrawlProgressTracking.FailAtFourOfTen | src/main/java/com/alan/work/service/CrawlProgressService.java:29-65 | A 10-item crawl that fails after reporting 4 is left at 4 processed, 40 percent, failed, inactive. |
| CrawlProgressTracking.FormatElapsed | src/main/java/com/alan/work/service/CrawlProgressService.java:90-103 | The hour form shows at least one hour; the minute form shows between 1 and 59 minutes, since at 60 the hour form is chosen. The components come from truncating long division (`ElapsedComponents`). |
| CrawlProgressTracking.ElapsedFormSelection | src/main/java/com/alan/work/service/CrawlProgressService.java:90-103 | The hour form iff at least an hour has elapsed, the minute form iff at least a minute but under an hour, else the seconds form. |
| CrawlProgressTracking.ElapsedComponents | src/main/java/com/alan/work/service/CrawlProgressService.java:91-102 | For a non-negative elapsed time, the shown minutes and seconds lie in [0, 60), and hours, minutes and seconds add up to the elapsed whole seconds. |
| Store.Matches | src/main/java/com/alan/work/repository/LiteratureRepository.java:24-29 | The WHERE clause: a row whose title, abstract, authors and keywords are all null never matches, since `LOWER(NULL) LIKE …` is not true. |
| Store.Filter | src/main/java/com/alan/work/repository/LiteratureRepository.java:24-29 | The query returns no more rows than are stored. |
| Store.FilterMembership | src/main/java/com/alan/work/repository/LiteratureRepository.java:24-29 | A row is returned iff it is stored and its title, abstract, authors or keywords contain the term, ignoring case. |
| Store.FilterAppend | src/main/java/com/alan/work/repository/LiteratureRepository.java:24-29 | The query over two batches of rows is the query over each batch, in order. |
| Store.FilterKeepsMatchingRows | src/main/java/com/alan/work/repository/LiteratureRepository.java:24-29 | When every row matches, every row is returned. |
| Store.FilterIdempotent | src/main/java/com/alan/work/repository/LiteratureRepository.java:24-29 | Querying the query's own answer returns it unchanged. |
| Store.FilterIgnoresTermCase | src/main/java/com/alan/work/repository/LiteratureRepository.java:25-28 | The lower-cased term finds the same rows as the term. |
| Store.TitleHoldingTermIsFound | src/main/java/com/alan/work/repository/LiteratureRepository.java:25 | A row whose title contains the term, in any case, is returned. |
| Store.EmptyTermMatchesAnyFilledColumn | src/main/java/com/alan/work/repository/LiteratureRepository.java:24-29 | The empty term matches exactly the rows with a non-null title, abstract, authors or keywords. |
| Store.LiteratureRepository.SaveAll | src/main/java/com/alan/work/service/PubMedCrawlerService.java:103 | The saved records are appended to the rows, in order. |
| Store.LiteratureRepository.FindBySearchTerm | src/main/java/com/alan/work/repository/LiteratureRepository.java:24-29 | The matching stored rows: no more than are stored, a row included iff it matches, and empty iff no stored row matches. |
| Store.SearchRecordRepository.Save | src/main/java/com/alan/work/service/SearchService.java:55 | The search record is appended. |
| Crawler.SearchUrlCarriesTermAndSize | src/main/java/com/alan/work/service/PubMedCrawlerService.java:43-54 | The search URL holds the term as given, right after `/?term=`, and ends in the decimal digits of `maxResults`. |
| Crawler.BasicReportsStep | src/main/java/com/alan/work/service/PubMedCrawlerService.java:73-75 | Each kept record adds one update reporting the new count. |
| Crawler.DetailReportsStep | src/main/java/com/alan/work/service/PubMedCrawlerService.java:91-92 | Each visited record adds one update reporting detail page i+1. |
| Crawler.FetchedReportsAreUpdates | src/main/java/com/alan/work/service/PubMedCrawlerService.java:56-104 | Between start and the end, a fetched crawl only updates its own term. |
| Crawler.CrawlCompletes | src/main/java/com/alan/work/service/PubMedCrawlerService.java:51-106 | A crawl whose listing page arrives leaves the term at processed = maxResults, 100 percent, completed and inactive. |
| Crawler.CrawlFailureEntry | src/main/java/com/alan/work/service/PubMedCrawlerService.java:51-112 | A crawl whose listing fetch raises leaves the term failed with the exception message, 0 processed, 0 percent, inactive. |
| Crawler.CrawlTouchesOnlyItsTerm | src/main/java/com/alan/work/service/PubMedCrawlerService.java:46-115 | A crawl does not change any other term's progress entry. |
| Crawler.CrawlResultCount | src/main/java/com/alan/work/service/PubMedCrawlerService.java:47-114 | A failed fetch returns no records. A fetched listing returns one record per block, minus the broken blocks. |
| Crawler.DetailQuitsSpareInjected | src/main/java/com/alan/work/service/PubMedCrawlerService.java:87-216 | No pass of the detail loop quits the injected driver. |
| Crawler.CrawlNeverQuitsInjected | src/main/java/com/alan/work/service/PubMedCrawlerService.java:83-216 | A whole crawl never quits the injected driver. |
| Crawler.Launched | src/main/java/com/alan/work/service/PubMedCrawlerService.java:180-190 | The drivers launched by the first n detail attempts: at most one per attempt, each a ChromeDriver. |
| Crawler.LaunchedWhenAllSucceed | src/main/java/com/alan/work/service/PubMedCrawlerService.java:180-190 | When every `new ChromeDriver` succeeds, exactly one driver is launched per attempt, in order. |
| Crawler.DetailQuitsAreLaunches | src/main/java/com/alan/work/service/PubMedCrawlerService.java:87-216 | With a non-Chrome injected driver, the loop quits exactly the drivers it launched, in record order. An attempt whose launch raises quits nothing. |
| Crawler.CrawlQuitsEveryLaunchedDriver | src/main/java/com/alan/work/service/PubMedCrawlerService.java:83-216 | A crawl with a non-Chrome injected driver quits every driver it launches, exactly once each, in record order, even when other launches raise. |
| Crawler.CrawlQuitsOnePerRecord | src/main/java/com/alan/work/service/PubMedCrawlerService.java:83-216 | When every launch succeeds, the crawl quits one launched driver per kept record, in record order. |
| Crawler.DetailQuitsWithChromeDriver | src/main/java/com/alan/work/service/PubMedCrawlerService.java:178-216 | With an injected ChromeDriver, the loop quits nothing. |
| Crawler.CrawlWithChromeDriverQuitsNothing | src/main/java/com/alan/work/service/PubMedCrawlerService.java:178-216 | A crawl with an injected ChromeDriver quits no driver. |
| Crawler.CrawlKeepsListingFields | src/main/java/com/alan/work/service/PubMedCrawlerService.java:67-98 | The crawl returns one record per kept block, with the listing fields of that block. |
| Crawler.PubMedCrawlerService.SearchAndCrawl | src/main/java/com/alan/work/service/PubMedCrawlerService.java:46-115 | The results, the drivers quit and the full sequence of tracker calls are as the crawl functions give them: start, searching, one update per kept record, the detail phase only when there are records and a driver, saving only when there are records, then complete, or fail on a fetch error. The kept records are appended to the store. |
| Crawler.PubMedCrawlerService.CrawlFetched | src/main/java/com/alan/work/service/PubMedCrawlerService.java:64-107 | The fetched branch: listing loop, optional detail loop, save, complete. |
| Crawler.PubMedCrawlerService.ExtractListing | src/main/java/com/alan/work/service/PubMedCrawlerService.java:64-80 | The loop keeps exactly the non-null extractions in document order, and reports count j after the j-th kept record. |
| Crawler.PubMedCrawlerService.FetchDetails | src/main/java/com/alan/work/service/PubMedCrawlerService.java:83-98 | The detail loop enriches each record in place of the listing one. It quits the drivers it launched, reports detail 0, then one update per record. |
| Search.PageSlice | src/main/java/com/alan/work/service/SearchService.java:41-61 | The page is `subList(start, end)` with the int offset and `min(start + size, n)`. It raises iff not 0 <= start <= end: a negative start with `IndexOutOfBoundsException`, a start past the end with `IllegalArgumentException`. The total is the match count. |
| Search.PageSliceWithoutOverflow | src/main/java/com/alan/work/service/SearchService.java:41-43 | Without overflow, page p holds matches p*size up to (p+1)*size, fewer on the last page, and never more than size. |
| Search.PageAtEndIsEmpty | src/main/java/com/alan/work/service/SearchService.java:41-43 | The page that starts right at the end is empty, not an error. |
| Search.PagePastEndRaises | src/main/java/com/alan/work/service/SearchService.java:41-43 | A page that starts past the end makes `subList` raise `IllegalArgumentException` (start after end). |
| Search.RecordOnItsPage | src/main/java/com/alan/work/service/SearchService.java:41-43 | Match i appears on page i / size at position i % size. |
| Search.OffsetOverflowRaises | src/main/java/com/alan/work/service/SearchService.java:41 | The offset of page 65536 of size 32768 is cut to int and wraps negative, so `subList` raises `IndexOutOfBoundsException`. |
| Search.SearchService.SearchLiterature | src/main/java/com/alan/work/service/SearchService.java:29-62 | An invalid page request raises first and changes nothing. On a hit, the result is the page of the stored matches, and nothing is crawled or saved. On a miss: one crawl with limit 50; the page of the matches over the store after the crawl; one `SearchRecord` with the crawled count. A slice that raises rolls back the rows and records, but not the tracker. |
| Search.SearchService.GetCrawlProgress | src/main/java/com/alan/work/service/SearchService.java:80-82 | The tracker's entry for the term, or null exactly when it has none. |
| Search.MissPagesTheCrawledMatches | src/main/java/com/alan/work/service/SearchService.java:49-61 | On a miss, the page is cut from the crawled records that match, in crawl order. |
| Search.MissTotalCountsCrawledMatches | src/main/java/com/alan/work/service/SearchService.java:54-61 | On a miss, the page's total counts only the crawled records that match, which can be fewer than the `SearchRecord` count. |
| Search.StoredMatchMakesHit | src/main/java/com/alan/work/service/SearchService.java:36-45 | Once a crawl stores a matching record, the next search for the term is a hit. |

## Left out

- HTTP and the browser. `Jsoup.connect(...).get()`, the CSS and XPath selectors, `driver.get`, `WebDriverWait` and `new ChromeDriver(options)` are replaced by the `fetch`, `detail` and `launch` parameters, and by the lookup outcome datatypes. Jsoup's whitespace normalisation of `text()` is part of those parameters.
- `Thread.sleep(1000)` between detail pages, and the `InterruptedException` it can raise. The sleep follows the detail update, so an interrupt skips only the pause. This is timing only.
- Crawler.PubMedCrawlerService.FetchDetails: a `driver.quit()` that raises in the `finally` of `extractDetailedInfo` is not modelled. The code then leaves `extractDetailedInfo` with that exception, the detail loop's catch swallows it, and that record's detail update is skipped. The model reports every record.
- The concurrency of `ConcurrentHashMap`. The tracker is modelled sequentially.
- The clock: `startTime`, `getElapsedTime`, and the `crawledDate` and `searchDate` timestamps. `FormatElapsed` takes the elapsed milliseconds as a parameter. The database `id` is not modelled.
- Status texts and `String.format`. The status phrases are the `Status` datatype, with the counts they carry.
- A null `dateText`, a null status, or a null exception message. Strings in the model are never null.
- Years written with a `+` sign, and locales other than English for `MMM`.
- Store behaviour the core does not rely on:
  - the `unique` constraint on pmid;
  - `saveAll` as an upsert, and failures of the store;
  - the order in which the database returns rows (the model uses insertion order);
  - `%` and `_` in the term acting as `LIKE` wildcards;
  - lower-casing beyond ASCII.
- Aliasing. `Literature` is a value; the detail loop writes the enriched value into the result list rather than mutating the shared object. `CrawlProgress` is a value too: `GetProgress` returns a copy of the entry, whereas `getProgress` hands out the live object held in the map, which later tracker calls keep mutating.
- Crawler.PubMedCrawlerService.SearchAndCrawl: does not model the save itself raising. The code would then call `failCrawl` after the records were already kept.
- URL encoding of the term. The code does not encode it, and neither does the model.
- The `PageImpl` adjustment of `getTotalElements` on a short last page. The model keeps the match count that the code passes.
- That `maxResults` bounds the listing only through the `size` parameter of the URL. The listing blocks are whatever the page holds.
- The rest of `SearchService` and the repositories (`getAllLiterature`, `getLiteratureById`, `getLiteratureByPmid`, the search record queries), plus `WebDriverConfig`, the controllers and the application class. None of these is part of this model.
- The processed count wrapping at 2^31 in the crawl loop. A page never holds that many blocks.
