/** The persistent entities: a literature record and a search record, and the
    calendar date a publication date is normalised to. */
module Entities {
  import opened Common

  /** A proleptic Gregorian calendar date, as java.time.LocalDate holds it. */
  datatype Date = Date(year: int, month: int, day: int)

  predicate IsLeapYear(y: int) {
    y % 4 == 0 && (y % 100 != 0 || y % 400 == 0)
  }

  function DaysInMonth(y: int, m: int): (n: int)
    requires 1 <= m <= 12
    ensures 28 <= n <= 31
  {
    if m == 2 then (if IsLeapYear(y) then 29 else 28)
    else if m == 4 || m == 6 || m == 9 || m == 11 then 30
    else 31
  }

  predicate ValidDate(d: Date) {
    1 <= d.month <= 12 && 1 <= d.day <= DaysInMonth(d.year, d.month)
  }

  /** One bibliographic record. Every field the crawler fills is optional:
      a `None` is a Java `null`. The database key `id` and the `crawledDate`
      stamp are assigned by the store and the clock and are not modelled. */
  datatype Literature = Literature(
    pmid: Option<string>,
    title: Option<string>,
    authors: Option<string>,
    abstractText: Option<string>,
    publicationDate: Option<Date>,
    journal: Option<string>,
    affiliation: Option<string>,
    keywords: Option<string>,
    doi: Option<string>,
    url: Option<string>,
    publicationTypes: Option<string>,
    meshTerms: Option<string>,
    fullText: Option<string>,
    authorList: Option<seq<string>>)

  /** `new Literature()`: every field null. */
  const EmptyLiterature: Literature :=
    Literature(None, None, None, None, None, None, None, None, None, None, None, None, None, None)

  /** One crawl invocation as the search records store keeps it. The search
      date is a clock stamp and is not modelled; the `results` association is
      never filled by the code modelled here and is left out. */
  datatype SearchRecord = SearchRecord(searchTerm: string, totalResults: int)
}
