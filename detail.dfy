/** The second stage of a crawl: enriching one record from its detail page
    through a browser session (PubMedCrawlerService.extractDetailedInfo and
    its five extract helpers), and which browser sessions get quit. */
module DetailExtraction {
  import opened Common
  import opened Entities

  /** `findElement(..).getText()`: the text, or an exception (no such element,
      a stale element). */
  datatype ElementLookup = Found(text: string) | Missing

  /** `findElements(..)` and `getText()` of each: the texts in page order, or
      an exception somewhere on the way. */
  datatype ElementsLookup = Elements(texts: seq<string>) | Raised

  /** A rendered detail page, by the lookups the helpers make. */
  datatype DetailPage = DetailPage(
    affiliations: ElementsLookup,   // //div[@class='affiliation-links']//a
    journal: ElementLookup,         // .journal-actions
    doi: ElementLookup,             // .identifier.doi
    keywords: ElementsLookup,       // .keywords-list li
    meshTerms: ElementsLookup)      // .mesh-terms li

  /** What `driver.get(url)` followed by the wait for `.article-details`
      gives: the page, or an exception (navigation error, wait timeout). */
  datatype DetailFetch = Rendered(page: DetailPage) | NotRendered

  const AFFILIATION_SEPARATOR: string := "; "
  const LIST_SEPARATOR: string := ", "

  // ---------------------------------------------------------------------------
  // Joining element texts.

  /** What the StringBuilder holds after appending each text and then the
      separator. */
  function Joined(texts: seq<string>, sep: string): string {
    if texts == [] then []
    else Joined(texts[..|texts| - 1], sep) + texts[|texts| - 1] + sep
  }

  /** The StringBuilder loop of the extract helpers. */
  method AppendEach(texts: seq<string>, sep: string) returns (s: string)
    ensures s == Joined(texts, sep)
  {
    s := [];
    for i := 0 to |texts|
      invariant s == Joined(texts[..i], sep)
    {
      assert texts[..i + 1][..i] == texts[..i];
      s := s + texts[i] + sep;
    }
    assert texts[..|texts|] == texts;
  }

  /** Text k of the list sits in the joined string, right after the joined
      earlier texts. */
  lemma {:induction false} JoinedPrefix(texts: seq<string>, sep: string, k: nat)
    requires k < |texts|
    ensures Joined(texts[..k], sep) + texts[k] + sep <= Joined(texts, sep)
    decreases |texts|
  {
    var init := texts[..|texts| - 1];
    if k < |init| {
      JoinedPrefix(init, sep, k);
      assert init[..k] == texts[..k];
    } else {
      assert init == texts[..k];
    }
  }

  /** Every text of the list occurs in the joined string. */
  lemma JoinedHoldsEachText(texts: seq<string>, sep: string, k: nat)
    requires k < |texts|
    ensures Contains(Joined(texts, sep), texts[k])
  {
    JoinedPrefix(texts, sep, k);
    var pre := Joined(texts[..k], sep);
    var j := Joined(texts, sep);
    assert j[|pre|..|pre| + |texts[k]|] == texts[k];
    ContainsAt(j, texts[k], |pre|);
  }

  /** Trimming a non-empty join keeps the separator's visible char as the
      last char: a trailing ";" or "," is part of the stored value. */
  lemma TrimmedJoinEndsWithSeparator(texts: seq<string>, sep: string)
    requires texts != [] && |sep| == 2 && !IsTrimmable(sep[0]) && IsTrimmable(sep[1])
    ensures var r := Trim(Joined(texts, sep)); |r| > 0 && r[|r| - 1] == sep[0]
  {
    var x := Joined(texts[..|texts| - 1], sep) + texts[|texts| - 1];
    var tail := [sep[1]];
    assert Joined(texts, sep) == x + sep;
    assert sep == [sep[0]] + tail;
    assert x + sep == x + [sep[0]] + tail;
    TrimKeepsLastVisible(x, sep[0], tail);
  }

  // ---------------------------------------------------------------------------
  // The five guarded sub-extractions.

  /** The value a list helper stores: the trimmed join, written only when the
      list was read and is non-empty. */
  function JoinedValue(look: ElementsLookup, sep: string): Option<string> {
    if look.Elements? && look.texts != [] then Some(Trim(Joined(look.texts, sep))) else None
  }

  function FoundValue(look: ElementLookup): Option<string> {
    if look.Found? then Some(Trim(look.text)) else None
  }

  /** Keeps the old value when the helper writes nothing. */
  function Overwrite(old_value: Option<string>, written: Option<string>): Option<string> {
    if written.Some? then written else old_value
  }

  /** extractAffiliationInfo. */
  method ExtractAffiliationInfo(l: Literature, look: ElementsLookup) returns (r: Literature)
    ensures r == l.(affiliation := Overwrite(l.affiliation, JoinedValue(look, AFFILIATION_SEPARATOR)))
  {
    r := l;
    if look.Elements? && look.texts != [] {
      var s := AppendEach(look.texts, AFFILIATION_SEPARATOR);
      r := l.(affiliation := Some(Trim(s)));
    }
  }

  /** extractJournalInfo. */
  function ExtractJournalInfo(l: Literature, look: ElementLookup): (r: Literature)
    ensures look.Found? ==> r.journal == Some(Trim(look.text))
    ensures look.Missing? ==> r == l
    ensures r == l.(journal := r.journal)
  {
    if look.Found? then l.(journal := Some(Trim(look.text))) else l
  }

  /** extractDOI. */
  function ExtractDoi(l: Literature, look: ElementLookup): (r: Literature)
    ensures look.Found? ==> r.doi == Some(Trim(look.text))
    ensures look.Missing? ==> r == l
    ensures r == l.(doi := r.doi)
  {
    if look.Found? then l.(doi := Some(Trim(look.text))) else l
  }

  /** extractKeywords. */
  method ExtractKeywords(l: Literature, look: ElementsLookup) returns (r: Literature)
    ensures r == l.(keywords := Overwrite(l.keywords, JoinedValue(look, LIST_SEPARATOR)))
  {
    r := l;
    if look.Elements? && look.texts != [] {
      var s := AppendEach(look.texts, LIST_SEPARATOR);
      r := l.(keywords := Some(Trim(s)));
    }
  }

  /** extractMeshTerms. */
  method ExtractMeshTerms(l: Literature, look: ElementsLookup) returns (r: Literature)
    ensures r == l.(meshTerms := Overwrite(l.meshTerms, JoinedValue(look, LIST_SEPARATOR)))
  {
    r := l;
    if look.Elements? && look.texts != [] {
      var s := AppendEach(look.texts, LIST_SEPARATOR);
      r := l.(meshTerms := Some(Trim(s)));
    }
  }

  /** The record after the five helpers, each guarded on its own. */
  function Enriched(l: Literature, p: DetailPage): Literature {
    l.(affiliation := Overwrite(l.affiliation, JoinedValue(p.affiliations, AFFILIATION_SEPARATOR)),
       journal := Overwrite(l.journal, FoundValue(p.journal)),
       doi := Overwrite(l.doi, FoundValue(p.doi)),
       keywords := Overwrite(l.keywords, JoinedValue(p.keywords, LIST_SEPARATOR)),
       meshTerms := Overwrite(l.meshTerms, JoinedValue(p.meshTerms, LIST_SEPARATOR)))
  }

  /** Running the helpers one after the other is the fieldwise enrichment: no
      helper's outcome, failure included, reaches another's field. */
  method ExtractAll(l: Literature, p: DetailPage) returns (r: Literature)
    ensures r == Enriched(l, p)
  {
    r := ExtractAffiliationInfo(l, p.affiliations);
    r := ExtractJournalInfo(r, p.journal);
    r := ExtractDoi(r, p.doi);
    r := ExtractKeywords(r, p.keywords);
    r := ExtractMeshTerms(r, p.meshTerms);
  }

  /** Enrichment only adds: a field it writes gets a value, a field it does
      not write keeps its value, and the listing fields never change. */
  lemma EnrichedIsAdditive(l: Literature, p: DetailPage)
    ensures var e := Enriched(l, p);
      && e.pmid == l.pmid && e.title == l.title && e.authors == l.authors
      && e.abstractText == l.abstractText && e.publicationDate == l.publicationDate && e.url == l.url
      && e.publicationTypes == l.publicationTypes && e.fullText == l.fullText && e.authorList == l.authorList
      && (l.affiliation.Some? ==> e.affiliation.Some?) && (l.journal.Some? ==> e.journal.Some?)
      && (l.doi.Some? ==> e.doi.Some?) && (l.keywords.Some? ==> e.keywords.Some?)
      && (l.meshTerms.Some? ==> e.meshTerms.Some?)
  {
  }

  /** A page with an empty or unreadable keyword list still fills the other
      fields, and keeps whatever keywords the record had. */
  lemma MissingKeywordsKeepOtherFields(l: Literature, p: DetailPage)
    requires p.keywords == Raised || p.keywords == Elements([])
    ensures Enriched(l, p).keywords == l.keywords
    ensures Enriched(l, p) == Enriched(l, p.(keywords := Raised))
  {
  }

  /** A non-empty keyword list is stored with its trailing comma. */
  lemma StoredKeywordsEndWithComma(l: Literature, p: DetailPage)
    requires p.keywords.Elements? && p.keywords.texts != []
    ensures var k := Enriched(l, p).keywords;
      k.Some? && |k.value| > 0 && k.value[|k.value| - 1] == ','
  {
    TrimmedJoinEndsWithSeparator(p.keywords.texts, LIST_SEPARATOR);
  }

  /** A non-empty affiliation list is stored with its trailing semicolon. */
  lemma StoredAffiliationsEndWithSemicolon(l: Literature, p: DetailPage)
    requires p.affiliations.Elements? && p.affiliations.texts != []
    ensures var a := Enriched(l, p).affiliation;
      a.Some? && |a.value| > 0 && a.value[|a.value| - 1] == ';'
  {
    TrimmedJoinEndsWithSeparator(p.affiliations.texts, AFFILIATION_SEPARATOR);
  }

  // ---------------------------------------------------------------------------
  // Browser sessions.

  /** A browser session object. A driver launched here is a ChromeDriver. */
  datatype WebDriver = WebDriver(id: nat, isChromeDriver: bool)

  /** The session a detail fetch runs in: one launched for it, or the
      injected one. */
  datatype Session = Owned(driver: WebDriver) | Borrowed(driver: WebDriver)

  /** The injected driver is used when it is a ChromeDriver; otherwise a new
      ChromeDriver is launched, which may fail (None). */
  function SessionFor(injected: WebDriver, launched: Option<nat>): Option<Session> {
    if injected.isChromeDriver then Some(Borrowed(injected))
    else if launched.Some? then Some(Owned(WebDriver(launched.value, true)))
    else None
  }

  /** The record after navigating to its url: enriched when the page renders,
      unchanged when the url is null, navigation fails or the wait times out. */
  function Visited(l: Literature, detail: string -> DetailFetch): Literature {
    if l.url.Some? && detail(l.url.value).Rendered? then Enriched(l, detail(l.url.value).page) else l
  }

  /** extractDetailedInfo as a value: the new record and the drivers quit. */
  function DetailedInfo(l: Literature, injected: Option<WebDriver>, launched: Option<nat>,
                        detail: string -> DetailFetch): (Literature, seq<WebDriver>)
  {
    if injected.None? then (l, [])
    else match SessionFor(injected.value, launched)
      case None => (l, [])
      case Some(s) => (Visited(l, detail), if s.Owned? then [s.driver] else [])
  }

  /** extractDetailedInfo: pick or launch a driver, visit the page, run the
      helpers, and in `finally` quit the driver unless it is the injected one. */
  method ExtractDetailedInfo(l: Literature, injected: Option<WebDriver>, launched: Option<nat>,
                             detail: string -> DetailFetch)
    returns (r: Literature, quits: seq<WebDriver>)
    ensures (r, quits) == DetailedInfo(l, injected, launched, detail)
  {
    r := l;
    quits := [];
    if injected.None? {
      return;
    }
    var driver: Option<WebDriver> := None;
    // try
    if injected.value.isChromeDriver {
      driver := injected;
    } else if launched.Some? {
      driver := Some(WebDriver(launched.value, true));
    }
    if driver.Some? && l.url.Some? {
      var fetched := detail(l.url.value);
      if fetched.Rendered? {
        r := ExtractAll(l, fetched.page);
      }
    }
    // finally
    if driver.Some? && driver != injected {
      quits := [driver.value];
    }
  }

  /** Without an injected driver the record is left as the listing made it. */
  lemma NoDriverLeavesRecord(l: Literature, launched: Option<nat>, detail: string -> DetailFetch)
    ensures DetailedInfo(l, None, launched, detail) == (l, [])
  {
  }

  /** The injected driver is never quit. */
  lemma InjectedDriverNeverQuit(l: Literature, injected: Option<WebDriver>, launched: Option<nat>,
                                detail: string -> DetailFetch)
    ensures forall q :: q in DetailedInfo(l, injected, launched, detail).1 ==> Some(q) != injected
  {
  }

  /** A driver launched here is quit exactly once, whatever the page does:
      rendered, timed out, or never reached for want of a url. */
  lemma LaunchedDriverAlwaysQuit(l: Literature, w: WebDriver, id: nat, detail: string -> DetailFetch)
    requires !w.isChromeDriver
    ensures DetailedInfo(l, Some(w), Some(id), detail).1 == [WebDriver(id, true)]
  {
  }

  /** The `finally` test `driver != webDriver` is exactly "the session is owned". */
  lemma QuitTestIsOwnership(w: WebDriver, launched: Option<nat>)
    requires SessionFor(w, launched).Some?
    ensures SessionFor(w, launched).value.Owned? <==> SessionFor(w, launched).value.driver != w
  {
  }

  /** The detail step never changes what the listing filled in. */
  lemma DetailedInfoKeepsListingFields(l: Literature, injected: Option<WebDriver>, launched: Option<nat>,
                                       detail: string -> DetailFetch)
    ensures var r := DetailedInfo(l, injected, launched, detail).0;
      && r.pmid == l.pmid && r.title == l.title && r.authors == l.authors
      && r.abstractText == l.abstractText && r.publicationDate == l.publicationDate && r.url == l.url
  {
    if l.url.Some? && detail(l.url.value).Rendered? {
      EnrichedIsAdditive(l, detail(l.url.value).page);
    }
  }

  /** When the page does not render, or the driver cannot be launched, the
      record is unchanged. */
  lemma FailedVisitLeavesRecord(l: Literature, injected: Option<WebDriver>, launched: Option<nat>,
                                detail: string -> DetailFetch)
    requires l.url.None? || detail(l.url.value).NotRendered?
    ensures DetailedInfo(l, injected, launched, detail).0 == l
  {
  }
}
