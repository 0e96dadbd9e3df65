/** The first stage of a crawl: one record per listing block of the search
    results page (PubMedCrawlerService.extractBasicInfo), and the records the
    listing loop of searchAndCrawl keeps. */
module ListingExtraction {
  import opened Common
  import opened Entities
  import opened DateParsing

  const PUBMED_BASE_URL: string := "https://pubmed.ncbi.nlm.nih.gov"

  /** The outcome of looking up one child element of a listing block and
      reading its text: the text, no such element, or an exception. */
  datatype Selected = Present(text: string) | Absent | Raises

  /** One `.docsum-content` block, by the selector of each child element read. */
  datatype ListingBlock = ListingBlock(
    pmid: Selected,        // .docsum-pmid
    title: Selected,       // .docsum-title
    authors: Selected,     // .docsum-authors
    citation: Selected,    // .docsum-journal-citation
    snippet: Selected)     // .docsum-snippet

  predicate AnyRaises(b: ListingBlock) {
    b.pmid.Raises? || b.title.Raises? || b.authors.Raises? || b.citation.Raises? || b.snippet.Raises?
  }

  /** The trimmed text of a lookup that found its element. */
  function TrimmedText(s: Selected): Option<string> {
    if s.Present? then Some(Trim(s.text)) else None
  }

  /** The publication date a citation lookup yields. */
  function CitationDate(s: Selected): Option<Date> {
    if s.Present? then ParseDate(Trim(s.text)) else None
  }

  /** extractBasicInfo: a fresh record whose fields the setters fill one by
      one; any exception in a lookup turns the whole result into null. */
  function ExtractBasicInfo(b: ListingBlock): (r: Option<Literature>)
    ensures r.None? <==> AnyRaises(b)
    ensures r.Some? ==> var l := r.value;
      && l.pmid == TrimmedText(b.pmid)
      && l.title == TrimmedText(b.title)
      && l.authors == TrimmedText(b.authors)
      && l.abstractText == TrimmedText(b.snippet)
      && l.publicationDate == CitationDate(b.citation)
      && (l.url.Some? <==> l.pmid.Some?)
      && (l.url.Some? ==> l.url.value == PUBMED_BASE_URL + "/" + l.pmid.value)
      && l.journal.None? && l.affiliation.None? && l.keywords.None? && l.doi.None?
      && l.publicationTypes.None? && l.meshTerms.None? && l.fullText.None? && l.authorList.None?
  {
    if AnyRaises(b) then None
    else
      var l0 := EmptyLiterature;
      var l1 := if b.pmid.Present? then l0.(pmid := Some(Trim(b.pmid.text))) else l0;
      var l2 := if b.title.Present? then l1.(title := Some(Trim(b.title.text))) else l1;
      var l3 := if b.authors.Present? then l2.(authors := Some(Trim(b.authors.text))) else l2;
      var l4 :=
        if b.citation.Present? && ParseDate(Trim(b.citation.text)).Some?
        then l3.(publicationDate := ParseDate(Trim(b.citation.text)))
        else l3;
      var l5 := if b.snippet.Present? then l4.(abstractText := Some(Trim(b.snippet.text))) else l4;
      var l6 := if l5.pmid.Some? then l5.(url := Some(PUBMED_BASE_URL + "/" + l5.pmid.value)) else l5;
      Some(l6)
  }

  /** The fields a listing block fills: everything else stays null. */
  predicate ListingFieldsOnly(l: Literature) {
    l.journal.None? && l.affiliation.None? && l.keywords.None? && l.doi.None?
    && l.publicationTypes.None? && l.meshTerms.None? && l.fullText.None? && l.authorList.None?
  }

  /** A block without a pmid is kept, with no pmid and no url: only an
      exception drops a block. */
  lemma BlockWithoutPmidIsKept(b: ListingBlock)
    requires b.pmid.Absent? && !AnyRaises(b)
    ensures ExtractBasicInfo(b).Some?
    ensures ExtractBasicInfo(b).value.pmid.None? && ExtractBasicInfo(b).value.url.None?
    ensures ExtractBasicInfo(b).value.title == TrimmedText(b.title)
  {
  }

  /** A missing title element leaves only the title null: the other fields
      are what they would have been with the element present. */
  lemma MissingTitleAffectsOnlyTitle(b: ListingBlock, t: string)
    requires b.title.Absent? && !AnyRaises(b)
    ensures var with := ExtractBasicInfo(b.(title := Present(t)));
      ExtractBasicInfo(b) == Some(with.value.(title := None))
  {
  }

  /** A missing snippet leaves only the abstract null. */
  lemma MissingSnippetAffectsOnlyAbstract(b: ListingBlock, t: string)
    requires b.snippet.Absent? && !AnyRaises(b)
    ensures var with := ExtractBasicInfo(b.(snippet := Present(t)));
      ExtractBasicInfo(b) == Some(with.value.(abstractText := None))
  {
  }

  /** The citation text is trimmed before parseDate trims it again; the second
      trim changes nothing. */
  lemma CitationDateIgnoresSurroundingBlanks(t: string)
    ensures CitationDate(Present(t)) == ParseDate(t)
  {
    TrimIdempotent(t);
  }

  /** The records the listing loop keeps: the non-null results, in document
      order. */
  function BasicResults(blocks: seq<ListingBlock>): (r: seq<Literature>)
    ensures |r| <= |blocks|
    ensures forall k :: 0 <= k < |r| ==> ListingFieldsOnly(r[k])
  {
    if blocks == [] then []
    else
      var last := blocks[|blocks| - 1];
      BasicResults(blocks[..|blocks| - 1])
        + (if ExtractBasicInfo(last).Some? then [ExtractBasicInfo(last).value] else [])
  }

  /** One more block adds its record when it has one. */
  lemma BasicResultsStep(blocks: seq<ListingBlock>, j: nat)
    requires j < |blocks|
    ensures var r := ExtractBasicInfo(blocks[j]);
      BasicResults(blocks[..j + 1]) == BasicResults(blocks[..j]) + (if r.Some? then [r.value] else [])
  {
    assert blocks[..j + 1][..j] == blocks[..j];
  }

  /** The number of blocks some lookup of which raises. */
  function BrokenCount(blocks: seq<ListingBlock>): (n: nat)
    ensures n <= |blocks|
  {
    if blocks == [] then 0
    else BrokenCount(blocks[..|blocks| - 1]) + (if AnyRaises(blocks[|blocks| - 1]) then 1 else 0)
  }

  /** Exactly the broken blocks are dropped. */
  lemma {:induction false} BasicResultsCount(blocks: seq<ListingBlock>)
    ensures |BasicResults(blocks)| == |blocks| - BrokenCount(blocks)
  {
    if blocks != [] {
      BasicResultsCount(blocks[..|blocks| - 1]);
    }
  }

  /** The kept records of two runs of blocks follow each other. */
  lemma {:induction false} BasicResultsAppend(xs: seq<ListingBlock>, ys: seq<ListingBlock>)
    ensures BasicResults(xs + ys) == BasicResults(xs) + BasicResults(ys)
    decreases |ys|
  {
    if ys == [] {
      assert xs + ys == xs;
    } else {
      var ys' := ys[..|ys| - 1];
      assert (xs + ys)[..|xs + ys| - 1] == xs + ys';
      assert (xs + ys)[|xs + ys| - 1] == ys[|ys| - 1];
      BasicResultsAppend(xs, ys');
    }
  }

  /** Every kept record is the extraction of one of the blocks. */
  lemma {:induction false} BasicResultsAreExtractions(blocks: seq<ListingBlock>, k: nat)
    requires k < |BasicResults(blocks)|
    ensures exists j :: 0 <= j < |blocks| && ExtractBasicInfo(blocks[j]) == Some(BasicResults(blocks)[k])
  {
    var init := blocks[..|blocks| - 1];
    var last := blocks[|blocks| - 1];
    if k < |BasicResults(init)| {
      BasicResultsAreExtractions(init, k);
      var j :| 0 <= j < |init| && ExtractBasicInfo(init[j]) == Some(BasicResults(init)[k]);
      assert blocks[j] == init[j];
    } else {
      assert ExtractBasicInfo(blocks[|blocks| - 1]) == Some(BasicResults(blocks)[k]);
    }
  }

  /** One broken block among good ones costs exactly that block. */
  lemma OneBrokenBlockIsSkipped(xs: seq<ListingBlock>, bad: ListingBlock, ys: seq<ListingBlock>)
    requires AnyRaises(bad)
    ensures BasicResults(xs + [bad] + ys) == BasicResults(xs) + BasicResults(ys)
  {
    assert BasicResults([bad]) == [] by {
      assert [bad][..0] == [];
      assert ExtractBasicInfo(bad).None?;
    }
    BasicResultsAppend(xs + [bad], ys);
    BasicResultsAppend(xs, [bad]);
  }
}
