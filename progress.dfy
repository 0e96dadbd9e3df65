/** The in-memory crawl progress tracker (CrawlProgressService): one progress
    entry per search term, created by a start and then updated, completed,
    failed or removed. */
module CrawlProgressTracking {
  import opened Common

  /** The status phrases the tracker and the crawler store. */
  datatype Status =
    | Starting                              // start of tracking
    | Searching                             // listing page being fetched
    | ExtractingBasics(done: int, of: int)  // listing block `done` of `of`
    | FetchingDetails(done: int, of: int)   // detail page `done` of `of`
    | Saving
    | Completed
    | Failed(error: string)                 // failure prefix followed by the message

  /** One progress entry. The start time is a clock reading and is not
      modelled; the elapsed time is a parameter of FormatElapsed instead. */
  datatype CrawlProgress = CrawlProgress(
    searchTerm: string,
    totalItems: int,
    processedItems: int,
    percentage: int,
    status: Status,
    isActive: bool)

  /** `min((processed * 100) / total, 100)` in Java int arithmetic: the product
      wraps at 32 bits and the quotient rounds toward zero; 0 when total <= 0. */
  function Percentage(processed: int, total: int): (pct: int)
    ensures pct <= 100
  {
    var percentage := if total > 0 then JavaDiv(WrapInt32(processed * 100), total) else 0;
    Min(percentage, 100)
  }

  function Started(term: string, total: int): CrawlProgress {
    CrawlProgress(term, total, 0, 0, Starting, true)
  }

  function Updated(p: CrawlProgress, processed: int, status: Status): CrawlProgress {
    p.(processedItems := processed, status := status, percentage := Percentage(processed, p.totalItems))
  }

  function CompletedEntry(p: CrawlProgress): CrawlProgress {
    p.(status := Completed, percentage := 100, processedItems := p.totalItems, isActive := false)
  }

  function FailedEntry(p: CrawlProgress, error: string): CrawlProgress {
    p.(status := Failed(error), isActive := false)
  }

  /** A call on the tracker. */
  datatype Call =
    | Start(term: string, total: int)
    | Update(term: string, processed: int, status: Status)
    | Complete(term: string)
    | Fail(term: string, error: string)
    | Remove(term: string)

  /** The map after one call. Update, complete and fail do nothing to an
      absent term. */
  function Apply(m: map<string, CrawlProgress>, c: Call): map<string, CrawlProgress> {
    match c
    case Start(t, total) => m[t := Started(t, total)]
    case Update(t, processed, status) => if t in m then m[t := Updated(m[t], processed, status)] else m
    case Complete(t) => if t in m then m[t := CompletedEntry(m[t])] else m
    case Fail(t, error) => if t in m then m[t := FailedEntry(m[t], error)] else m
    case Remove(t) => m - {t}
  }

  /** The map after a sequence of calls, in order. */
  function ApplyAll(m: map<string, CrawlProgress>, cs: seq<Call>): map<string, CrawlProgress> {
    if cs == [] then m else Apply(ApplyAll(m, cs[..|cs| - 1]), cs[|cs| - 1])
  }

  lemma ApplyAllSnoc(m: map<string, CrawlProgress>, cs: seq<Call>, c: Call)
    ensures ApplyAll(m, cs + [c]) == Apply(ApplyAll(m, cs), c)
  {
    assert (cs + [c])[..|cs|] == cs;
  }

  lemma {:induction false} ApplyAllAppend(m: map<string, CrawlProgress>, xs: seq<Call>, ys: seq<Call>)
    ensures ApplyAll(m, xs + ys) == ApplyAll(ApplyAll(m, xs), ys)
    decreases |ys|
  {
    if ys == [] {
      assert xs + ys == xs;
    } else {
      var init := ys[..|ys| - 1];
      assert xs + ys == (xs + init) + [ys[|ys| - 1]];
      ApplyAllSnoc(m, xs + init, ys[|ys| - 1]);
      ApplyAllAppend(m, xs, init);
      ApplyAllSnoc(ApplyAll(m, xs), init, ys[|ys| - 1]);
    }
  }

  // ---------------------------------------------------------------------------
  // The tracker object.

  class CrawlProgressService {
    var progressMap: map<string, CrawlProgress>
    /** Every call made on the tracker, oldest first. */
    ghost var calls: seq<Call>

    constructor()
      ensures progressMap == map[] && calls == []
    {
      progressMap := map[];
      calls := [];
    }

    /** startCrawl: a fresh entry, replacing any entry the term had. */
    method StartCrawl(term: string, totalItems: int)
      modifies this
      ensures progressMap == Apply(old(progressMap), Start(term, totalItems))
      ensures calls == old(calls) + [Start(term, totalItems)]
    {
      progressMap := progressMap[term := Started(term, totalItems)];
      calls := calls + [Start(term, totalItems)];
    }

    /** updateProgress: processed count, status and percentage of an existing
      entry; nothing for an absent term. */
    method UpdateProgress(term: string, processedItems: int, status: Status)
      modifies this
      ensures progressMap == Apply(old(progressMap), Update(term, processedItems, status))
      ensures calls == old(calls) + [Update(term, processedItems, status)]
    {
      if term in progressMap {
        progressMap := progressMap[term := Updated(progressMap[term], processedItems, status)];
      }
      calls := calls + [Update(term, processedItems, status)];
    }

    /** completeCrawl. */
    method CompleteCrawl(term: string)
      modifies this
      ensures progressMap == Apply(old(progressMap), Complete(term))
      ensures calls == old(calls) + [Complete(term)]
    {
      if term in progressMap {
        progressMap := progressMap[term := CompletedEntry(progressMap[term])];
      }
      calls := calls + [Complete(term)];
    }

    /** failCrawl. */
    method FailCrawl(term: string, error: string)
      modifies this
      ensures progressMap == Apply(old(progressMap), Fail(term, error))
      ensures calls == old(calls) + [Fail(term, error)]
    {
      if term in progressMap {
        progressMap := progressMap[term := FailedEntry(progressMap[term], error)];
      }
      calls := calls + [Fail(term, error)];
    }

    /** getProgress: the entry, or null. */
    function GetProgress(term: string): (r: Option<CrawlProgress>)
      reads this
      ensures r.Some? <==> term in progressMap
      ensures r.Some? ==> r.value == progressMap[term]
    {
      if term in progressMap then Some(progressMap[term]) else None
    }

    /** removeProgress. */
    method RemoveProgress(term: string)
      modifies this
      ensures progressMap == Apply(old(progressMap), Remove(term))
      ensures calls == old(calls) + [Remove(term)]
    {
      progressMap := progressMap - {term};
      calls := calls + [Remove(term)];
    }
  }

  // ---------------------------------------------------------------------------
  // Properties of the transitions.

  /** Each call changes at most the entry of its own term. */
  lemma CallTouchesOnlyItsTerm(m: map<string, CrawlProgress>, c: Call, k: string)
    requires k != c.term
    ensures (k in Apply(m, c)) == (k in m)
    ensures k in m ==> Apply(m, c)[k] == m[k]
  {
  }

  /** Without overflow the percentage is the floor of processed/total in
      percent, capped at 100, and never negative. */
  lemma PercentageWithoutOverflow(processed: int, total: int)
    requires 0 <= processed && processed * 100 <= INT_MAX && total > 0
    ensures Percentage(processed, total) == Min(processed * 100 / total, 100)
    ensures 0 <= Percentage(processed, total) <= 100
    ensures processed >= total ==> Percentage(processed, total) == 100
  {
    var product := processed * 100;
    assert WrapInt32(product) == product;
    assert JavaDiv(product, total) == product / total;
    if processed >= total {
      DivAtLeast(product, total, 100);
    }
  }

  /** a / b >= k when a >= k * b. */
  lemma DivAtLeast(a: int, b: int, k: int)
    requires b > 0 && a >= k * b
    ensures a / b >= k
  {
    var q, r := a / b, a % b;
    assert a == q * b + r && 0 <= r < b;
    var d := k - q - 1;
    assert k * b == q * b + b + d * b;
    assert d * b < 0;
    NegativeFactor(d, b);
  }

  lemma NegativeFactor(d: int, b: int)
    requires b > 0 && d * b < 0
    ensures d < 0
  {
  }

  /** A processed count past 21474836 overflows the product and the
      percentage goes negative. */
  lemma PercentageOverflowsNegative()
    ensures Percentage(21474837, 100) == -21474835
  {
    assert WrapInt32(2147483700) == -2147483596;
    assert JavaDiv(-2147483596, 100) == -21474835;
  }

  lemma PercentageExamples()
    ensures Percentage(3, 10) == 30
    ensures Percentage(10, 10) == 100
    ensures Percentage(12, 10) == 100
    ensures Percentage(7, 0) == 0
  {
    PercentageWithoutOverflow(3, 10);
    PercentageWithoutOverflow(10, 10);
    PercentageWithoutOverflow(12, 10);
  }

  predicate AllCallsOf(term: string, cs: seq<Call>) {
    forall j :: 0 <= j < |cs| ==> cs[j].term == term
  }

  /** Calls about one term leave every other term's entry as it was. */
  lemma {:induction false} OtherTermsUntouched(m: map<string, CrawlProgress>, term: string, cs: seq<Call>, k: string)
    requires AllCallsOf(term, cs) && k != term
    ensures (k in ApplyAll(m, cs)) == (k in m)
    ensures k in m ==> ApplyAll(m, cs)[k] == m[k]
  {
    if cs != [] {
      var init := cs[..|cs| - 1];
      assert AllCallsOf(term, init) by {
        forall j | 0 <= j < |init| ensures init[j].term == term {
          assert init[j] == cs[j];
        }
      }
      OtherTermsUntouched(m, term, init, k);
      CallTouchesOnlyItsTerm(ApplyAll(m, init), cs[|cs| - 1], k);
    }
  }

  predicate AllUpdatesOf(term: string, cs: seq<Call>) {
    forall j :: 0 <= j < |cs| ==> cs[j].Update? && cs[j].term == term
  }

  /** Updates keep an entry present, with its term and total. */
  lemma {:induction false} UpdatesKeepEntry(m: map<string, CrawlProgress>, term: string, cs: seq<Call>)
    requires term in m && AllUpdatesOf(term, cs)
    ensures term in ApplyAll(m, cs)
    ensures ApplyAll(m, cs)[term].totalItems == m[term].totalItems
    ensures ApplyAll(m, cs)[term].searchTerm == m[term].searchTerm
    ensures ApplyAll(m, cs)[term].isActive == m[term].isActive
    ensures cs == [] ==> ApplyAll(m, cs)[term] == m[term]
    ensures cs != [] ==> ApplyAll(m, cs)[term].processedItems == cs[|cs| - 1].processed
  {
    if cs != [] {
      var init := cs[..|cs| - 1];
      assert AllUpdatesOf(term, init) by {
        forall j | 0 <= j < |init| ensures init[j].Update? && init[j].term == term {
          assert init[j] == cs[j];
        }
      }
      UpdatesKeepEntry(m, term, init);
      assert cs[|cs| - 1].Update? && cs[|cs| - 1].term == term;
    }
  }

  /** completeCrawl after a start and any updates: processed = total,
      100 percent, inactive, whatever the last update said. */
  lemma CompleteOverridesUpdates(m: map<string, CrawlProgress>, term: string, total: int, cs: seq<Call>)
    requires AllUpdatesOf(term, cs)
    ensures var e := ApplyAll(m, [Start(term, total)] + cs + [Complete(term)]);
      term in e && e[term] == CrawlProgress(term, total, total, 100, Completed, false)
  {
    var m1 := ApplyAll(m, [Start(term, total)]);
    assert m1 == Apply(m, Start(term, total)) by {
      ApplyAllSnoc(m, [], Start(term, total));
      assert [] + [Start(term, total)] == [Start(term, total)];
    }
    ApplyAllAppend(m, [Start(term, total)], cs);
    UpdatesKeepEntry(m1, term, cs);
    ApplyAllSnoc(m, [Start(term, total)] + cs, Complete(term));
  }

  /** failCrawl after a start and any updates: the processed count of the last
      update (0 without one) stays, the entry turns inactive with the error. */
  lemma FailFreezesProgress(m: map<string, CrawlProgress>, term: string, total: int, cs: seq<Call>, error: string)
    requires AllUpdatesOf(term, cs)
    ensures var before := ApplyAll(m, [Start(term, total)] + cs);
      var e := ApplyAll(m, [Start(term, total)] + cs + [Fail(term, error)]);
      && term in before && term in e
      && e[term] == before[term].(status := Failed(error), isActive := false)
      && e[term].totalItems == total
      && e[term].processedItems == (if cs == [] then 0 else cs[|cs| - 1].processed)
  {
    var m1 := ApplyAll(m, [Start(term, total)]);
    assert m1 == Apply(m, Start(term, total)) by {
      ApplyAllSnoc(m, [], Start(term, total));
      assert [] + [Start(term, total)] == [Start(term, total)];
    }
    ApplyAllAppend(m, [Start(term, total)], cs);
    UpdatesKeepEntry(m1, term, cs);
    ApplyAllSnoc(m, [Start(term, total)] + cs, Fail(term, error));
  }

  /** The scenario of a ten-item crawl that fails at item four. */
  lemma FailAtFourOfTen(m: map<string, CrawlProgress>, term: string, error: string)
    ensures var cs := [Update(term, 4, ExtractingBasics(4, 10))];
      var e := ApplyAll(m, [Start(term, 10)] + cs + [Fail(term, error)]);
      term in e && e[term] == CrawlProgress(term, 10, 4, 40, Failed(error), false)
  {
    var cs := [Update(term, 4, ExtractingBasics(4, 10))];
    FailFreezesProgress(m, term, 10, cs, error);
    PercentageWithoutOverflow(4, 10);
  }

  // ---------------------------------------------------------------------------
  // CrawlProgress.getFormattedElapsedTime, on the elapsed milliseconds.

  /** The three renderings: hours-minutes-seconds, minutes-seconds, seconds. */
  datatype ElapsedText =
    | HoursMinutesSeconds(hours: int, minutes: int, seconds: int)
    | MinutesSeconds(minutes: int, seconds: int)
    | SecondsOnly(seconds: int)

  /** The hour form shows at least one hour, and the minute form at least
      one minute and fewer than sixty. */
  function FormatElapsed(elapsed: int): (r: ElapsedText)
    ensures r.HoursMinutesSeconds? ==> r.hours >= 1
    ensures r.MinutesSeconds? ==> 1 <= r.minutes < 60
  {
    var seconds := JavaDiv(elapsed, 1000);
    var minutes := JavaDiv(seconds, 60);
    var hours := JavaDiv(minutes, 60);
    if hours > 0 then HoursMinutesSeconds(hours, JavaRem(minutes, 60), JavaRem(seconds, 60))
    else if minutes > 0 then MinutesSeconds(minutes, JavaRem(seconds, 60))
    else SecondsOnly(seconds)
  }

  /** The whole seconds a rendering stands for. */
  function TotalSeconds(t: ElapsedText): int {
    match t
    case HoursMinutesSeconds(h, m, s) => 3600 * h + 60 * m + s
    case MinutesSeconds(m, s) => 60 * m + s
    case SecondsOnly(s) => s
  }

  /** The hour form from one hour on, the minute form from one minute on,
      and the seconds form below a minute (including a negative elapsed time). */
  lemma ElapsedFormSelection(elapsed: int)
    ensures FormatElapsed(elapsed).HoursMinutesSeconds? <==> elapsed >= 3600000
    ensures FormatElapsed(elapsed).MinutesSeconds? <==> 60000 <= elapsed < 3600000
    ensures FormatElapsed(elapsed).SecondsOnly? <==> elapsed < 60000
  {
    if elapsed >= 0 {
      assert JavaDiv(elapsed, 1000) == elapsed / 1000;
      assert JavaDiv(elapsed / 1000, 60) == elapsed / 1000 / 60 == elapsed / 60000;
      assert JavaDiv(elapsed / 60000, 60) == elapsed / 60000 / 60 == elapsed / 3600000;
    }
  }

  /** For a non-negative elapsed time, the minutes and seconds shown lie in
      [0, 60) in the hour form, the seconds do in the minute form, and the
      rendering adds up to the elapsed whole seconds. */
  lemma ElapsedComponents(elapsed: int)
    requires elapsed >= 0
    ensures var t := FormatElapsed(elapsed);
      && (t.HoursMinutesSeconds? ==> 0 <= t.minutes < 60 && 0 <= t.seconds < 60)
      && (t.MinutesSeconds? ==> 0 <= t.seconds < 60)
      && TotalSeconds(t) == elapsed / 1000
  {
    var seconds := elapsed / 1000;
    var minutes := seconds / 60;
    assert JavaDiv(elapsed, 1000) == seconds;
    assert JavaDiv(seconds, 60) == minutes;
    assert JavaDiv(minutes, 60) == minutes / 60;
    assert JavaRem(seconds, 60) == seconds % 60;
    assert JavaRem(minutes, 60) == minutes % 60;
  }
}
