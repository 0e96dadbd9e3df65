/** Normalisation of the free-text citation date of a listing block
    (PubMedCrawlerService.parseDate).

    The five patterns are java.time `DateTimeFormatter.ofPattern` patterns
    handed to `LocalDate.parse`, whose semantics are written out here:
    - `yyyy` reads exactly four unsigned ASCII digits (strict parsing of a
      year-of-era padded to four rejects a longer unsigned run), and a
      year-of-era of 0 is rejected when the date is resolved;
    - `dd` reads exactly two ASCII digits, 01 to 31;
    - `MMM` reads one of the twelve English short month names, case-sensitively;
    - a space in a pattern matches one space; the whole text must be used up;
    - the default SMART resolver clamps a day beyond the month's length to the
      month's last day ("2023 Feb 30" is 28 February 2023);
    - a `LocalDate` needs a day, so the three patterns without `dd` never
      produce one and their inputs reach the year fallback. */
module DateParsing {
  import opened Common
  import opened Entities

  datatype Token = YearField | MonthField | DayField | Space

  /** The fields one parse has found so far. */
  datatype Parsed = Parsed(year: Option<int>, month: Option<int>, day: Option<int>)

  const NothingParsed: Parsed := Parsed(None, None, None)

  const MonthNames: seq<string> :=
    ["Jan", "Feb", "Mar", "Apr", "May", "Jun", "Jul", "Aug", "Sep", "Oct", "Nov", "Dec"]

  /** The patterns in the order they are tried. */
  const Patterns: seq<seq<Token>> := [
    [YearField, Space, MonthField, Space, DayField],  // "yyyy MMM dd"
    [YearField, Space, MonthField],                   // "yyyy MMM"
    [MonthField, Space, YearField],                   // "MMM yyyy"
    [YearField],                                      // "yyyy"
    [MonthField, Space, DayField, Space, YearField]   // "MMM dd yyyy"
  ]

  /** The month (1 to 12) whose English short name is `s`, matched
      case-sensitively. Every short name is three chars long, so the `MMM`
      field reads exactly the next three chars. */
  function MonthNumber(s: string): (r: Option<int>)
    ensures r.Some? ==> 1 <= r.value <= 12
    ensures r.Some? ==> |s| == 3 && 'A' <= s[0] <= 'Z' && 'a' <= s[1] <= 'z' && 'a' <= s[2] <= 'z'
  {
    if |s| != 3 then None
    else match (s[0], s[1], s[2])
      case ('J', 'a', 'n') => Some(1)
      case ('F', 'e', 'b') => Some(2)
      case ('M', 'a', 'r') => Some(3)
      case ('A', 'p', 'r') => Some(4)
      case ('M', 'a', 'y') => Some(5)
      case ('J', 'u', 'n') => Some(6)
      case ('J', 'u', 'l') => Some(7)
      case ('A', 'u', 'g') => Some(8)
      case ('S', 'e', 'p') => Some(9)
      case ('O', 'c', 't') => Some(10)
      case ('N', 'o', 'v') => Some(11)
      case ('D', 'e', 'c') => Some(12)
      case _ => None
  }

  /** MonthNumber reads exactly the twelve names, each as its own month. */
  lemma MonthNumberOfName(m: int)
    requires 1 <= m <= 12
    ensures MonthNumber(MonthNames[m - 1]) == Some(m)
  {
  }

  lemma MonthNumberIsName(s: string)
    requires MonthNumber(s).Some?
    ensures s == MonthNames[MonthNumber(s).value - 1]
  {
  }

  /** Matches `t` against a pattern, all of `t` and all of the pattern. */
  function ParseTokens(t: string, toks: seq<Token>, acc: Parsed): Option<Parsed>
    decreases toks
  {
    if toks == [] then (if t == [] then Some(acc) else None)
    else match toks[0]
      case Space =>
        if |t| > 0 && t[0] == ' ' then ParseTokens(t[1..], toks[1..], acc) else None
      case YearField =>
        if |t| >= 4 && AllDigits(t[..4]) && (|t| == 4 || !IsDigit(t[4]))
        then ParseTokens(t[4..], toks[1..], acc.(year := Some(DigitsValue(t[..4]))))
        else None
      case DayField =>
        if |t| >= 2 && AllDigits(t[..2])
        then ParseTokens(t[2..], toks[1..], acc.(day := Some(DigitsValue(t[..2]))))
        else None
      case MonthField =>
        if |t| >= 3 && MonthNumber(t[..3]).Some?
        then ParseTokens(t[3..], toks[1..], acc.(month := MonthNumber(t[..3])))
        else None
  }

  /** LocalDate.from under the SMART resolver. */
  function Resolve(p: Parsed): (r: Option<Date>)
    ensures r.Some? ==> ValidDate(r.value)
    ensures r.Some? ==> p.day.Some? && r.value.day <= p.day.value
    ensures r.Some? ==> Some(r.value.year) == p.year && Some(r.value.month) == p.month
  {
    if p.year.Some? && p.month.Some? && p.day.Some?
       && p.year.value >= 1 && 1 <= p.month.value <= 12 && 1 <= p.day.value <= 31
    then
      var y, m := p.year.value, p.month.value;
      Some(Date(y, m, Min(p.day.value, DaysInMonth(y, m))))
    else None
  }

  /** `LocalDate.parse(text, DateTimeFormatter.ofPattern(pattern))`, with the
      exception it throws on failure read as `None`. */
  function TryPattern(t: string, toks: seq<Token>): Option<Date> {
    match ParseTokens(t, toks, NothingParsed)
    case Some(p) => Resolve(p)
    case None => None
  }

  /** The loop over the patterns: the first one that parses wins. */
  function FirstParse(t: string, pats: seq<seq<Token>>): (r: Option<Date>)
    ensures r.None? <==> forall j :: 0 <= j < |pats| ==> TryPattern(t, pats[j]).None?
    ensures r.Some? ==> exists k :: 0 <= k < |pats| && TryPattern(t, pats[k]) == r
                          && forall j :: 0 <= j < k ==> TryPattern(t, pats[j]).None?
    decreases |pats|
  {
    if pats == [] then None
    else match TryPattern(t, pats[0])
      case Some(d) => Some(d)
      case None =>
        var r := FirstParse(t, pats[1..]);
        assert forall j :: 1 <= j < |pats| ==> pats[j] == pats[1..][j - 1];
        r
  }

  predicate FourDigitsAt(t: string, i: int) {
    0 <= i && i + 4 <= |t| && AllDigits(t[i..i + 4])
  }

  /** The regular expression `\d{4}` searched from index i: the start of the
      leftmost run of four ASCII digits. */
  function FindYearFrom(t: string, i: nat): (r: Option<nat>)
    decreases |t| - i
    ensures r.Some? ==> i <= r.value && FourDigitsAt(t, r.value)
    ensures r.Some? ==> forall j :: i <= j < r.value ==> !FourDigitsAt(t, j)
    ensures r.None? ==> forall j :: i <= j ==> !FourDigitsAt(t, j)
  {
    if i + 4 > |t| then None
    else if FourDigitsAt(t, i) then Some(i)
    else FindYearFrom(t, i + 1)
  }

  /** parseDate: the trimmed text through the patterns in order, then the
      first four-digit run as a year dated 1 January, else absent. Blank
      text gives null, a text some pattern reads is never discarded, and any
      other date returned is 1 January. */
  function ParseDate(dateText: string): (r: Option<Date>)
    ensures Trim(dateText) == [] ==> r.None?
    ensures r.None? ==> Trim(dateText) == [] || FirstParse(Trim(dateText), Patterns).None?
    ensures r.Some? ==> Some(r.value) == FirstParse(Trim(dateText), Patterns)
                        || (r.value.month == 1 && r.value.day == 1)
  {
    var clean := Trim(dateText);
    if clean == [] then None
    else match FirstParse(clean, Patterns)
      case Some(d) => Some(d)
      case None =>
        match FindYearFrom(clean, 0)
        case Some(i) => Some(Date(DigitsValue(clean[i..i + 4]), 1, 1))
        case None => None
  }

  // ---------------------------------------------------------------------------
  // Properties.

  // One step of ParseTokens per field kind.

  lemma SpaceStep(after: string, rest: seq<Token>, acc: Parsed)
    ensures ParseTokens(" " + after, [Space] + rest, acc) == ParseTokens(after, rest, acc)
  {
    assert (" " + after)[1..] == after && ([Space] + rest)[1..] == rest;
  }

  lemma YearStep(y: string, after: string, rest: seq<Token>, acc: Parsed)
    requires |y| == 4 && AllDigits(y) && (after == [] || !IsDigit(after[0]))
    ensures ParseTokens(y + after, [YearField] + rest, acc)
            == ParseTokens(after, rest, acc.(year := Some(DigitsValue(y))))
  {
    var t := y + after;
    assert t[..4] == y && t[4..] == after && ([YearField] + rest)[1..] == rest;
    assert |t| > 4 ==> t[4] == after[0];
  }

  lemma DayStep(d: string, after: string, rest: seq<Token>, acc: Parsed)
    requires |d| == 2 && AllDigits(d)
    ensures ParseTokens(d + after, [DayField] + rest, acc)
            == ParseTokens(after, rest, acc.(day := Some(DigitsValue(d))))
  {
    var t := d + after;
    assert t[..2] == d && t[2..] == after && ([DayField] + rest)[1..] == rest;
  }

  lemma MonthStep(name: string, after: string, rest: seq<Token>, acc: Parsed)
    requires MonthNumber(name).Some?
    ensures ParseTokens(name + after, [MonthField] + rest, acc)
            == ParseTokens(after, rest, acc.(month := MonthNumber(name)))
  {
    var t := name + after;
    assert t[..3] == name && t[3..] == after && ([MonthField] + rest)[1..] == rest;
  }

  /** Every text of the shape "yyyy MMM dd" parses to exactly its three fields. */
  lemma YearMonthDayShapeParses(y: string, name: string, d: string)
    requires |y| == 4 && AllDigits(y) && MonthNumber(name).Some? && |d| == 2 && AllDigits(d)
    ensures ParseTokens(y + " " + name + " " + d, Patterns[0], NothingParsed)
            == Some(Parsed(Some(DigitsValue(y)), MonthNumber(name), Some(DigitsValue(d))))
  {
    var a1 := NothingParsed.(year := Some(DigitsValue(y)));
    var a2 := a1.(month := MonthNumber(name));
    var a3 := a2.(day := Some(DigitsValue(d)));
    assert y + " " + name + " " + d == y + (" " + (name + (" " + (d + []))));
    assert Patterns[0] == [YearField] + ([Space] + ([MonthField] + ([Space] + ([DayField] + []))));
    YearStep(y, " " + (name + (" " + (d + []))), [Space] + ([MonthField] + ([Space] + ([DayField] + []))), NothingParsed);
    SpaceStep(name + (" " + (d + [])), [MonthField] + ([Space] + ([DayField] + [])), a1);
    MonthStep(name, " " + (d + []), [Space] + ([DayField] + []), a1);
    SpaceStep(d + [], [DayField] + [], a2);
    DayStep(d, [], [], a2);
  }

  /** Every text of the shape "MMM dd yyyy" parses to exactly its three fields. */
  lemma MonthDayYearShapeParses(name: string, d: string, y: string)
    requires |y| == 4 && AllDigits(y) && MonthNumber(name).Some? && |d| == 2 && AllDigits(d)
    ensures ParseTokens(name + " " + d + " " + y, Patterns[4], NothingParsed)
            == Some(Parsed(Some(DigitsValue(y)), MonthNumber(name), Some(DigitsValue(d))))
  {
    var a1 := NothingParsed.(month := MonthNumber(name));
    var a2 := a1.(day := Some(DigitsValue(d)));
    assert name + " " + d + " " + y == name + (" " + (d + (" " + (y + []))));
    assert Patterns[4] == [MonthField] + ([Space] + ([DayField] + ([Space] + ([YearField] + []))));
    MonthStep(name, " " + (d + (" " + (y + []))), [Space] + ([DayField] + ([Space] + ([YearField] + []))), NothingParsed);
    SpaceStep(d + (" " + (y + [])), [DayField] + ([Space] + ([YearField] + [])), a1);
    DayStep(d, " " + (y + []), [Space] + ([YearField] + []), a1);
    SpaceStep(y + [], [YearField] + [], a2);
    YearStep(y, [], [], a2);
  }

  lemma ParseDateBlankIsAbsent(dateText: string)
    requires forall k :: 0 <= k < |dateText| ==> IsTrimmable(dateText[k])
    ensures ParseDate(dateText) == None
  {
    TrimShape(dateText);
  }

  /** A pattern that parses, after patterns that all fail, decides the result. */
  lemma {:induction false} FirstParseTakesFirstSuccess(t: string, pats: seq<seq<Token>>, k: nat)
    requires k < |pats| && TryPattern(t, pats[k]).Some?
    requires forall j :: 0 <= j < k ==> TryPattern(t, pats[j]).None?
    ensures FirstParse(t, pats) == TryPattern(t, pats[k])
    decreases k
  {
    if k > 0 {
      assert TryPattern(t, pats[0]).None?;
      assert forall j :: 0 <= j < k - 1 ==> pats[1..][j] == pats[j + 1];
      FirstParseTakesFirstSuccess(t, pats[1..], k - 1);
    }
  }

  /** A pattern without a day field leaves the parsed day as it was. */
  lemma {:induction false} ParseTokensKeepsDay(t: string, toks: seq<Token>, acc: Parsed)
    requires DayField !in toks
    ensures ParseTokens(t, toks, acc).Some? ==> ParseTokens(t, toks, acc).value.day == acc.day
    decreases toks
  {
    if toks != [] {
      assert DayField !in toks[1..];
      match toks[0]
      case Space =>
        if |t| > 0 && t[0] == ' ' { ParseTokensKeepsDay(t[1..], toks[1..], acc); }
      case YearField =>
        if |t| >= 4 && AllDigits(t[..4]) && (|t| == 4 || !IsDigit(t[4])) {
          ParseTokensKeepsDay(t[4..], toks[1..], acc.(year := Some(DigitsValue(t[..4]))));
        }
      case MonthField =>
        if |t| >= 3 && MonthNumber(t[..3]).Some? {
          ParseTokensKeepsDay(t[3..], toks[1..], acc.(month := MonthNumber(t[..3])));
        }
    }
  }

  /** "yyyy MMM", "MMM yyyy" and "yyyy" never yield a date, whatever the text. */
  lemma DaylessPatternsNeverYieldDate(t: string)
    ensures TryPattern(t, Patterns[1]).None?
    ensures TryPattern(t, Patterns[2]).None?
    ensures TryPattern(t, Patterns[3]).None?
  {
    ParseTokensKeepsDay(t, Patterns[1], NothingParsed);
    ParseTokensKeepsDay(t, Patterns[2], NothingParsed);
    ParseTokensKeepsDay(t, Patterns[3], NothingParsed);
  }

  /** Over the five patterns, only "yyyy MMM dd" and then "MMM dd yyyy" can
      decide the result. */
  lemma FirstParseOfPatterns(t: string)
    ensures FirstParse(t, Patterns) ==
      if TryPattern(t, Patterns[0]).Some? then TryPattern(t, Patterns[0]) else TryPattern(t, Patterns[4])
  {
    DaylessPatternsNeverYieldDate(t);
    if TryPattern(t, Patterns[0]).Some? {
      FirstParseTakesFirstSuccess(t, Patterns, 0);
    } else if TryPattern(t, Patterns[4]).Some? {
      FirstParseTakesFirstSuccess(t, Patterns, 4);
    }
  }

  /** An already trimmed text that "yyyy MMM dd" reads gets that date. */
  lemma ParseDateByFullPattern(t: string)
    requires t != [] && Trim(t) == t && TryPattern(t, Patterns[0]).Some?
    ensures ParseDate(t) == TryPattern(t, Patterns[0])
  {
    FirstParseOfPatterns(t);
  }

  /** An already trimmed text that only "MMM dd yyyy" reads gets that date. */
  lemma ParseDateByMonthFirstPattern(t: string)
    requires t != [] && Trim(t) == t
    requires TryPattern(t, Patterns[0]).None? && TryPattern(t, Patterns[4]).Some?
    ensures ParseDate(t) == TryPattern(t, Patterns[4])
  {
    FirstParseOfPatterns(t);
  }

  /** When no pattern reads the text, the leftmost four-digit run gives the
      year and the date is 1 January of it. */
  lemma ParseDateByYearRun(t: string, i: nat)
    requires t != [] && Trim(t) == t
    requires TryPattern(t, Patterns[0]).None? && TryPattern(t, Patterns[4]).None?
    requires FourDigitsAt(t, i) && forall j :: 0 <= j < i ==> !FourDigitsAt(t, j)
    ensures ParseDate(t) == Some(Date(DigitsValue(t[i..i + 4]), 1, 1))
  {
    FirstParseOfPatterns(t);
    var f := FindYearFrom(t, 0);
    assert f.Some?;
  }

  /** When no pattern reads the text and it holds no four-digit run, the
      result is absent. */
  lemma ParseDateWithoutYearRun(t: string)
    requires t != [] && Trim(t) == t
    requires TryPattern(t, Patterns[0]).None? && TryPattern(t, Patterns[4]).None?
    requires forall j :: 0 <= j ==> !FourDigitsAt(t, j)
    ensures ParseDate(t) == None
  {
    FirstParseOfPatterns(t);
  }

  /** Whatever the text, a present result is a real calendar date. */
  lemma {:induction false} ParseDateIsValid(dateText: string)
    ensures ParseDate(dateText).Some? ==> ValidDate(ParseDate(dateText).value)
  {
    var clean := Trim(dateText);
    if clean != [] && FirstParse(clean, Patterns).Some? {
      var k :| 0 <= k < |Patterns| && TryPattern(clean, Patterns[k]) == FirstParse(clean, Patterns)
               && forall j :: 0 <= j < k ==> TryPattern(clean, Patterns[j]).None?;
    }
  }


  /** A text that does not start with four digits fails "yyyy MMM dd". */
  lemma FullPatternNeedsLeadingYear(t: string)
    requires !FourDigitsAt(t, 0)
    ensures TryPattern(t, Patterns[0]).None?
  {
  }

  /** A text that does not start with a capital letter fails "MMM dd yyyy". */
  lemma MonthFirstPatternNeedsCapital(t: string)
    requires |t| == 0 || !('A' <= t[0] <= 'Z')
    ensures TryPattern(t, Patterns[4]).None?
  {
  }

  lemma NoFourDigitsBefore(t: string, i: nat)
    requires i <= |t| && forall j :: 0 <= j < i ==> !IsDigit(t[j])
    ensures forall j :: 0 <= j < i ==> !FourDigitsAt(t, j)
  {
    forall j | 0 <= j < i ensures !FourDigitsAt(t, j) {
      assert j + 4 <= |t| ==> t[j..j + 4][0] == t[j];
    }
  }

  /** A text with visible first and last chars is its own trim. */
  lemma TrimOfVisibleEnds(t: string)
    requires |t| > 0 && !IsTrimmable(t[0]) && !IsTrimmable(t[|t| - 1])
    ensures Trim(t) == t
  {
    TrimEndOfVisibleEnd(t);
    TrimStartOfVisibleStart(t);
  }

  /** "yyyy MMM dd": the date of its fields, the day clamped to the month. */
  lemma ParseDateYearMonthDay(y: string, name: string, d: string)
    requires |y| == 4 && AllDigits(y) && DigitsValue(y) >= 1 && MonthNumber(name).Some?
    requires |d| == 2 && AllDigits(d) && 1 <= DigitsValue(d) <= 31
    ensures var m := MonthNumber(name).value;
      ParseDate(y + " " + name + " " + d)
      == Some(Date(DigitsValue(y), m, Min(DigitsValue(d), DaysInMonth(DigitsValue(y), m))))
  {
    var t := y + " " + name + " " + d;
    assert Trim(t) == t by {
      assert t[0] == y[0] && t[|t| - 1] == d[1];
      TrimOfVisibleEnds(t);
    }
    YearMonthDayShapeParses(y, name, d);
    ParseDateByFullPattern(t);
  }

  /** "MMM dd yyyy": the date of its fields, the day clamped to the month. */
  lemma ParseDateMonthDayYear(name: string, d: string, y: string)
    requires |y| == 4 && AllDigits(y) && DigitsValue(y) >= 1 && MonthNumber(name).Some?
    requires |d| == 2 && AllDigits(d) && 1 <= DigitsValue(d) <= 31
    ensures var m := MonthNumber(name).value;
      ParseDate(name + " " + d + " " + y)
      == Some(Date(DigitsValue(y), m, Min(DigitsValue(d), DaysInMonth(DigitsValue(y), m))))
  {
    var t := name + " " + d + " " + y;
    assert Trim(t) == t && !FourDigitsAt(t, 0) by {
      assert t[0] == name[0] && t[|t| - 1] == y[3];
      TrimOfVisibleEnds(t);
      assert t[..4][0] == t[0];
    }
    FullPatternNeedsLeadingYear(t);
    MonthDayYearShapeParses(name, d, y);
    ParseDateByMonthFirstPattern(t);
  }

  /** "yyyy MMM" is read by no pattern and falls back to 1 January. */
  lemma ParseDateYearMonth(y: string, name: string)
    requires |y| == 4 && AllDigits(y) && MonthNumber(name).Some?
    ensures ParseDate(y + " " + name) == Some(Date(DigitsValue(y), 1, 1))
  {
    YearMonthReachesFallback(y, name);
    ParseDateByYearRun(y + " " + name, 0);
  }

  lemma YearMonthReachesFallback(y: string, name: string)
    requires |y| == 4 && AllDigits(y) && MonthNumber(name).Some?
    ensures var t := y + " " + name;
      && t != [] && Trim(t) == t
      && TryPattern(t, Patterns[0]).None? && TryPattern(t, Patterns[4]).None?
      && FourDigitsAt(t, 0) && t[0..4] == y
  {
    var t := y + " " + name;
    assert Trim(t) == t by {
      assert t[0] == y[0] && t[|t| - 1] == name[2];
      TrimOfVisibleEnds(t);
    }
    assert TryPattern(t, Patterns[0]).None? by {
      var a1 := NothingParsed.(year := Some(DigitsValue(y)));
      var rest := [Space, DayField];
      assert t == y + (" " + (name + []));
      assert Patterns[0] == [YearField] + ([Space] + ([MonthField] + rest));
      YearStep(y, " " + (name + []), [Space] + ([MonthField] + rest), NothingParsed);
      SpaceStep(name + [], [MonthField] + rest, a1);
      MonthStep(name, [], rest, a1);
    }
    assert TryPattern(t, Patterns[4]).None? by {
      MonthFirstPatternNeedsCapital(t);
    }
    assert t[0..4] == y;
  }

  /** "MMM yyyy" is read by no pattern and falls back to 1 January. */
  lemma ParseDateMonthYear(name: string, y: string)
    requires |y| == 4 && AllDigits(y) && MonthNumber(name).Some?
    ensures ParseDate(name + " " + y) == Some(Date(DigitsValue(y), 1, 1))
  {
    MonthYearReachesFallback(name, y);
    ParseDateByYearRun(name + " " + y, 4);
  }

  lemma MonthYearReachesFallback(name: string, y: string)
    requires |y| == 4 && AllDigits(y) && MonthNumber(name).Some?
    ensures var t := name + " " + y;
      && t != [] && Trim(t) == t
      && TryPattern(t, Patterns[0]).None? && TryPattern(t, Patterns[4]).None?
      && FourDigitsAt(t, 4) && t[4..8] == y
      && forall j :: 0 <= j < 4 ==> !FourDigitsAt(t, j)
  {
    var t := name + " " + y;
    assert Trim(t) == t by {
      assert t[0] == name[0] && t[|t| - 1] == y[3];
      TrimOfVisibleEnds(t);
    }
    assert forall j :: 0 <= j < 4 ==> !FourDigitsAt(t, j) by {
      assert t[0] == name[0] && t[1] == name[1] && t[2] == name[2] && t[3] == ' ';
      NoFourDigitsBefore(t, 4);
    }
    assert TryPattern(t, Patterns[0]).None? by {
      FullPatternNeedsLeadingYear(t);
    }
    MonthYearFailsMonthFirstPattern(name, y);
    assert t[4..8] == y;
  }

  /** "MMM yyyy" fails "MMM dd yyyy": the space after the day is missing. */
  lemma MonthYearFailsMonthFirstPattern(name: string, y: string)
    requires |y| == 4 && AllDigits(y) && MonthNumber(name).Some?
    ensures TryPattern(name + " " + y, Patterns[4]).None?
  {
    var a1 := NothingParsed.(month := MonthNumber(name));
    var a2 := a1.(day := Some(DigitsValue(y[..2])));
    var tail := [Space, YearField];
    assert name + " " + y == name + (" " + (y[..2] + y[2..]));
    assert Patterns[4] == [MonthField] + ([Space] + ([DayField] + tail));
    MonthStep(name, " " + (y[..2] + y[2..]), [Space] + ([DayField] + tail), NothingParsed);
    SpaceStep(y[..2] + y[2..], [DayField] + tail, a1);
    DayStep(y[..2], y[2..], tail, a1);
    assert y[2..][0] == y[2] && IsDigit(y[2]);
  }
}

module DateParsingExamples {
  import opened Common
  import opened Entities
  import opened DateParsing

  lemma ExampleFullDate()
    ensures ParseDate("2023 Nov 15") == Some(Date(2023, 11, 15))
  {
    var y, d := "2023", "15";
    assert y + " " + "Nov" + " " + d == "2023 Nov 15";
    assert DigitsValue(y) == 2023 by { assert AllDigits(y); FourDigitsValue(y); }
    assert DigitsValue(d) == 15 by { assert AllDigits(d); TwoDigitsValue(d); }
    assert MonthNumber("Nov") == Some(11) by { MonthNumberOfName(11); }
    ParseDateYearMonthDay(y, "Nov", d);
  }

  lemma ExampleYearMonthFallsBackToJanuary()
    ensures ParseDate("2023 Nov") == Some(Date(2023, 1, 1))
  {
    var y := "2023";
    assert y + " " + "Nov" == "2023 Nov";
    assert DigitsValue(y) == 2023 by { assert AllDigits(y); FourDigitsValue(y); }
    assert MonthNumber("Nov") == Some(11) by { MonthNumberOfName(11); }
    ParseDateYearMonth(y, "Nov");
  }

  lemma ExampleMonthYearFallsBackToJanuary()
    ensures ParseDate("Nov 2023") == Some(Date(2023, 1, 1))
  {
    var y := "2023";
    assert "Nov" + " " + y == "Nov 2023";
    assert DigitsValue(y) == 2023 by { assert AllDigits(y); FourDigitsValue(y); }
    assert MonthNumber("Nov") == Some(11) by { MonthNumberOfName(11); }
    ParseDateMonthYear("Nov", y);
  }

  lemma ExampleMonthDayYear()
    ensures ParseDate("Nov 15 2023") == Some(Date(2023, 11, 15))
  {
    var y, d := "2023", "15";
    assert "Nov" + " " + d + " " + y == "Nov 15 2023";
    assert DigitsValue(y) == 2023 by { assert AllDigits(y); FourDigitsValue(y); }
    assert DigitsValue(d) == 15 by { assert AllDigits(d); TwoDigitsValue(d); }
    assert MonthNumber("Nov") == Some(11) by { MonthNumberOfName(11); }
    ParseDateMonthDayYear("Nov", d, y);
  }

  /** The SMART resolver clamps a day past the month's end. */
  lemma ExampleSmartResolverClampsDay()
    ensures ParseDate("2023 Feb 30") == Some(Date(2023, 2, 28))
  {
    var y, d := "2023", "30";
    assert y + " " + "Feb" + " " + d == "2023 Feb 30";
    assert DaysInMonth(2023, 2) == 28;
    assert DigitsValue(y) == 2023 by { assert AllDigits(y); FourDigitsValue(y); }
    assert DigitsValue(d) == 30 by { assert AllDigits(d); TwoDigitsValue(d); }
    assert MonthNumber("Feb") == Some(2) by { MonthNumberOfName(2); }
    ParseDateYearMonthDay(y, "Feb", d);
  }

  lemma ExampleLeapYearClampsToTwentyNinth()
    ensures ParseDate("2024 Feb 30") == Some(Date(2024, 2, 29))
  {
    var y, d := "2024", "30";
    assert DaysInMonth(2024, 2) == 29;
    assert y + " " + "Feb" + " " + d == "2024 Feb 30";
    assert DigitsValue(y) == 2024 by { assert AllDigits(y); FourDigitsValue(y); }
    assert DigitsValue(d) == 30 by { assert AllDigits(d); TwoDigitsValue(d); }
    assert MonthNumber("Feb") == Some(2) by { MonthNumberOfName(2); }
    ParseDateYearMonthDay(y, "Feb", d);
  }

  /** A year inside other text is found by the four-digit fallback. */
  lemma ExampleYearInsideText()
    ensures ParseDate("circa 2019 report") == Some(Date(2019, 1, 1))
  {
    var t := "circa 2019 report";
    assert Trim(t) == t by { TrimOfVisibleEnds(t); }
    assert forall j :: 0 <= j < 6 ==> !FourDigitsAt(t, j) by { NoFourDigitsBefore(t, 6); }
    assert TryPattern(t, Patterns[0]).None? by { FullPatternNeedsLeadingYear(t); }
    assert TryPattern(t, Patterns[4]).None? by { MonthFirstPatternNeedsCapital(t); }
    var y := t[6..10];
    assert y == "2019";
    assert DigitsValue(y) == 2019 by { assert AllDigits(y); FourDigitsValue(y); }
    ParseDateByYearRun(t, 6);
  }

  lemma ExampleNoYearIsAbsent()
    ensures ParseDate("n.d.") == None
  {
    var t := "n.d.";
    assert Trim(t) == t by { TrimOfVisibleEnds(t); }
    assert forall j :: 0 <= j ==> !FourDigitsAt(t, j) by { NoFourDigitsBefore(t, 1); }
    assert TryPattern(t, Patterns[0]).None? by { FullPatternNeedsLeadingYear(t); }
    assert TryPattern(t, Patterns[4]).None? by { MonthFirstPatternNeedsCapital(t); }
    ParseDateWithoutYearRun(t);
  }
}
