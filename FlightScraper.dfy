/** The text-parsing helpers of flight_scraper.py: prices, the two date
    patterns of the price calendar, the month/day to ISO date conversion, the
    query URL, the itinerary of the cheapest day and the truncation of the
    result list. The browser session around them is not modelled. */
module FlightScraper {
  import opened Wrappers
  import opened Text
  import opened Calendar
  import opened PyFormat
  import opened Params
  import opened Flight

  // ---------------------------------------------------------------------------
  // __parse_price

  const Euro: char := '€'

  /** `__parse_price`: `-1` when the text has no euro sign, otherwise the
      number spelt by the text's digits in order (`float` of their join, which
      raises on an empty join). */
  function ParsePrice(cellText: string): (r: Result<int>)
    ensures r == Success(-1) <==> Euro !in cellText
    ensures r.Failure? <==> Euro in cellText && Digits(cellText) == []
    ensures r.Failure? ==> r.error == ValueError
    ensures r.Success? && Euro in cellText ==>
      r.value >= 0 && ShowNat(r.value) == Canonical(Digits(cellText))
  {
    if Euro in cellText then
      var ds := Digits(cellText);
      if ds == [] then Failure(ValueError)
      else
        ShowOfValue(ds);
        Success(DecimalValue(ds) as int)
    else Success(-1)
  }

  /** The euro sign is in a text exactly when it is in one of two halves. */
  lemma EuroInConcat(a: string, b: string)
    ensures Euro in a + b <==> Euro in a || Euro in b
  {
    if Euro in a + b {
      var i :| 0 <= i < |a + b| && (a + b)[i] == Euro;
      if i >= |a| { assert b[i - |a|] == Euro; }
    }
    if Euro in b {
      var i :| 0 <= i < |b| && b[i] == Euro;
      assert (a + b)[|a| + i] == Euro;
    }
  }

  /** The digits of a text that carries the euro sign are its price. */
  lemma ParsePriceOf(text: string, ds: string)
    requires Euro in text && Digits(text) == ds && ds != []
    ensures ParsePrice(text) == Success(DecimalValue(ds))
  {
  }

  /** The texts around a printed price hold no digits. */
  lemma NoDigitsAroundPrice()
    ensures Digits(" €") == [] && Digits("€") == []
    ensures Euro in " €" && Euro in "€"
  {
    DigitsConcat(" ", "€");
    DigitsOfChar(' ');
    DigitsOfChar(Euro);
    assert " " + "€" == " €";
    assert "€" == [Euro];
    assert " €"[1] == Euro;
  }

  /** A price printed as the calendar prints it reads back as itself, with the
      sign before or after the number. */
  lemma ParsePriceRoundTrip(n: nat)
    ensures ParsePrice(ShowNat(n) + " €") == Success(n)
    ensures ParsePrice("€" + ShowNat(n)) == Success(n)
  {
    var s := ShowNat(n);
    NoDigitsAroundPrice();
    EuroInConcat(s, " €");
    EuroInConcat("€", s);
    DigitsConcat(s, " €");
    DigitsConcat("€", s);
    DigitsOfDigits(s);
    assert Digits(s + " €") == s;
    assert Digits("€" + s) == s;
    ValueOfShow(n);
    ParsePriceOf(s + " €", s);
    ParsePriceOf("€" + s, s);
  }

  /** The digits of a separated price are the digits of both halves. */
  lemma DigitsOfSeparated(a: string, sep: char, b: string)
    requires AllDigits(a) && AllDigits(b) && !IsDigit(sep)
    ensures Digits(a + [sep] + b + " €") == a + b
  {
    var x := a + [sep];
    var y := x + b;
    assert Digits(x) == a by {
      DigitsConcat(a, [sep]);
      DigitsOfChar(sep);
      DigitsOfDigits(a);
    }
    assert Digits(y) == a + b by {
      DigitsConcat(x, b);
      DigitsOfDigits(b);
    }
    NoDigitsAroundPrice();
    DigitsConcat(y, " €");
  }

  /** Separators and decimal marks are dropped: `"1.234 €"` is 1234. */
  lemma ParsePriceDropsSeparator(a: string, sep: char, b: string)
    requires a != [] && AllDigits(a) && AllDigits(b) && !IsDigit(sep)
    ensures AllDigits(a + b)
    ensures ParsePrice(a + [sep] + b + " €") == Success(DecimalValue(a + b))
  {
    NoDigitsAroundPrice();
    EuroInConcat(a + [sep] + b, " €");
    DigitsOfSeparated(a, sep, b);
    assert (a + b)[0] == a[0];
    ParsePriceOf(a + [sep] + b + " €", a + b);
  }

  // ---------------------------------------------------------------------------
  // The date patterns of __parse_tabla_precios

  /** `\d{1,2} [a-z]{3}` (day first) and
      `\b(?:Jan|...|Dec) \d{1,2}\b` (month first). */
  datatype DatePattern = DayFirst | MonthFirst

  const MonthNames: seq<string> :=
    ["Jan", "Feb", "Mar", "Apr", "May", "Jun", "Jul", "Aug", "Sep", "Oct", "Nov", "Dec"]

  predicate LowerAt(s: string, p: nat)
    requires p + 3 <= |s|
  {
    IsLowerAscii(s[p]) && IsLowerAscii(s[p + 1]) && IsLowerAscii(s[p + 2])
  }

  /** `\b` at position `q`: a word character on exactly one side. */
  predicate Boundary(s: string, q: nat)
    requires q <= |s|
  {
    (0 < q && IsWordChar(s[q - 1])) != (q < |s| && IsWordChar(s[q]))
  }

  /** Length of the match of a pattern starting at `p`, or 0 for none. The
      greedy `\d{1,2}` tries two digits first and backs off to one; backing
      off never helps when the second character is a digit, which is why one
      test per length suffices. */
  function MatchAt(pat: DatePattern, s: string, p: nat): (n: nat)
    requires p <= |s|
    ensures n == 0 || n == 5 || n == 6
    ensures p + n <= |s|
  {
    match pat
    case DayFirst =>
      if p + 6 <= |s| && IsDigit(s[p]) && IsDigit(s[p + 1]) && s[p + 2] == ' ' && LowerAt(s, p + 3) then 6
      else if p + 5 <= |s| && IsDigit(s[p]) && s[p + 1] == ' ' && LowerAt(s, p + 2) then 5
      else 0
    case MonthFirst =>
      if p + 5 <= |s| && Boundary(s, p) && s[p..p + 3] in MonthNames && s[p + 3] == ' ' && IsDigit(s[p + 4]) then
        if p + 6 <= |s| && IsDigit(s[p + 5]) then (if Boundary(s, p + 6) then 6 else 0)
        else if Boundary(s, p + 5) then 5 else 0
      else 0
  }

  /** The texts the day-first pattern matches: one or two digits, a space,
      three lower-case letters. */
  predicate IsDayFirstText(t: string) {
    || (|t| == 5 && IsDigit(t[0]) && t[1] == ' ' && LowerAt(t, 2))
    || (|t| == 6 && IsDigit(t[0]) && IsDigit(t[1]) && t[2] == ' ' && LowerAt(t, 3))
  }

  /** The texts the month-first pattern matches: an English month
      abbreviation, a space, one or two digits. */
  predicate IsMonthFirstText(t: string) {
    (|t| == 5 || |t| == 6) && t[..3] in MonthNames && t[3] == ' ' && AllDigits(t[4..])
  }

  predicate IsDateText(t: string) { IsDayFirstText(t) || IsMonthFirstText(t) }

  /** What a match covers has the shape its pattern describes. */
  lemma MatchShape(pat: DatePattern, s: string, p: nat)
    requires p <= |s| && MatchAt(pat, s, p) > 0
    ensures pat.DayFirst? ==> IsDayFirstText(s[p..p + MatchAt(pat, s, p)])
    ensures pat.MonthFirst? ==> IsMonthFirstText(s[p..p + MatchAt(pat, s, p)])
    ensures pat.MonthFirst? ==> Boundary(s, p) && Boundary(s, p + MatchAt(pat, s, p))
  {
    var t := s[p..p + MatchAt(pat, s, p)];
    assert forall i :: 0 <= i < |t| ==> t[i] == s[p + i];
    if pat.MonthFirst? {
      assert t[..3] == s[p..p + 3];
    }
  }

  /** Conversely, a day-first text at a position is matched there, in full. */
  lemma DayFirstMatched(s: string, p: nat, n: nat)
    requires p + n <= |s| && IsDayFirstText(s[p..p + n])
    ensures MatchAt(DayFirst, s, p) == n
  {
    var t := s[p..p + n];
    assert forall i :: 0 <= i < n ==> t[i] == s[p + i];
  }

  /** Conversely, a month-first text between two word boundaries is matched
      there, in full. */
  lemma MonthFirstMatched(s: string, p: nat, n: nat)
    requires p + n <= |s| && IsMonthFirstText(s[p..p + n])
    requires Boundary(s, p) && Boundary(s, p + n)
    ensures MatchAt(MonthFirst, s, p) == n
  {
    var t := s[p..p + n];
    assert forall i :: 0 <= i < n ==> t[i] == s[p + i];
    assert s[p..p + 3] == t[..3];
    assert IsDigit(t[4..][0]);
    if n == 6 {
      assert IsDigit(t[4..][1]);
    }
  }

  /** `re.search`: the leftmost position at or after `p` where the pattern
      matches. */
  function Search(pat: DatePattern, s: string, p: nat): (r: Option<nat>)
    requires p <= |s|
    ensures r.Some? ==> p <= r.value <= |s| && MatchAt(pat, s, r.value) > 0
    ensures forall q :: p <= q <= |s| && (r.None? || q < r.value) ==> MatchAt(pat, s, q) == 0
    decreases |s| - p
  {
    if MatchAt(pat, s, p) > 0 then Some(p)
    else if p == |s| then None
    else Search(pat, s, p + 1)
  }

  /** The pattern matches somewhere in the text. */
  predicate Matches(pat: DatePattern, s: string) {
    exists q :: 0 <= q <= |s| && MatchAt(pat, s, q) > 0
  }

  /** Text `t` stands in `s` at position `q`. */
  predicate OccursAt(s: string, q: nat, t: string) {
    q + |t| <= |s| && s[q..q + |t|] == t
  }

  /** `.group()` of the leftmost match: the matched text. */
  function Found(pat: DatePattern, s: string): (r: Option<string>)
    ensures r.Some? && pat.DayFirst? ==> IsDayFirstText(r.value)
    ensures r.Some? && pat.MonthFirst? ==> IsMonthFirstText(r.value)
    ensures r.Some? ==> exists q: nat :: (OccursAt(s, q, r.value) && MatchAt(pat, s, q) == |r.value|
      && forall q': nat :: q' < q ==> MatchAt(pat, s, q') == 0)
  {
    match Search(pat, s, 0)
    case None => None
    case Some(q) =>
      MatchShape(pat, s, q);
      Some(s[q..q + MatchAt(pat, s, q)])
  }

  /** `re.search` finds a match exactly when the pattern matches somewhere. */
  lemma FoundMeaning(pat: DatePattern, s: string)
    ensures Found(pat, s).Some? <==> Matches(pat, s)
  {
  }

  // ---------------------------------------------------------------------------
  // The price patterns of __parse_tabla_precios

  /** The number of digits a text starts with. */
  function LeadingDigits(s: string): (n: nat)
    ensures n <= |s| && AllDigits(s[..n])
    ensures n == |s| || !IsDigit(s[n])
    decreases |s|
  {
    if s != [] && IsDigit(s[0]) then
      var k := LeadingDigits(s[1..]);
      assert s[..1 + k] == [s[0]] + s[1..][..k];
      1 + k
    else 0
  }

  /** `re.match(r"\d+ €", line)`: the greedy `\d+` takes every leading digit,
      and giving one back never helps since a digit is not a space. */
  predicate StartsDigitsEuro(s: string) {
    var k := LeadingDigits(s);
    1 <= k && k + 2 <= |s| && s[k] == ' ' && s[k + 1] == Euro
  }

  /** `re.match(r"€\d+", line)`. */
  predicate StartsEuroDigits(s: string) {
    |s| >= 2 && s[0] == Euro && IsDigit(s[1])
  }

  /** The greedy reading of `\d+ €` agrees with the plain one: some
      non-empty run of digits, then a space and the euro sign. */
  lemma StartsDigitsEuroMeaning(s: string)
    ensures StartsDigitsEuro(s) <==>
      exists k :: 1 <= k && k + 2 <= |s| && AllDigits(s[..k]) && s[k] == ' ' && s[k + 1] == Euro
  {
    var n := LeadingDigits(s);
    if exists k :: 1 <= k && k + 2 <= |s| && AllDigits(s[..k]) && s[k] == ' ' && s[k + 1] == Euro {
      var k :| 1 <= k && k + 2 <= |s| && AllDigits(s[..k]) && s[k] == ' ' && s[k + 1] == Euro;
    }
    if StartsDigitsEuro(s) {
      assert 1 <= n && n + 2 <= |s| && AllDigits(s[..n]) && s[n] == ' ' && s[n + 1] == Euro;
    }
  }

  // ---------------------------------------------------------------------------
  // Sorting one calendar cell

  /** What a calendar cell contributes: a date text, a price, or nothing. */
  datatype Cell = DateCell(text: string) | PriceCell(amount: nat) | OtherCell

  /** One turn of the first loop of `__parse_tabla_precios`: the day-first
      pattern is tried before the month-first one, and only a cell that is no
      date and starts like a price is a price. */
  function Classify(line: string): (c: Cell)
    ensures c.DateCell? ==> IsDateText(c.text)
    ensures c.DateCell? ==> exists q: nat :: OccursAt(line, q, c.text)
    ensures c.PriceCell? ==> Digits(line) != [] && ShowNat(c.amount) == Canonical(Digits(line))
  {
    match Found(DayFirst, line)
    case Some(t) => DateCell(t)
    case None =>
      match Found(MonthFirst, line)
      case Some(t) => DateCell(t)
      case None =>
        if StartsDigitsEuro(line) || StartsEuroDigits(line) then
          PriceDigits(line);
          ShowOfValue(Digits(line));
          PriceCell(DecimalValue(Digits(line)))
        else OtherCell
  }

  /** Which kind a cell is: a date when either pattern matches, recorded as
      the leftmost match of the day-first pattern or else of the month-first
      one; a price when no date pattern matches and the text
      starts like a price; nothing otherwise. */
  lemma ClassifyCases(line: string)
    ensures Classify(line).DateCell? <==> Matches(DayFirst, line) || Matches(MonthFirst, line)
    ensures Classify(line).DateCell? && Matches(DayFirst, line) ==> IsDayFirstText(Classify(line).text)
    ensures Classify(line).DateCell? ==>
      Classify(line).text == (if Matches(DayFirst, line) then Found(DayFirst, line) else Found(MonthFirst, line)).value
    ensures Classify(line).PriceCell? <==>
      !Matches(DayFirst, line) && !Matches(MonthFirst, line) && (StartsDigitsEuro(line) || StartsEuroDigits(line))
    ensures Classify(line).OtherCell? <==>
      !Matches(DayFirst, line) && !Matches(MonthFirst, line) && !StartsDigitsEuro(line) && !StartsEuroDigits(line)
  {
    FoundMeaning(DayFirst, line);
    FoundMeaning(MonthFirst, line);
  }

  /** A text of either date shape, alone in its cell, is recorded as that
      date. */
  lemma DateTextIsRecorded(t: string)
    requires IsDateText(t)
    ensures Classify(t) == DateCell(t)
  {
    assert t[0..|t|] == t;
    if IsDayFirstText(t) {
      DayFirstMatched(t, 0, |t|);
    } else {
      assert IsUpperAscii(t[..3][0]);
      forall q | 0 <= q <= |t|
        ensures MatchAt(DayFirst, t, q) == 0
      {
        if q + 5 <= |t| {
          assert q <= 1;
          assert t[..3][q] == t[q];
          assert !IsDigit(t[q]) || !IsDigit(t[q + 1]) || t[q + 1] != ' ';
        }
      }
      assert Search(DayFirst, t, 0).None?;
      assert IsWordChar(t[0]) && IsWordChar(t[|t| - 1]) by {
        assert t[4..][|t| - 5] == t[|t| - 1];
      }
      MonthFirstMatched(t, 0, |t|);
    }
  }

  /** A cell accepted as a price has a digit, so `float` of its digits never
      raises there. */
  lemma PriceDigits(line: string)
    requires StartsDigitsEuro(line) || StartsEuroDigits(line)
    ensures Digits(line) != []
  {
    DigitsNonEmpty(line);
    if StartsDigitsEuro(line) {
      assert line[..LeadingDigits(line)][0] == line[0];
      assert IsDigit(line[0]);
    } else {
      assert IsDigit(line[1]);
    }
  }

  /** The calendar's price cells are recognised, with or without a currency
      prefix. */
  lemma ClassifyPriceCell(n: nat)
    ensures Classify(ShowNat(n) + " €") == PriceCell(n)
    ensures Classify("€" + ShowNat(n)) == PriceCell(n)
  {
    var ds := ShowNat(n);
    var s := ds + " €";
    assert Classify(s).PriceCell? by {
      NoDateInPrice(s);
      ClassifyCases(s);
      LeadingDigitsOf(ds, " €");
      assert StartsDigitsEuro(s);
    }
    assert Digits(s) == ds by {
      NoDigitsAroundPrice();
      DigitsConcat(ds, " €");
      DigitsOfDigits(ds);
    }
    var a := Classify(s).amount;
    assert ShowNat(a) == ShowNat(n) by {
      ShowOfValue(ds);
      ValueOfShow(n);
    }
    ValueOfShow(a);
    ValueOfShow(n);
    ClassifyEuroFirst(n);
  }

  /** A price written after the euro sign is recognised. */
  lemma ClassifyEuroFirst(n: nat)
    ensures Classify("€" + ShowNat(n)) == PriceCell(n)
  {
    var ds := ShowNat(n);
    var s := "€" + ds;
    assert Classify(s).PriceCell? by {
      assert forall i :: 1 <= i < |s| ==> s[i] == ds[i - 1];
      NoDateInPrice(s);
      ClassifyCases(s);
      assert StartsEuroDigits(s);
    }
    assert Digits(s) == ds by {
      NoDigitsAroundPrice();
      DigitsConcat("€", ds);
      DigitsOfDigits(ds);
    }
    var a := Classify(s).amount;
    assert ShowNat(a) == ShowNat(n) by {
      ShowOfValue(ds);
      ValueOfShow(n);
    }
    ValueOfShow(a);
    ValueOfShow(n);
  }

  /** A digit run followed by anything not a digit. */
  lemma LeadingDigitsOf(ds: string, rest: string)
    requires AllDigits(ds) && (rest == [] || !IsDigit(rest[0]))
    ensures LeadingDigits(ds + rest) == |ds|
    decreases |ds|
  {
    if ds != [] {
      assert (ds + rest)[1..] == ds[1..] + rest;
      LeadingDigitsOf(ds[1..], rest);
    } else {
      assert ds + rest == rest;
    }
  }

  /** Neither date pattern matches a text made of digits, a space and the
      euro sign. */
  lemma NoDateInPrice(s: string)
    requires forall i :: 0 <= i < |s| ==> IsDigit(s[i]) || s[i] == ' ' || s[i] == Euro
    ensures !Matches(DayFirst, s) && !Matches(MonthFirst, s)
  {
    forall q | 0 <= q <= |s|
      ensures MatchAt(DayFirst, s, q) == 0 && MatchAt(MonthFirst, s, q) == 0
    {
      if q + 5 <= |s| {
        assert !IsLowerAscii(s[q + 2]) && !IsLowerAscii(s[q + 3]);
        assert !IsUpperAscii(s[q]);
        assert s[q..q + 3][0] == s[q];
        assert forall i :: 0 <= i < 12 ==> IsUpperAscii(MonthNames[i][0]);
      }
    }
  }

  // ---------------------------------------------------------------------------
  // __parse_month_day_to_date

  /** `int(tok)` for a token without blanks: an optional sign, then digits. */
  function ParseInt(tok: string): (r: Option<int>)
    ensures r.Some? ==> tok != []
  {
    if tok != [] && (tok[0] == '+' || tok[0] == '-') then
      var ds := tok[1..];
      if ds != [] && AllDigits(ds) then Some(if tok[0] == '-' then -(DecimalValue(ds) as int) else DecimalValue(ds))
      else None
    else if tok != [] && AllDigits(tok) then Some(DecimalValue(tok))
    else None
  }

  /** `int` reads back what `str` prints, with either sign. */
  lemma ParseIntShow(n: nat)
    ensures ParseInt(ShowNat(n)) == Some(n)
    ensures ParseInt("+" + ShowNat(n)) == Some(n)
    ensures ParseInt("-" + ShowNat(n)) == Some(-(n as int))
  {
    ValueOfShow(n);
    assert ("+" + ShowNat(n))[1..] == ShowNat(n);
    assert ("-" + ShowNat(n))[1..] == ShowNat(n);
  }

  /** A token with a character that is neither a digit nor a leading sign is
      not a number, and neither is a bare sign. */
  lemma ParseIntRejects(tok: string, i: nat)
    requires i < |tok| && !IsDigit(tok[i]) && (i > 0 || (tok[i] != '+' && tok[i] != '-'))
    ensures ParseInt(tok) == None
    ensures ParseInt("+") == None && ParseInt("-") == None
  {
    if tok[0] == '+' || tok[0] == '-' {
      assert tok[1..][i - 1] == tok[i];
    }
  }

  /** The year a month of the calendar falls in: the current one, or the next
      one for a month already past. */
  function YearFor(month: int, now: Now): (year: int)
    ensures year == now.year || year == now.year + 1
    ensures year == now.year + 1 <==> month < now.month
  {
    if month < now.month then now.year + 1 else now.year
  }

  /** `__parse_month_day_to_date`. A text that does not split into two words
      makes the handler's own message raise `UnboundLocalError`; a month that
      is not a key (`None < month` raises `TypeError`), a day that is not a
      number, or a day the calendar does not have are all handled and give
      `None`; otherwise the date is printed `YYYY-MM-DD`. */
  function MonthDayToDate(s: string, now: Now): (r: Result<Option<string>>)
    requires now.Valid()
    ensures r.Failure? ==> r.error == UnboundLocalError
  {
    var words := Split(s);
    if |words| != 2 then Failure(UnboundLocalError)
    else
      var month := Lower(words[0]);
      if month !in MonthMapping then Success(None)
      else
        var m := MonthMapping[month];
        var year := YearFor(m, now);
        match ParseInt(words[1])
        case None => Success(None)
        case Some(d) =>
          if ValidDate(year, m, d) then Success(Some(FormatIso(year, m, d)))
          else Success(None)
  }

  /** What the conversion gives: it raises exactly for a text that is not two
      words; it gives a date exactly for a month key, a number and a day the
      calendar has, and that date reads back as the year, the month number and
      the day; it gives `None` in every other case. */
  lemma MonthDayToDateMeaning(s: string, now: Now)
    requires now.Valid()
    ensures MonthDayToDate(s, now).Failure? <==> |Split(s)| != 2
    ensures
      var r := MonthDayToDate(s, now);
      r.Success? && r.value.Some? ==>
        var month, day := Lower(Split(s)[0]), ParseInt(Split(s)[1]);
        month in MonthMapping && day.Some? &&
        ParseIso(r.value.value) == Some((YearFor(MonthMapping[month], now), MonthMapping[month], day.value))
    ensures
      MonthDayToDate(s, now) == Success(None) <==>
        |Split(s)| == 2 &&
        var month, day := Lower(Split(s)[0]), ParseInt(Split(s)[1]);
        (month !in MonthMapping || day.None? ||
         !ValidDate(YearFor(MonthMapping[month], now), MonthMapping[month], day.value))
  {
    var words := Split(s);
    if |words| == 2 && Lower(words[0]) in MonthMapping && ParseInt(words[1]).Some? {
      var m := MonthMapping[Lower(words[0])];
      var d := ParseInt(words[1]).value;
      if ValidDate(YearFor(m, now), m, d) {
        IsoRoundTrip(YearFor(m, now), m, d, FormatIso(YearFor(m, now), m, d));
      }
    }
  }

  /** The English abbreviations lower-case to the English keys. */
  lemma LowerMonthName(i: nat)
    requires i < 12
    ensures Lower(MonthNames[i]) == EnglishMonths[i]
  {
    var t := MonthNames[i];
    assert |t| == 3 && |Lower(t)| == 3;
    assert Lower(t) == [LowerChar(t[0]), LowerChar(t[1]), LowerChar(t[2])];
  }

  /** The English abbreviations are words. */
  lemma MonthNameIsWord(w: string)
    requires w in MonthNames
    ensures |w| == 3 && NoSpace(w)
  {
  }

  /** A month-first text splits into the month and the day. */
  lemma SplitMonthFirst(t: string)
    requires IsMonthFirstText(t)
    ensures Split(t) == [t[..3], t[4..]]
  {
    MonthNameIsWord(t[..3]);
    assert NoSpace(t[4..]);
    assert t == t[..3] + ([' '] + t[4..]);
    SplitTwoWords(t[..3], t[4..]);
  }

  /** A day-first text splits into the day and the month. */
  lemma SplitDayFirst(t: string, k: nat)
    requires IsDayFirstText(t) && k == |t| - 4
    ensures Split(t) == [t[..k], t[k + 1..]]
  {
    assert NoSpace(t[..k]);
    assert NoSpace(t[k + 1..]);
    assert t == t[..k] + ([' '] + t[k + 1..]);
    SplitTwoWords(t[..k], t[k + 1..]);
  }

  /** A date text picked out of the calendar never makes the conversion raise. */
  lemma DateTextNeverRaises(t: string, now: Now)
    requires now.Valid() && IsDateText(t)
    ensures MonthDayToDate(t, now).Success?
  {
    if IsMonthFirstText(t) { SplitMonthFirst(t); } else { SplitDayFirst(t, |t| - 4); }
  }

  /** The conversion of a text of two words whose first is a month key and
      whose second is a number. */
  lemma MonthDayToDateOf(s: string, now: Now, month: string, day: string, d: int)
    requires now.Valid() && Split(s) == [month, day]
    requires Lower(month) in MonthMapping && ParseInt(day) == Some(d)
    ensures
      var m := MonthMapping[Lower(month)];
      MonthDayToDate(s, now) ==
        if ValidDate(YearFor(m, now), m, d) then Success(Some(FormatIso(YearFor(m, now), m, d))) else Success(None)
  {
  }

  /** Digits alone are read as their value. */
  lemma ParseIntDigits(ds: string)
    requires ds != [] && AllDigits(ds)
    ensures ParseInt(ds) == Some(DecimalValue(ds) as int)
  {
    assert IsDigit(ds[0]);
  }

  /** The month-first texts the English calendar shows convert to the date in
      the current or the next year, or to `None` when that day does not exist. */
  lemma MonthFirstDate(i: nat, ds: string, now: Now)
    requires now.Valid() && i < 12 && 1 <= |ds| <= 2 && AllDigits(ds)
    ensures
      var year, day := YearFor(i + 1, now), DecimalValue(ds);
      MonthDayToDate(MonthNames[i] + " " + ds, now) ==
        if ValidDate(year, i + 1, day) then Success(Some(FormatIso(year, i + 1, day))) else Success(None)
  {
    var w := MonthNames[i];
    MonthNameIsWord(w);
    var t := w + " " + ds;
    assert t[..3] == w && t[3] == ' ' && t[4..] == ds;
    SplitMonthFirst(t);
    LowerMonthName(i);
    EnglishMonthsNumbered();
    ParseIntDigits(ds);
    MonthDayToDateOf(t, now, w, ds, DecimalValue(ds));
  }

  /** A day-first text, as the Spanish calendar shows dates, always gives
      `None`: its first word is the day, which is no month key. */
  lemma DayFirstDateIsNone(t: string, now: Now)
    requires now.Valid() && IsDayFirstText(t)
    ensures MonthDayToDate(t, now) == Success(None)
  {
    var k := |t| - 4;
    SplitDayFirst(t, k);
    LowerIdentity(t[..k]);
    NonLetterNotKey(t[..k]);
  }

  /** `Feb 29` is a date exactly in a leap year. */
  lemma LeapDayText(now: Now)
    requires now.Valid()
    ensures MonthDayToDate("Feb 29", now).Success?
    ensures MonthDayToDate("Feb 29", now) != Success(None) <==> IsLeap(YearFor(2, now)) && YearFor(2, now) <= MaxYear
  {
    assert "Feb 29" == MonthNames[1] + " " + "29";
    assert DecimalValue("29") == 29;
    MonthFirstDate(1, "29", now);
    if YearFor(2, now) <= MaxYear { LeapDay(YearFor(2, now)); }
  }

  // ---------------------------------------------------------------------------
  // _make_url

  const UrlHead: string := "https://www.google.com/travel/" + "flights?q=Flights%20to%20"

  /** The one-way query template over any three field names. */
  function OneWayShape(n: seq<string>): string
    requires |n| >= 3
  {
    UrlHead + Field(n[0]) + "%20from%20" + Field(n[1]) + "%20on%20" + Field(n[2])
  }

  /** The round-trip template: the one-way one and a `through` clause. */
  function RoundTripShape(n: seq<string>): string
    requires |n| == 4
  {
    OneWayShape(n) + "%20through%20" + Field(n[3])
  }

  const UrlFields: seq<string> := ["dst", "org", "d_init", "d_return"]

  /** The keyword arguments of the one-way call. */
  function OneWayArgs(iti: Itinerario): map<string, string> {
    map["dst" := iti.destination, "org" := iti.origin, "d_init" := PyStr(iti.departureDate)]
  }

  /** The keyword arguments of the round-trip call. */
  function RoundTripArgs(iti: Itinerario): map<string, string> {
    OneWayArgs(iti)["d_return" := PyStr(iti.returnDate)]
  }

  /** `_make_url`: the search query, with a `through` clause exactly when the
      return date is truthy. The fields go in as they are, unescaped. */
  function MakeUrl(iti: Itinerario): (url: string)
    ensures UrlHead <= url
    ensures Truthy(iti.returnDate) ==> EndsWith(url, "%20through%20" + iti.returnDate.value)
    ensures !Truthy(iti.returnDate) ==> EndsWith(url, "%20on%20" + PyStr(iti.departureDate))
  {
    var head := UrlHead + iti.destination + "%20from%20" + iti.origin + "%20on%20" + PyStr(iti.departureDate);
    assert head == UrlHead + (iti.destination + "%20from%20" + iti.origin + "%20on%20" + PyStr(iti.departureDate));
    if Truthy(iti.returnDate) then
      var url := head + "%20through%20" + PyStr(iti.returnDate);
      assert url == head + ("%20through%20" + PyStr(iti.returnDate));
      assert url == UrlHead + (url[|UrlHead|..]);
      EndsWithAppend(head, "%20through%20" + PyStr(iti.returnDate));
      url
    else
      var mid := UrlHead + iti.destination + "%20from%20" + iti.origin;
      assert head == mid + ("%20on%20" + PyStr(iti.departureDate));
      EndsWithAppend(mid, "%20on%20" + PyStr(iti.departureDate));
      head
  }

  /** The head of the query has no braces. */
  lemma UrlHeadPlain()
    ensures NoBraces(UrlHead)
  {
    assert NoBraces("https://www.google.com/travel/");
    assert NoBraces("flights?q=Flights%20to%20");
    NoBracesConcat("https://www.google.com/travel/", "flights?q=Flights%20to%20");
  }

  /** Formatting the one-way shape replaces each field by its argument. */
  lemma FormatOneWayShape(n: seq<string>, args: map<string, string>)
    requires |n| >= 3
    requires forall i :: 0 <= i < 3 ==> FieldName(n[i]) && n[i] in args
    ensures Format(OneWayShape(n), args) == Success(
      UrlHead + args[n[0]] + "%20from%20" + args[n[1]] + "%20on%20" + args[n[2]])
  {
    UrlHeadPlain();
    assert NoBraces("%20from%20") && NoBraces("%20on%20");
    FormatPlain(UrlHead, args);
    FormatPlain("%20from%20", args);
    FormatPlain("%20on%20", args);
    var p := UrlHead;
    FormatOneField(n[0], args);
    FormatConcat(p, Field(n[0]), args);
    p := p + Field(n[0]);
    FormatConcat(p, "%20from%20", args);
    p := p + "%20from%20";
    FormatOneField(n[1], args);
    FormatConcat(p, Field(n[1]), args);
    p := p + Field(n[1]);
    FormatConcat(p, "%20on%20", args);
    p := p + "%20on%20";
    FormatOneField(n[2], args);
    FormatConcat(p, Field(n[2]), args);
  }

  /** Formatting the round-trip shape adds the fourth argument. */
  lemma FormatRoundTripShape(n: seq<string>, args: map<string, string>)
    requires |n| == 4
    requires forall i :: 0 <= i < 4 ==> FieldName(n[i]) && n[i] in args
    ensures Format(RoundTripShape(n), args) == Success(
      UrlHead + args[n[0]] + "%20from%20" + args[n[1]] + "%20on%20" + args[n[2]] + "%20through%20" + args[n[3]])
  {
    FormatOneWayShape(n, args);
    assert NoBraces("%20through%20");
    FormatPlain("%20through%20", args);
    FormatConcat(OneWayShape(n), "%20through%20", args);
    FormatOneField(n[3], args);
    FormatConcat(OneWayShape(n) + "%20through%20", Field(n[3]), args);
  }

  /** The URL is the source's template, the round-trip one when the return
      date is truthy, with the keyword arguments it passes filled in. */
  lemma MakeUrlIsTemplate(iti: Itinerario)
    ensures Truthy(iti.returnDate) ==>
      Format(RoundTripShape(UrlFields), RoundTripArgs(iti)) == Success(MakeUrl(iti))
    ensures !Truthy(iti.returnDate) ==>
      Format(OneWayShape(UrlFields), OneWayArgs(iti)) == Success(MakeUrl(iti))
  {
    var n := UrlFields;
    assert !IsDigit(n[0][0]) && !IsDigit(n[1][0]) && !IsDigit(n[2][0]) && !IsDigit(n[3][0]);
    assert forall i :: 0 <= i < 4 ==> NoBraces(n[i]);
    if Truthy(iti.returnDate) {
      var args := RoundTripArgs(iti);
      assert |n[0]| == 3 && |n[1]| == 3 && |n[2]| == 6 && |n[3]| == 8;
      FormatRoundTripShape(n, args);
      assert args[n[0]] == iti.destination && args[n[1]] == iti.origin;
      assert args[n[2]] == PyStr(iti.departureDate) && args[n[3]] == PyStr(iti.returnDate);
    } else {
      var args := OneWayArgs(iti);
      FormatOneWayShape(n, args);
      assert args[n[0]] == iti.destination && args[n[1]] == iti.origin && args[n[2]] == PyStr(iti.departureDate);
    }
  }

  // ---------------------------------------------------------------------------
  // scrape_best_day_found and get_results

  /** The itinerary `scrape_best_day_found` searches again: same origin and
      destination, the dates of the first cheapest alternative; `min` raises
      on a route without alternatives. */
  function BestDayItinerary(route: FlightRoute): (r: Result<Itinerario>)
    ensures r.Failure? <==> route.alternatives == []
    ensures r.Failure? ==> r.error == ValueError
    ensures r.Success? ==>
      r.value.origin == route.itinerario.origin && r.value.destination == route.itinerario.destination
    ensures r.Success? ==>
      exists k :: 0 <= k < |route.alternatives| &&
        r.value.departureDate == route.alternatives[k].departureDate &&
        r.value.returnDate == route.alternatives[k].returnDate &&
        (forall j :: 0 <= j < |route.alternatives| ==> route.alternatives[k].price <= route.alternatives[j].price) &&
        (forall j :: 0 <= j < k ==> route.alternatives[j].price > route.alternatives[k].price)
  {
    match GetBestAlternative(route)
    case Failure(e) => Failure(e)
    case Success(best) =>
      Success(Itinerario(route.itinerario.origin, route.itinerario.destination, best.departureDate, best.returnDate))
  }

  /** `xs[:n]` for a list and any integer `n`: a non-negative `n` keeps the
      first `n` (all of a shorter list), a negative one drops the last `-n`. */
  function TopResults<T>(xs: seq<T>, n: int): (r: seq<T>)
    ensures r <= xs
    ensures n >= 0 ==> |r| == (if n <= |xs| then n else |xs|)
    ensures n < 0 ==> |r| == (if |xs| + n >= 0 then |xs| + n else 0)
  {
    if n >= 0 then (if n <= |xs| then xs[..n] else xs)
    else if |xs| + n >= 0 then xs[..|xs| + n]
    else []
  }

  /** `get_results(num_res=3)` on a page with at least three options keeps
      exactly the first three, in page order; truncating twice changes nothing. */
  lemma TopResultsKeepsFirst<T>(xs: seq<T>, n: nat)
    ensures n <= |xs| ==> TopResults(xs, n) == xs[..n]
    ensures TopResults(TopResults(xs, n), n) == TopResults(xs, n)
    ensures forall i :: 0 <= i < |TopResults(xs, n)| ==> TopResults(xs, n)[i] == xs[i]
  {
  }
}
