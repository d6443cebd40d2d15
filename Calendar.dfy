/** The part of Python's `datetime` the scraper relies on: the current date,
    which dates `datetime(year, month, day)` accepts, and `strftime("%Y-%m-%d")`. */
module Calendar {
  import opened Wrappers
  import opened Text

  const MinYear: int := 1
  const MaxYear: int := 9999

  /** Gregorian leap years. */
  predicate IsLeap(y: int) {
    y % 4 == 0 && (y % 100 != 0 || y % 400 == 0)
  }

  function DaysInMonth(y: int, m: int): (n: nat)
    requires 1 <= m <= 12
    ensures 28 <= n <= 31
    ensures m == 2 ==> (n == 29 <==> IsLeap(y))
  {
    if m == 2 then (if IsLeap(y) then 29 else 28)
    else if m == 4 || m == 6 || m == 9 || m == 11 then 30
    else 31
  }

  /** The arguments for which `datetime(y, m, d)` does not raise ValueError. */
  predicate ValidDate(y: int, m: int, d: int) {
    MinYear <= y <= MaxYear && 1 <= m <= 12 && 1 <= d <= DaysInMonth(y, m)
  }

  /** The date `datetime.now()` reports; the clock only ever reports real dates. */
  datatype Now = Now(year: int, month: int, day: int) {
    predicate Valid() { ValidDate(year, month, day) }
  }

  /** `date.strftime("%Y-%m-%d")`: four-digit year, two-digit month and day. */
  function FormatIso(y: int, m: int, d: int): (iso: string)
    requires ValidDate(y, m, d)
    ensures |iso| == 10 && iso[4] == '-' && iso[7] == '-'
    ensures AllDigits(iso[..4]) && AllDigits(iso[5..7]) && AllDigits(iso[8..])
    ensures DecimalValue(iso[..4]) == y && DecimalValue(iso[5..7]) == m && DecimalValue(iso[8..]) == d
  {
    var ys, ms, ds := Pad(y, 4), Pad(m, 2), Pad(d, 2);
    var iso := ys + "-" + ms + "-" + ds;
    assert iso[..4] == ys && iso[5..7] == ms && iso[8..] == ds;
    iso
  }

  /** Reads a `YYYY-MM-DD` text back into a valid date, if it is one. */
  function ParseIso(iso: string): Option<(int, int, int)> {
    if |iso| == 10 && iso[4] == '-' && iso[7] == '-'
       && AllDigits(iso[..4]) && AllDigits(iso[5..7]) && AllDigits(iso[8..])
       && ValidDate(DecimalValue(iso[..4]), DecimalValue(iso[5..7]), DecimalValue(iso[8..]))
    then Some((DecimalValue(iso[..4]), DecimalValue(iso[5..7]), DecimalValue(iso[8..])))
    else None
  }

  /** Formatting a date and reading it back gives the date, and every text
      that reads back as a date is the formatted form of that date. */
  lemma IsoRoundTrip(y: int, m: int, d: int, iso: string)
    ensures ValidDate(y, m, d) ==> ParseIso(FormatIso(y, m, d)) == Some((y, m, d))
    ensures ParseIso(iso) == Some((y, m, d)) ==> ValidDate(y, m, d) && FormatIso(y, m, d) == iso
  {
    if ParseIso(iso) == Some((y, m, d)) {
      PadOfValue(iso[..4], 4);
      PadOfValue(iso[5..7], 2);
      PadOfValue(iso[8..], 2);
      assert iso == iso[..4] + "-" + iso[5..7] + "-" + iso[8..];
    }
  }

  /** February 29 exists exactly in leap years. */
  lemma LeapDay(y: int)
    requires MinYear <= y <= MaxYear
    ensures ValidDate(y, 2, 29) <==> IsLeap(y)
  {
  }
}
