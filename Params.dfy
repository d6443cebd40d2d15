/** The constants of config/params.py that the parsing code reads. */
module Params {
  import opened Text

  /** Width of the price calendar: the number of departure dates per row. */
  const DAYS: nat := 7

  /** Month abbreviations, English and Spanish, to month numbers. */
  const MonthMapping: map<string, int> := map[
    "jan" := 1, "ene" := 1,
    "feb" := 2,
    "mar" := 3,
    "apr" := 4, "abr" := 4,
    "may" := 5,
    "jun" := 6,
    "jul" := 7,
    "aug" := 8, "ago" := 8,
    "sep" := 9, "set" := 9,
    "oct" := 10,
    "nov" := 11,
    "dec" := 12, "dic" := 12
  ]

  /** The twelve English keys, in calendar order. */
  const EnglishMonths: seq<string> :=
    ["jan", "feb", "mar", "apr", "may", "jun", "jul", "aug", "sep", "oct", "nov", "dec"]

  /** The grid width is positive, so `i % DAYS` and `i / DAYS` are defined. */
  lemma DaysPositive()
    ensures DAYS > 0 && DAYS == 7
  {
  }

  /** Every value of the table is a month number. */
  lemma MonthNumbersInRange()
    ensures forall k :: k in MonthMapping ==> 1 <= MonthMapping[k] <= 12
  {
  }

  /** Every key is three lower-case ASCII letters, so looking up a lower-cased
      token is a case-insensitive lookup. */
  lemma KeysAreLowerTriples()
    ensures forall k :: k in MonthMapping ==> |k| == 3 && AllLower(k)
  {
  }

  /** The English keys alone name all twelve months, in order. */
  lemma EnglishMonthsNumbered()
    ensures |EnglishMonths| == 12
    ensures forall i :: 0 <= i < 12 ==> EnglishMonths[i] in MonthMapping && MonthMapping[EnglishMonths[i]] == i + 1
  {
  }

  /** Every month 1..12 is the image of some key. */
  lemma EveryMonthNamed()
    ensures forall m :: 1 <= m <= 12 ==> m in MonthMapping.Values
  {
    EnglishMonthsNumbered();
    forall m | 1 <= m <= 12
      ensures m in MonthMapping.Values
    {
      var k := EnglishMonths[m - 1];
      assert k in MonthMapping && MonthMapping[k] == m;
    }
  }

  /** The Spanish abbreviations agree with the English ones they stand beside. */
  lemma SpanishAliases()
    ensures "ene" in MonthMapping && MonthMapping["ene"] == MonthMapping["jan"]
    ensures "abr" in MonthMapping && MonthMapping["abr"] == MonthMapping["apr"]
    ensures "ago" in MonthMapping && MonthMapping["ago"] == MonthMapping["aug"]
    ensures "set" in MonthMapping && MonthMapping["set"] == MonthMapping["sep"]
    ensures "dic" in MonthMapping && MonthMapping["dic"] == MonthMapping["dec"]
  {
  }

  /** A token that does not start with a letter is not a key. */
  lemma NonLetterNotKey(s: string)
    requires s != [] && !IsLowerAscii(s[0])
    ensures s !in MonthMapping
  {
    KeysAreLowerTriples();
  }
}
