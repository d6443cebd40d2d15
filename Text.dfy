/** Character classes and string helpers shared by the parsers: ASCII digits,
    decimal values of digit strings, `str(n)` for naturals, `str.lower()` and
    `str.split()` with no arguments. */
module Text {

  predicate IsDigit(c: char) { '0' <= c <= '9' }
  predicate IsLowerAscii(c: char) { 'a' <= c <= 'z' }
  predicate IsUpperAscii(c: char) { 'A' <= c <= 'Z' }

  /** The characters Python's regular expressions count as `\w`. */
  predicate IsWordChar(c: char) { IsDigit(c) || IsLowerAscii(c) || IsUpperAscii(c) || c == '_' }

  /** The characters `str.split()` treats as separators. */
  predicate IsSpace(c: char) {
    c == ' ' || c == '\t' || c == '\n' || c == '\r' || c == '\U{B}' || c == '\U{C}'
    || c == '\U{1C}' || c == '\U{1D}' || c == '\U{1E}' || c == '\U{1F}'
  }

  /** `s.endswith(t)`; `t <= s` is the prefix test. */
  predicate EndsWith(s: string, t: string) { |t| <= |s| && s[|s| - |t|..] == t }

  /** A text ends with what was appended to it. */
  lemma EndsWithAppend(a: string, b: string)
    ensures EndsWith(a + b, b)
  {
    assert (a + b)[|a|..] == b;
  }

  predicate AllDigits(s: string) { forall i :: 0 <= i < |s| ==> IsDigit(s[i]) }
  predicate AllLower(s: string) { forall i :: 0 <= i < |s| ==> IsLowerAscii(s[i]) }
  predicate NoSpace(s: string) { forall i :: 0 <= i < |s| ==> !IsSpace(s[i]) }

  function DigitValue(c: char): (d: nat)
    requires IsDigit(c)
    ensures d < 10
  {
    (c as int - '0' as int) as nat
  }

  function DigitChar(d: nat): (c: char)
    requires d < 10
    ensures IsDigit(c) && DigitValue(c) == d
  {
    ('0' as int + d) as char
  }

  // ---------------------------------------------------------------------------
  // Digit filtering: "".join(x for x in s if x.isdigit())

  /** The digit characters of `s`, in order. */
  function Digits(s: string): (ds: string)
    ensures AllDigits(ds)
    ensures |ds| <= |s|
  {
    if s == [] then [] else (if IsDigit(s[0]) then [s[0]] else []) + Digits(s[1..])
  }

  /** Filtering distributes over concatenation; with the one-character case
      this determines `Digits` completely. */
  lemma {:induction false} DigitsConcat(a: string, b: string)
    ensures Digits(a + b) == Digits(a) + Digits(b)
  {
    if a != [] {
      assert (a + b)[0] == a[0];
      assert (a + b)[1..] == a[1..] + b;
      DigitsConcat(a[1..], b);
      var h := if IsDigit(a[0]) then [a[0]] else [];
      assert Digits(a + b) == h + (Digits(a[1..]) + Digits(b));
      assert h + (Digits(a[1..]) + Digits(b)) == (h + Digits(a[1..])) + Digits(b);
    } else {
      assert a + b == b;
    }
  }

  lemma DigitsOfChar(c: char)
    ensures Digits([c]) == if IsDigit(c) then [c] else []
  {
  }

  /** A string of digits filters to itself. */
  lemma {:induction false} DigitsOfDigits(s: string)
    requires AllDigits(s)
    ensures Digits(s) == s
  {
    if s != [] {
      DigitsOfDigits(s[1..]);
    }
  }

  /** The filter keeps something exactly when the text has a digit. */
  lemma {:induction false} DigitsNonEmpty(s: string)
    ensures Digits(s) != [] <==> exists i :: 0 <= i < |s| && IsDigit(s[i])
  {
    if s != [] {
      DigitsNonEmpty(s[1..]);
      if !IsDigit(s[0]) && (exists i :: 0 <= i < |s| && IsDigit(s[i])) {
        var i :| 0 <= i < |s| && IsDigit(s[i]);
        assert s[1..][i - 1] == s[i];
      }
    }
  }

  // ---------------------------------------------------------------------------
  // Decimal numerals

  /** The number whose decimal digits are `ds`, most significant first. */
  function DecimalValue(ds: string): nat
    requires AllDigits(ds)
  {
    if ds == [] then 0 else 10 * DecimalValue(ds[..|ds| - 1]) + DigitValue(ds[|ds| - 1])
  }

  /** `str(n)` for a natural: decimal digits, no padding, no leading zero. */
  function ShowNat(n: nat): (s: string)
    ensures s != [] && AllDigits(s)
    ensures |s| > 1 ==> s[0] != '0'
  {
    if n < 10 then [DigitChar(n)] else ShowNat(n / 10) + [DigitChar(n % 10)]
  }

  /** The canonical numeral of a digit string: leading zeros dropped, but one digit kept. */
  function Canonical(ds: string): (c: string)
    requires AllDigits(ds)
    ensures AllDigits(c) && |c| <= |ds|
  {
    if |ds| > 1 && ds[0] == '0' then Canonical(ds[1..]) else ds
  }

  function Pow10(k: nat): (p: nat)
    ensures p >= 1
  {
    if k == 0 then 1 else 10 * Pow10(k - 1)
  }

  /** Reading back what `ShowNat` writes gives the number. */
  lemma {:induction false} ValueOfShow(n: nat)
    ensures DecimalValue(ShowNat(n)) == n
  {
    if n >= 10 {
      ValueOfShow(n / 10);
      var s := ShowNat(n / 10) + [DigitChar(n % 10)];
      assert s[..|s| - 1] == ShowNat(n / 10);
    }
  }

  /** A digit string whose first digit is not zero has a positive value. */
  lemma {:induction false} ValuePositive(ds: string)
    requires AllDigits(ds) && ds != [] && ds[0] != '0'
    ensures DecimalValue(ds) >= Pow10(|ds| - 1)
  {
    if |ds| > 1 {
      var init := ds[..|ds| - 1];
      assert init[0] == ds[0];
      ValuePositive(init);
    }
  }

  /** A digit string of length `k` has a value below 10^k. */
  lemma {:induction false} ValueBelow(ds: string)
    requires AllDigits(ds)
    ensures DecimalValue(ds) < Pow10(|ds|)
  {
    if ds != [] {
      ValueBelow(ds[..|ds| - 1]);
    }
  }

  /** A leading zero does not change the value. */
  lemma {:induction false} ValueLeadingZero(ds: string)
    requires AllDigits(ds) && ds != [] && ds[0] == '0'
    ensures DecimalValue(ds) == DecimalValue(ds[1..])
  {
    if |ds| > 1 {
      var init := ds[..|ds| - 1];
      assert init[0] == '0';
      ValueLeadingZero(init);
      assert init[1..] == ds[1..][..|ds[1..]| - 1];
    }
  }

  /** Writing out the value of a numeral gives the numeral without its
      leading zeros: `str(int(ds))` is `Canonical(ds)`. */
  lemma {:induction false} ShowOfValue(ds: string)
    requires AllDigits(ds) && ds != []
    ensures ShowNat(DecimalValue(ds)) == Canonical(ds)
  {
    if |ds| > 1 && ds[0] == '0' {
      ValueLeadingZero(ds);
      ShowOfValue(ds[1..]);
    } else if |ds| > 1 {
      var init := ds[..|ds| - 1];
      assert init[0] == ds[0];
      ValuePositive(init);
      ShowOfValue(init);
      var v := DecimalValue(ds);
      assert v / 10 == DecimalValue(init) && v % 10 == DigitValue(ds[|ds| - 1]);
      assert DigitChar(v % 10) == ds[|ds| - 1];
      assert ds == init + [ds[|ds| - 1]];
    } else {
      assert DigitChar(DigitValue(ds[0])) == ds[0];
    }
  }

  /** `ShowNat(n)` has at most `k` digits when `n < 10^k`. */
  lemma {:induction false} ShowLength(n: nat, k: nat)
    requires k >= 1 && n < Pow10(k)
    ensures |ShowNat(n)| <= k
  {
    if n >= 10 {
      ShowLength(n / 10, k - 1);
    }
  }

  function Zeros(k: nat): (z: string)
    ensures |z| == k && AllDigits(z)
    ensures forall i :: 0 <= i < k ==> z[i] == '0'
  {
    if k == 0 then [] else ['0'] + Zeros(k - 1)
  }

  /** Zeros in front do not change the value. */
  lemma {:induction false} ValueZerosPrefix(k: nat, ds: string)
    requires AllDigits(ds)
    ensures AllDigits(Zeros(k) + ds) && DecimalValue(Zeros(k) + ds) == DecimalValue(ds)
  {
    if k > 0 {
      var s := Zeros(k) + ds;
      assert Zeros(k) == ['0'] + Zeros(k - 1);
      assert s == ['0'] + (Zeros(k - 1) + ds);
      assert s[1..] == Zeros(k - 1) + ds;
      ValueZerosPrefix(k - 1, ds);
      ValueLeadingZero(s);
    } else {
      assert Zeros(k) + ds == ds;
    }
  }

  /** `n` zero-padded to `width` digits, as `%0<width>d` writes it. */
  function Pad(n: nat, width: nat): (s: string)
    requires width >= 1 && n < Pow10(width)
    ensures |s| == width && AllDigits(s) && DecimalValue(s) == n
  {
    ShowLength(n, width);
    ValueOfShow(n);
    ValueZerosPrefix(width - |ShowNat(n)|, ShowNat(n));
    Zeros(width - |ShowNat(n)|) + ShowNat(n)
  }

  /** A digit string is its canonical numeral behind a run of zeros. */
  lemma {:induction false} CanonicalAfterZeros(ds: string)
    requires AllDigits(ds)
    ensures ds == Zeros(|ds| - |Canonical(ds)|) + Canonical(ds)
  {
    if |ds| > 1 && ds[0] == '0' {
      CanonicalAfterZeros(ds[1..]);
      var k := |ds[1..]| - |Canonical(ds[1..])|;
      assert Zeros(k + 1) == ['0'] + Zeros(k);
      assert ds == ['0'] + ds[1..];
    } else {
      assert Zeros(0) + ds == ds;
    }
  }

  /** Padding the value of a `width`-digit string gives the string back. */
  lemma PadOfValue(ds: string, width: nat)
    requires AllDigits(ds) && |ds| == width && width >= 1
    ensures DecimalValue(ds) < Pow10(width) && Pad(DecimalValue(ds), width) == ds
  {
    ValueBelow(ds);
    ShowOfValue(ds);
    CanonicalAfterZeros(ds);
  }

  // ---------------------------------------------------------------------------
  // Case and whitespace

  function LowerChar(c: char): (l: char)
    ensures !IsUpperAscii(c) ==> l == c
  {
    if IsUpperAscii(c) then (c as int + 32) as char else c
  }

  /** `s.lower()`: every upper-case letter replaced by its lower-case form. */
  function Lower(s: string): (r: string)
    ensures |r| == |s|
    ensures forall i :: 0 <= i < |s| ==> r[i] == LowerChar(s[i])
  {
    if s == [] then [] else [LowerChar(s[0])] + Lower(s[1..])
  }

  /** A text with no upper-case letter is its own lower-case form. */
  lemma LowerIdentity(s: string)
    requires forall i :: 0 <= i < |s| ==> !IsUpperAscii(s[i])
    ensures Lower(s) == s
  {
  }

  function SkipSpaces(s: string): (r: string)
    ensures |r| <= |s|
    ensures r == [] || !IsSpace(r[0])
  {
    if s != [] && IsSpace(s[0]) then SkipSpaces(s[1..]) else s
  }

  function WordLength(s: string): (n: nat)
    ensures n <= |s|
    ensures s != [] && !IsSpace(s[0]) ==> n >= 1
  {
    if s != [] && !IsSpace(s[0]) then 1 + WordLength(s[1..]) else 0
  }

  /** `s.split()`: the maximal runs of non-space characters, in order. */
  function Split(s: string): (words: seq<string>)
    decreases |s|
  {
    var t := SkipSpaces(s);
    if t == [] then [] else
      var n := WordLength(t);
      [t[..n]] + Split(t[n..])
  }

  /** A word's length covers only non-space characters. */
  lemma {:induction false} WordLengthNoSpace(s: string)
    ensures NoSpace(s[..WordLength(s)])
    decreases |s|
  {
    if s != [] && !IsSpace(s[0]) {
      WordLengthNoSpace(s[1..]);
      assert s[..WordLength(s)] == [s[0]] + s[1..][..WordLength(s[1..])];
    }
  }

  /** Every word `split` yields is non-empty and holds no separator. */
  lemma {:induction false} SplitWords(s: string)
    ensures forall i :: 0 <= i < |Split(s)| ==> Split(s)[i] != [] && NoSpace(Split(s)[i])
    decreases |s|
  {
    var t := SkipSpaces(s);
    if t != [] {
      var n := WordLength(t);
      WordLengthNoSpace(t);
      SplitWords(t[n..]);
      assert Split(s) == [t[..n]] + Split(t[n..]);
    }
  }

  lemma {:induction false} WordLengthOfWord(a: string, rest: string)
    requires NoSpace(a) && (rest == [] || IsSpace(rest[0]))
    ensures WordLength(a + rest) == |a|
  {
    if a != [] {
      assert (a + rest)[1..] == a[1..] + rest;
      WordLengthOfWord(a[1..], rest);
    }
  }

  /** A word followed by a separator (or nothing) splits off as the first word. */
  lemma SplitFirstWord(a: string, rest: string)
    requires a != [] && NoSpace(a) && (rest == [] || IsSpace(rest[0]))
    ensures Split(a + rest) == [a] + Split(rest)
  {
    var s := a + rest;
    assert s[0] == a[0];
    assert SkipSpaces(s) == s;
    WordLengthOfWord(a, rest);
    assert s[..|a|] == a;
    assert s[|a|..] == rest;
  }

  /** A leading separator, whatever follows it, does not change the words. */
  lemma SplitAfterAnySpace(c: char, b: string)
    requires IsSpace(c)
    ensures Split([c] + b) == Split(b)
  {
    var sb := [c] + b;
    assert sb[1..] == b;
    assert SkipSpaces(sb) == SkipSpaces(b);
  }

  /** A text has no words exactly when it is all separators. */
  lemma {:induction false} SplitEmpty(s: string)
    ensures Split(s) == [] <==> forall i :: 0 <= i < |s| ==> IsSpace(s[i])
    decreases |s|
  {
    if s != [] {
      if IsSpace(s[0]) {
        SplitEmpty(s[1..]);
        SplitAfterAnySpace(s[0], s[1..]);
        assert [s[0]] + s[1..] == s;
        assert forall i :: 1 <= i < |s| ==> s[i] == s[1..][i - 1];
      } else {
        assert SkipSpaces(s) == s;
      }
    }
  }

  lemma SplitOneWord(b: string)
    requires b != [] && NoSpace(b)
    ensures Split(b) == [b]
  {
    assert b + [] == b;
    SplitFirstWord(b, []);
    assert Split([]) == [];
  }

  /** Two words joined by one space split back into the two words. */
  lemma SplitTwoWords(a: string, b: string)
    requires a != [] && NoSpace(a) && b != [] && NoSpace(b)
    ensures Split(a + ([' '] + b)) == [a, b]
  {
    SplitFirstWord(a, [' '] + b);
    SplitSpaceWord(b, [' '] + b);
  }

  lemma SplitSpaceWord(b: string, sb: string)
    requires b != [] && NoSpace(b) && sb == [' '] + b
    ensures Split(sb) == [b]
  {
    SplitAfterAnySpace(' ', b);
    SplitOneWord(b);
  }
}
