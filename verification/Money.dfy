/**
  Amounts of money: decimal strings with two decimals on the outside, unbounded
  integer cents for arithmetic.
*/
module Money {
  import opened Common

  datatype MoneyError = InvalidAmount

  // ---- digits -------------------------------------------------------------------

  predicate IsDigit(c: char) { '0' <= c <= '9' }

  predicate AllDigits(s: string) { forall i :: 0 <= i < |s| ==> IsDigit(s[i]) }

  function DigitValue(c: char): (r: nat)
    requires IsDigit(c)
  {
    c as int - '0' as int
  }

  function DigitChar(d: nat): (c: char)
    requires d < 10
    ensures IsDigit(c) && DigitValue(c) == d
  {
    ('0' as int + d) as char
  }

  /** The number a run of digits stands for; the empty run is 0. */
  function ValueOf(s: string): (r: nat)
    requires AllDigits(s)
  {
    if s == "" then 0 else 10 * ValueOf(s[..|s| - 1]) + DigitValue(s[|s| - 1])
  }

  /** The shortest run of digits for a number. */
  function DigitsOf(n: nat): (s: string)
    ensures AllDigits(s) && s != ""
  {
    if n < 10 then [DigitChar(n)] else DigitsOf(n / 10) + [DigitChar(n % 10)]
  }

  predicate NoLeadingZero(s: string) { s != "" && (s[0] == '0' ==> |s| == 1) }

  function Pow10(k: nat): (r: nat) {
    if k == 0 then 1 else 10 * Pow10(k - 1)
  }

  lemma {:induction false} PrintThenRead(n: nat)
    ensures ValueOf(DigitsOf(n)) == n && NoLeadingZero(DigitsOf(n)) && (n > 0 ==> DigitsOf(n)[0] != '0')
  {
    if n >= 10 {
      PrintThenRead(n / 10);
      assert DigitsOf(n)[..|DigitsOf(n)| - 1] == DigitsOf(n / 10);
    }
  }

  lemma {:induction false} ReadThenPrint(s: string)
    requires AllDigits(s) && NoLeadingZero(s)
    ensures DigitsOf(ValueOf(s)) == s && (s[0] != '0' ==> ValueOf(s) > 0)
  {
    if |s| > 1 {
      var front := s[..|s| - 1];
      ReadThenPrint(front);
      assert s == front + [s[|s| - 1]];
    } else {
      assert s[..0] == "";
      assert s == [s[0]];
    }
  }

  lemma {:induction false} ValueBound(s: string)
    requires AllDigits(s)
    ensures ValueOf(s) < Pow10(|s|)
  {
    if s != "" { ValueBound(s[..|s| - 1]); }
  }

  lemma {:induction false} LengthBound(n: nat, k: nat)
    requires k > 0 && n < Pow10(k)
    ensures |DigitsOf(n)| <= k
  {
    assert Pow10(1) == 10 * Pow10(0) == 10;
    if n >= 10 {
      LengthBound(n / 10, k - 1);
    }
  }

  // ---- the shape of an amount ------------------------------------------------------

  /** The white space that `trim` removes (ECMA-262, WhiteSpace and LineTerminator). */
  predicate IsSpace(c: char) {
    var n := c as int;
    || 0x09 <= n <= 0x0D || n == 0x20 || n == 0xA0 || n == 0x1680 || 0x2000 <= n <= 0x200A
    || n == 0x2028 || n == 0x2029 || n == 0x202F || n == 0x205F || n == 0x3000 || n == 0xFEFF
  }

  function Trim(s: string): (r: string) {
    if s != "" && IsSpace(s[0]) then Trim(s[1..])
    else if s != "" && IsSpace(s[|s| - 1]) then Trim(s[..|s| - 1])
    else s
  }

  /** What stands before the first dot, and after it. */
  function Whole(s: string): (w: string)
    ensures w <= s && '.' !in w && (w == s || s[|w|] == '.')
  {
    if s == "" || s[0] == '.' then "" else [s[0]] + Whole(s[1..])
  }

  function Decimals(s: string): (d: string)
    ensures Whole(s) == s ==> d == ""
  {
    if Whole(s) == s then "" else s[|Whole(s)| + 1..]
  }

  /** One to ten digits, and optionally a dot with one or two more. */
  predicate Matches(s: string) {
    && AllDigits(Whole(s)) && 1 <= |Whole(s)| <= 10
    && AllDigits(Decimals(s)) && |Decimals(s)| <= 2 && (Whole(s) != s ==> Decimals(s) != "")
  }

  function PadEnd(d: string): (r: string) {
    if |d| == 0 then "00" else if |d| == 1 then d + "0" else d
  }

  function PadStart(d: string): (r: string)
    requires d != ""
  {
    if |d| == 1 then "0" + d else d
  }

  // ---- the operations ---------------------------------------------------------------

  function Normalise(text: string): (r: Result<string, MoneyError>) {
    var trimmed := Trim(text);
    if !Matches(trimmed) then Err(InvalidAmount)
    else Ok(DigitsOf(ValueOf(Whole(trimmed))) + "." + PadEnd(Decimals(trimmed)))
  }

  predicate Negative(m: string) { m != "" && m[0] == '-' }

  function Unsigned(m: string): (r: string) {
    if Negative(m) then m[1..] else m
  }

  /** What can be read as an amount: an optional sign, digits, and optionally a dot with digits. */
  predicate IsAmount(m: string) {
    AllDigits(Whole(Unsigned(m))) && AllDigits(Decimals(Unsigned(m)))
  }

  function ToCents(m: string): (r: int)
    requires IsAmount(m)
  {
    var value := 100 * ValueOf(Whole(Unsigned(m))) + ValueOf(PadEnd(Decimals(Unsigned(m)))[..2]);
    if Negative(m) then -value else value
  }

  function FromCents(cents: int): (r: string) {
    var size := if cents < 0 then -cents else cents;
    var text := DigitsOf(size / 100) + "." + PadStart(DigitsOf(size % 100));
    if cents < 0 then "-" + text else text
  }

  // ---- round trips -------------------------------------------------------------------

  /** How amounts are written: no needless zero, two decimals, and a sign only below zero. */
  predicate Canonical(m: string) {
    var whole, decimals := Whole(Unsigned(m)), Decimals(Unsigned(m));
    && AllDigits(whole) && NoLeadingZero(whole) && AllDigits(decimals) && |decimals| == 2
    && (Negative(m) ==> whole != "0" || decimals != "00")
  }

  lemma {:induction false} SplitJoined(whole: string, decimals: string)
    requires '.' !in whole
    ensures Whole(whole + "." + decimals) == whole && Decimals(whole + "." + decimals) == decimals
  {
    var s := whole + "." + decimals;
    if whole != "" {
      assert s[1..] == whole[1..] + "." + decimals;
      SplitJoined(whole[1..], decimals);
    }
  }

  lemma DigitsHoldNoDot(s: string)
    requires AllDigits(s)
    ensures '.' !in s && !Negative(s)
  {
  }

  lemma TwoDigits(d: string)
    requires AllDigits(d) && |d| == 2
    ensures ValueOf(d) == 10 * DigitValue(d[0]) + DigitValue(d[1]) < 100
    ensures PadStart(DigitsOf(ValueOf(d))) == d
  {
    OneDigit(d[0]);
    assert d[..1] == [d[0]];
    PrintedTwice(DigitValue(d[0]), DigitValue(d[1]));
    assert d == [d[0], d[1]];
  }

  lemma OneDigit(c: char)
    requires IsDigit(c)
    ensures ValueOf([c]) == DigitValue(c)
  {
    assert [c][..0] == "";
  }

  lemma PrintedTwice(tens: nat, ones: nat)
    requires tens < 10 && ones < 10
    ensures PadStart(DigitsOf(10 * tens + ones)) == [DigitChar(tens), DigitChar(ones)]
  {
    if tens > 0 { OneMoreDigit(tens, ones); }
  }

  lemma OneMoreDigit(front: nat, last: nat)
    requires front > 0 && last < 10
    ensures DigitsOf(10 * front + last) == DigitsOf(front) + [DigitChar(last)]
  {
    var n := 10 * front + last;
    assert n / 10 == front;
    assert n % 10 == last;
  }

  lemma SmallNumber(n: nat)
    requires n < 100
    ensures var d := PadStart(DigitsOf(n)); AllDigits(d) && |d| == 2 && ValueOf(d) == n
  {
    PrintThenRead(n);
    LengthBound(n, 2) by { assert Pow10(2) == 100; }
    var d := PadStart(DigitsOf(n));
    TwoDigits(d);
    if n < 10 { assert d[1] == DigitChar(n); }
    else { assert d == DigitsOf(n); }
  }

  /** Printing and reading gives the cents back, for every integer; and what is printed is canonical. */
  lemma CentsRoundTrip(cents: int)
    ensures IsAmount(FromCents(cents)) && ToCents(FromCents(cents)) == cents && Canonical(FromCents(cents))
  {
    var size := if cents < 0 then -cents else cents;
    var whole, decimals := DigitsOf(size / 100), PadStart(DigitsOf(size % 100));
    var text := whole + "." + decimals;
    PrintThenRead(size / 100);
    SmallNumber(size % 100);
    DigitsHoldNoDot(whole);
    SplitJoined(whole, decimals);
    assert Unsigned(FromCents(cents)) == text;
    assert Negative(FromCents(cents)) <==> cents < 0;
    assert PadEnd(decimals)[..2] == decimals;
    if whole == "0" && decimals == "00" { assert size / 100 == 0 && size % 100 == 0; }
  }

  lemma Printed(cents: int)
    ensures IsAmount(FromCents(cents)) && ToCents(FromCents(cents)) == cents
  {
    CentsRoundTrip(cents);
  }

  lemma JoinedAgain(s: string)
    ensures Whole(s) != s ==> s == Whole(s) + "." + Decimals(s)
  {
  }

  /** Reading and printing gives the text back exactly when it is canonical. */
  lemma TextRoundTripsExactlyWhenCanonical(m: string)
    requires IsAmount(m)
    ensures FromCents(ToCents(m)) == m <==> Canonical(m)
  {
    CentsRoundTrip(ToCents(m));
    if Canonical(m) { CanonicalRoundTrip(m); }
  }

  lemma CanonicalRoundTrip(m: string)
    requires Canonical(m)
    ensures IsAmount(m) && FromCents(ToCents(m)) == m
  {
    var rest := Unsigned(m);
    var whole, decimals := Whole(rest), Decimals(rest);
    var size := 100 * ValueOf(whole) + ValueOf(decimals);
    JoinedAgain(rest);
    PlainRoundTrip(whole, decimals);
    assert ToCents(m) == if Negative(m) then -size else size by { assert PadEnd(decimals)[..2] == decimals; }
    if Negative(m) {
      assert size > 0 by {
        if size == 0 { OnlyZeroIsNothing(whole, decimals); }
      }
      NegativePrinted(size);
      assert m == "-" + rest;
    }
  }

  lemma PlainRoundTrip(whole: string, decimals: string)
    requires AllDigits(whole) && NoLeadingZero(whole) && AllDigits(decimals) && |decimals| == 2
    ensures var size := 100 * ValueOf(whole) + ValueOf(decimals);
            FromCents(size) == whole + "." + decimals
  {
    ReadThenPrint(whole);
    TwoDigits(decimals);
    PrintedApart(ValueOf(whole), ValueOf(decimals));
  }

  lemma OnlyZeroIsNothing(whole: string, decimals: string)
    requires AllDigits(whole) && NoLeadingZero(whole) && AllDigits(decimals) && |decimals| == 2
    requires ValueOf(whole) == 0 && ValueOf(decimals) == 0
    ensures whole == "0" && decimals == "00"
  {
    ReadThenPrint(whole);
    TwoDigits(decimals);
    assert DigitsOf(0) == "0";
  }

  lemma NegativePrinted(size: int)
    requires size > 0
    ensures FromCents(-size) == "-" + FromCents(size)
  {
  }

  lemma PrintedApart(units: nat, hundredths: nat)
    requires hundredths < 100
    ensures FromCents(100 * units + hundredths) == DigitsOf(units) + "." + PadStart(DigitsOf(hundredths))
  {
    var cents := 100 * units + hundredths;
    assert cents / 100 == units;
    assert cents % 100 == hundredths;
  }

  // ---- normalising ---------------------------------------------------------------------

  /** The cents a matching text stands for. */
  ghost function Meaning(s: string): (r: nat)
    requires Matches(s)
  {
    100 * ValueOf(Whole(s)) + ValueOf(Decimals(s)) * Pow10(2 - |Decimals(s)|)
  }

  /** The pattern, said without the code's way of cutting the text. */
  lemma MatchesIsThePattern(s: string)
    ensures Matches(s) <==> InPattern(s)
  {
    if Matches(s) {
      JoinedAgain(s);
      var decimals := Decimals(s);
      assert IsWritten(s, Whole(s), if Whole(s) == s then None else Some(decimals));
    }
    if InPattern(s) {
      var whole, decimals :| IsWritten(s, whole, decimals);
      if decimals.Some? { SplitJoined(whole, decimals.value); } else { NoDotNoCut(s); }
    }
  }

  ghost predicate InPattern(s: string) {
    exists whole, decimals :: IsWritten(s, whole, decimals)
  }

  ghost predicate IsWritten(s: string, whole: string, decimals: Option<string>) {
    && AllDigits(whole) && 1 <= |whole| <= 10
    && (decimals.Some? ==> AllDigits(decimals.value) && 1 <= |decimals.value| <= 2)
    && s == if decimals.None? then whole else whole + "." + decimals.value
  }

  lemma {:induction false} NoDotNoCut(s: string)
    requires '.' !in s
    ensures Whole(s) == s
  {
    if s != "" { NoDotNoCut(s[1..]); }
  }

  /** `trim` removes white space at both ends, all of it, and nothing else. */
  lemma {:induction false} TrimMeaning(s: string)
    ensures var t := Trim(s); t != "" ==> !IsSpace(t[0]) && !IsSpace(t[|t| - 1])
    ensures exists k: nat :: LiesAt(Trim(s), s, k)
    decreases |s|
  {
    var t := Trim(s);
    if s != "" && IsSpace(s[0]) {
      TrimMeaning(s[1..]);
      var k: nat :| LiesAt(t, s[1..], k);
      LiesBehind(t, s, k);
    } else if s != "" && IsSpace(s[|s| - 1]) {
      var front := s[..|s| - 1];
      TrimMeaning(front);
      var k: nat :| LiesAt(t, front, k);
      assert s[k..k + |t|] == front[k..k + |t|];
      assert LiesAt(t, s, k);
    } else {
      assert LiesAt(t, s, 0);
    }
  }

  lemma LiesBehind(t: string, s: string, k: nat)
    requires s != "" && IsSpace(s[0]) && LiesAt(t, s[1..], k)
    ensures LiesAt(t, s, k + 1)
  {
    var back := s[1..];
    assert s[k + 1..k + 1 + |t|] == back[k..k + |t|];
    forall i | 0 <= i < k + 1 || k + 1 + |t| <= i < |s| ensures IsSpace(s[i]) {
      if i > 0 { assert s[i] == back[i - 1]; }
    }
  }

  /** `t` is the part of `s` from `k` on, and around it there is only white space. */
  ghost predicate LiesAt(t: string, s: string, k: nat) {
    && k + |t| <= |s| && s[k..k + |t|] == t
    && (forall i :: 0 <= i < k || k + |t| <= i < |s| ==> IsSpace(s[i]))
  }

  /** Accepted exactly when the trimmed text matches; the value is kept and lies in [0, 10^12) cents. */
  lemma NormaliseKeepsTheValue(text: string)
    ensures Normalise(text).Ok? <==> InPattern(Trim(text))
    ensures Normalise(text).Ok? ==>
              var m := Normalise(text).value;
              && Canonical(m) && Matches(m) && !Negative(m)
              && ToCents(m) == Meaning(Trim(text)) && ToCents(m) < 1_000_000_000_000
              && FromCents(ToCents(m)) == m
  {
    var t := Trim(text);
    MatchesIsThePattern(t);
    if Matches(t) {
      var whole, decimals := DigitsOf(ValueOf(Whole(t))), PadEnd(Decimals(t));
      var m := whole + "." + decimals;
      PrintThenRead(ValueOf(Whole(t)));
      DigitsHoldNoDot(whole);
      SplitJoined(whole, decimals);
      assert !Negative(m) && Unsigned(m) == m;
      ValueBound(Whole(t));
      LengthBound(ValueOf(Whole(t)), |Whole(t)|);
      LengthAtMostTen(Whole(t));
      PaddingKeepsTheValue(Decimals(t));
      assert decimals[..2] == decimals;
      TextRoundTripsExactlyWhenCanonical(m);
    }
  }

  lemma LengthAtMostTen(w: string)
    requires AllDigits(w) && |w| <= 10
    ensures ValueOf(w) < 10_000_000_000
  {
    ValueBound(w);
    PowersGrow(|w|, 10);
    assert Pow10(10) == 10_000_000_000 by {
      assert Pow10(5) == 100_000;
      assert Pow10(10) == 100_000 * Pow10(5);
    }
  }

  lemma {:induction false} PowersGrow(j: nat, k: nat)
    requires j <= k
    ensures Pow10(j) <= Pow10(k)
  {
    if j < k { PowersGrow(j, k - 1); }
  }

  lemma PaddingKeepsTheValue(d: string)
    requires AllDigits(d) && |d| <= 2
    ensures AllDigits(PadEnd(d)) && |PadEnd(d)| == 2
    ensures ValueOf(PadEnd(d)) == ValueOf(d) * Pow10(2 - |d|) < 100
  {
    TwoDigits(PadEnd(d));
    assert Pow10(0) == 1 && Pow10(1) == 10 && Pow10(2) == 100;
    if |d| == 1 {
      assert d[..0] == "" && ValueOf(d) == DigitValue(d[0]);
    }
  }

  /** Normalising a normalised amount changes nothing. */
  lemma NormaliseIsIdempotent(text: string)
    requires Normalise(text).Ok?
    ensures Normalise(Normalise(text).value) == Normalise(text)
  {
    NormaliseKeepsTheValue(text);
    CanonicalStays(Normalise(text).value);
  }

  lemma CanonicalStays(m: string)
    requires Canonical(m) && Matches(m) && !Negative(m)
    ensures Normalise(m) == Ok(m)
  {
    JoinedAgain(m);
    ReadThenPrint(Whole(m));
    assert m[|m| - 1] == Decimals(m)[1];
    assert m[0] == Whole(m)[0];
    assert Trim(m) == m;
  }

  /** Two texts normalise to the same amount exactly when they mean the same number of cents. */
  lemma SameTextExactlyForSameValue(a: string, b: string)
    requires Normalise(a).Ok? && Normalise(b).Ok?
    ensures Normalise(a) == Normalise(b) <==> Meaning(Trim(a)) == Meaning(Trim(b))
  {
    NormaliseKeepsTheValue(a);
    NormaliseKeepsTheValue(b);
  }

  /** The normalised amounts are what `FromCents` prints for the cents in [0, 10^12), all of them. */
  lemma NormalisedAmountsArePrintedCents(cents: nat)
    ensures Normalise(FromCents(cents)) == Ok(FromCents(cents)) <==> cents < 1_000_000_000_000
  {
    var m := FromCents(cents);
    CentsRoundTrip(cents);
    if Normalise(m) == Ok(m) {
      NormaliseKeepsTheValue(m);
    }
    if cents < 1_000_000_000_000 {
      PrintThenRead(cents / 100);
      SmallNumber(cents % 100);
      DigitsHoldNoDot(DigitsOf(cents / 100));
      SplitJoined(DigitsOf(cents / 100), PadStart(DigitsOf(cents % 100)));
      assert Pow10(10) == 10_000_000_000 by {
        assert Pow10(5) == 100_000;
        assert Pow10(10) == 100_000 * Pow10(5);
      }
      LengthBound(cents / 100, 10);
      CanonicalStays(m);
    }
  }
}
