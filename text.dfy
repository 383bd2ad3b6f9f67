/**
 * The text operations the decoder relies on: finding the first occurrence of a
 * character (`str::find`, `str::split_once`), `str::ends_with`, and the two
 * number parsers (`usize::from_str` for string lengths, `serde_json::Number::from_str`
 * for integer bodies). `DecimalText` and `SignedText` are reference renderings
 * against which the parsers are proved.
 */
module Text {
  import opened Results

  /** One more than the largest `usize` on a 64-bit target. */
  const USIZE_LIMIT: nat := 0x1_0000_0000_0000_0000

  /** `char::is_digit(10)`: ASCII decimal digits only. */
  predicate IsDigit(c: char): (b: bool)
    ensures b <==> c in "0123456789"
  {
    '0' <= c <= '9'
  }

  function DigitValue(c: char): nat
    requires IsDigit(c)
  {
    (c as int) - ('0' as int)
  }

  function DigitChar(d: nat): (c: char)
    requires d < 10
    ensures IsDigit(c) && DigitValue(c) == d
  {
    (('0' as int) + d) as char
  }

  predicate AllDigits(t: string) {
    forall i :: 0 <= i < |t| ==> IsDigit(t[i])
  }

  /** The number a run of decimal digits denotes, most significant digit first. */
  function DigitsValue(t: string): nat
    requires AllDigits(t)
  {
    if t == [] then 0 else DigitsValue(t[..|t| - 1]) * 10 + DigitValue(t[|t| - 1])
  }

  /** `t` ends with `s` (`s` is what remains of `t` after a prefix was consumed). */
  predicate IsSuffix(s: string, t: string) {
    |s| <= |t| && t[|t| - |s|..] == s
  }

  lemma SuffixTransitive(a: string, b: string, c: string)
    requires IsSuffix(a, b) && IsSuffix(b, c)
    ensures IsSuffix(a, c)
  {
    assert c[|c| - |a|..] == c[|c| - |b|..][|b| - |a|..];
  }

  /** `str::ends_with(c)` for a single character. */
  predicate EndsWith(t: string, c: char): (b: bool)
    ensures b <==> IsSuffix([c], t)
  {
    t != [] && t[|t| - 1] == c
  }

  /** `str::find(c)`: the index of the first occurrence of `c`, if any. */
  function FirstIndex(t: string, c: char): (r: Option<nat>)
    ensures r.Some? ==> r.value < |t| && t[r.value] == c && c !in t[..r.value]
    ensures r.None? <==> c !in t
  {
    if t == [] then None
    else if t[0] == c then Some(0)
    else match FirstIndex(t[1..], c)
      case None => None
      case Some(k) =>
        assert t[..k + 1] == [t[0]] + t[1..][..k];
        Some(k + 1)
  }

  /** The first occurrence is the only index with no earlier occurrence. */
  lemma FirstIndexIs(t: string, c: char, k: nat)
    requires k < |t| && t[k] == c && c !in t[..k]
    ensures FirstIndex(t, c) == Some(k)
  {
    assert t[k] in t;
  }

  /** `usize::from_str` on a 64-bit target: one or more ASCII digits denoting a value below 2^64.
      (A leading `+` is never reached: the caller only parses text that starts with a digit.) */
  function ParseUsize(t: string): (r: Option<nat>)
    ensures r.Some? <==> t != [] && AllDigits(t) && DigitsValue(t) < USIZE_LIMIT
    ensures r.Some? ==> AllDigits(t) && r.value == DigitsValue(t) < USIZE_LIMIT
  {
    if t != [] && AllDigits(t) && DigitsValue(t) < USIZE_LIMIT then Some(DigitsValue(t)) else None
  }

  /** `Number::from_str`, abstracted to the integers: an optional `-` followed by one or more ASCII digits. */
  function ParseNumber(t: string): (r: Option<int>)
    ensures r.Some? <==> (t != [] && t[0] != '-' && AllDigits(t)) || (|t| > 1 && t[0] == '-' && AllDigits(t[1..]))
    ensures r.Some? && t[0] != '-' ==> AllDigits(t) && r.value == DigitsValue(t)
    ensures r.Some? && t[0] == '-' ==> AllDigits(t[1..]) && r.value == 0 - DigitsValue(t[1..])
    ensures r.Some? && r.value < 0 ==> t[0] == '-'
  {
    if t != [] && t[0] == '-' then
      if |t| > 1 && AllDigits(t[1..]) then Some(0 - DigitsValue(t[1..])) else None
    else if t != [] && AllDigits(t) then Some(DigitsValue(t))
    else None
  }

  /** `parse::<Number>().unwrap_or_else(|_| Number::from(0))`. */
  function NumberOrZero(t: string): (n: int)
    ensures ParseNumber(t).Some? ==> n == ParseNumber(t).value
    ensures ParseNumber(t).None? ==> n == 0
  {
    match ParseNumber(t)
    case Some(n) => n
    case None => 0
  }

  /** Minimal decimal text of a natural number. */
  function DecimalText(n: nat): (t: string)
    ensures t != [] && AllDigits(t)
    decreases n
  {
    if n < 10 then [DigitChar(n)] else DecimalText(n / 10) + [DigitChar(n % 10)]
  }

  /** Decimal text of an integer, with `-` for negatives. */
  function SignedText(n: int): (t: string)
    ensures t != []
    ensures forall i :: 0 <= i < |t| ==> IsDigit(t[i]) || t[i] == '-'
  {
    if n < 0 then ['-'] + DecimalText(-n) else DecimalText(n)
  }

  /** Reading back the decimal text of `n` gives `n`. */
  lemma {:induction false} DecimalTextValue(n: nat)
    ensures DigitsValue(DecimalText(n)) == n
    decreases n
  {
    if n >= 10 {
      var t := DecimalText(n);
      assert t[..|t| - 1] == DecimalText(n / 10);
      DecimalTextValue(n / 10);
    }
  }

  /** Leading zeros do not change the value of a digit run: `usize::from_str` does not reject them. */
  lemma {:induction false} LeadingZeroIgnored(t: string)
    requires AllDigits(t)
    ensures AllDigits(['0'] + t) && DigitsValue(['0'] + t) == DigitsValue(t)
  {
    var z := ['0'] + t;
    if t != [] {
      assert z[..|z| - 1] == ['0'] + t[..|t| - 1];
      LeadingZeroIgnored(t[..|t| - 1]);
    }
  }

  /** `usize::from_str` reads back every length it can represent. */
  lemma ParseUsizeDecimal(n: nat)
    requires n < USIZE_LIMIT
    ensures ParseUsize(DecimalText(n)) == Some(n)
  {
    DecimalTextValue(n);
  }

  /** The integer parser reads back the decimal text of every integer, negative ones included. */
  lemma ParseNumberSigned(n: int)
    ensures ParseNumber(SignedText(n)) == Some(n)
  {
    if n < 0 {
      DecimalTextValue(-n);
      assert SignedText(n)[1..] == DecimalText(-n);
    } else {
      DecimalTextValue(n);
    }
  }

  /** A body that is empty, or holds a character other than a digit (or a `-` in front),
      does not parse, and the decoder falls back to 0. */
  lemma NumberOrZeroFallsBack(t: string, i: nat)
    requires t == [] || (i < |t| && !IsDigit(t[i]) && !(i == 0 && t[i] == '-'))
    ensures NumberOrZero(t) == 0
  {
    if t != [] && t[0] == '-' && |t| > 1 {
      assert !IsDigit(t[1..][i - 1]);
    }
  }
}
