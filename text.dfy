/**
 * Character and string primitives of the JVM that the source relies on: decimal digits,
 * `Long` arithmetic and `toLongOrNull`, `trim`, `isBlank` and upper/lower casing. Only
 * the ASCII range of each character class is modelled.
 */
module Text {
  import opened Wrappers

  predicate IsDigit(c: char) {
    '0' <= c <= '9'
  }

  predicate AllDigits(s: string) {
    forall i :: 0 <= i < |s| ==> IsDigit(s[i])
  }

  function DigitChar(d: nat): (c: char)
    requires d < 10
    ensures IsDigit(c)
  {
    ('0' as int + d) as char
  }

  function DigitValue(c: char): (d: nat)
    requires IsDigit(c)
    ensures d < 10 && DigitChar(d) == c
  {
    c as int - '0' as int
  }

  /** The decimal rendering of a non-negative number, as string concatenation does it. */
  function NatToString(n: nat): (r: string)
    ensures |r| >= 1 && AllDigits(r)
  {
    if n < 10 then [DigitChar(n)] else NatToString(n / 10) + [DigitChar(n % 10)]
  }

  /** The value of a string of decimal digits, read most significant digit first. */
  function DigitsValue(s: string): nat
    requires AllDigits(s)
  {
    if s == [] then 0 else DigitsValue(s[..|s| - 1]) * 10 + DigitValue(s[|s| - 1])
  }

  /** Reading back a rendered number gives the number. */
  lemma {:induction false} DigitsValueOfNatToString(n: nat)
    ensures DigitsValue(NatToString(n)) == n
  {
    var s := NatToString(n);
    if n >= 10 {
      DigitsValueOfNatToString(n / 10);
      assert s[..|s| - 1] == NatToString(n / 10);
    }
  }

  const MinLong: int := -0x8000_0000_0000_0000
  const MaxLong: int := 0x7FFF_FFFF_FFFF_FFFF
  const TwoTo64: int := 0x1_0000_0000_0000_0000

  /** `x` fits in a JVM `long`. */
  predicate IsLong(x: int) {
    MinLong <= x <= MaxLong
  }

  /** Two's-complement wrap-around of JVM `long` arithmetic. */
  function Wrap64(x: int): (r: int)
    ensures IsLong(r)
    ensures (r - x) % TwoTo64 == 0
    ensures IsLong(x) ==> r == x
  {
    (x - MinLong) % TwoTo64 + MinLong
  }

  predicate IsSign(c: char) {
    c == '-' || c == '+'
  }

  /** The digits of `s` after an optional leading sign. */
  function Magnitude(s: string): string {
    if |s| > 0 && IsSign(s[0]) then s[1..] else s
  }

  /** An optional sign followed by at least one decimal digit and nothing else. */
  predicate IsDecimal(s: string) {
    Magnitude(s) != [] && AllDigits(Magnitude(s))
  }

  /** The signed value a decimal string denotes; leading zeros and a `+` do not change it. */
  function DecimalValue(s: string): int
    requires IsDecimal(s)
  {
    if s[0] == '-' then 0 - DigitsValue(Magnitude(s)) else DigitsValue(Magnitude(s))
  }

  /**
   * Kotlin `String.toLongOrNull()` in radix 10: an optional leading `-` or `+`, then at
   * least one digit, and a value that fits in a `long`; anything else is `null`.
   */
  function ParseLong(s: string): (r: Option<int>)
    ensures r.Some? <==> IsDecimal(s) && IsLong(DecimalValue(s))
    ensures r.Some? ==> r.value == DecimalValue(s)
    ensures r.Some? ==> forall i :: 0 <= i < |s| && !(i == 0 && IsSign(s[0])) ==> IsDigit(s[i])
    ensures r.Some? && s[0] != '-' ==> r.value >= 0
  {
    if s == [] then None
    else
      var negative := s[0] == '-';
      var digits := if s[0] == '-' || s[0] == '+' then s[1..] else s;
      if digits == [] || !AllDigits(digits) then None
      else
        var v: int := if negative then 0 - DigitsValue(digits) else DigitsValue(digits);
        if IsLong(v) then Some(v) else None
  }

  /** A character other than a digit, anywhere but in the sign position, makes the parse fail. */
  lemma ParseLongRejectsNonDigit(s: string, i: nat)
    requires i < |s| && !IsDigit(s[i]) && !(i == 0 && IsSign(s[0]))
    ensures ParseLong(s) == None
  {
  }

  /** A leading zero does not change the value of a digit string. */
  lemma {:induction false} DigitsValueLeadingZero(s: string)
    requires AllDigits(s)
    ensures DigitsValue("0" + s) == DigitsValue(s)
  {
    if s != [] {
      DigitsValueLeadingZero(s[..|s| - 1]);
      assert ("0" + s)[..|"0" + s| - 1] == "0" + s[..|s| - 1];
    }
  }

  /** `toLongOrNull` reads "007" as 7: leading zeros are ignored. */
  lemma ParseLongLeadingZero(s: string)
    requires |s| >= 1 && AllDigits(s)
    ensures ParseLong("0" + s) == ParseLong(s)
  {
    DigitsValueLeadingZero(s);
    assert Magnitude("0" + s) == "0" + s;
  }

  /** `toLongOrNull` reads "+5" as 5: a plus sign is accepted and ignored. */
  lemma ParseLongPlusSign(s: string)
    requires |s| >= 1 && AllDigits(s)
    ensures ParseLong("+" + s) == ParseLong(s)
  {
    assert ("+" + s)[1..] == s;
  }

  /** A lone sign is not a number. */
  lemma ParseLongLoneSign()
    ensures ParseLong("-") == None && ParseLong("+") == None && ParseLong("") == None
  {
  }

  /** Every number a `long` can hold survives rendering and parsing. */
  lemma ParseLongOfNatToString(n: nat)
    requires n <= MaxLong
    ensures ParseLong(NatToString(n)) == Some(n)
  {
    DigitsValueOfNatToString(n);
  }

  /** A signed rendering survives parsing too. */
  lemma ParseLongOfNegative(n: nat)
    requires 0 < n && 0 - n >= MinLong
    ensures ParseLong("-" + NatToString(n)) == Some(0 - n)
  {
    DigitsValueOfNatToString(n);
    assert ("-" + NatToString(n))[1..] == NatToString(n);
  }

  /** The ASCII part of `Char.isWhitespace`. */
  predicate IsWhitespace(c: char) {
    c == ' ' || '\t' <= c <= '\r' || '\U{1C}' <= c <= '\U{1F}'
  }

  /** Kotlin `isBlank`: empty or whitespace only. */
  predicate IsBlank(s: string) {
    forall i :: 0 <= i < |s| ==> IsWhitespace(s[i])
  }

  /** Number of leading characters that Java's `trim` strips (code point at most U+0020). */
  function Lead(s: string): (k: nat)
    ensures k <= |s|
    ensures forall i :: 0 <= i < k ==> s[i] <= ' '
    ensures k < |s| ==> s[k] > ' '
  {
    if s == [] || s[0] > ' ' then 0 else 1 + Lead(s[1..])
  }

  /** Number of trailing characters that Java's `trim` strips. */
  function Trail(s: string): (k: nat)
    ensures k <= |s|
    ensures forall i :: |s| - k <= i < |s| ==> s[i] <= ' '
    ensures k < |s| ==> s[|s| - 1 - k] > ' '
  {
    if s == [] || s[|s| - 1] > ' ' then 0 else 1 + Trail(s[..|s| - 1])
  }

  /** Java `String.trim`. */
  function Trim(s: string): string {
    if Lead(s) == |s| then [] else s[Lead(s)..|s| - Trail(s)]
  }

  /**
   * The trimmed string has at least two characters exactly when `s` has two distinct
   * positions holding characters above U+0020.
   */
  lemma TrimLengthAtLeastTwo(s: string)
    ensures |Trim(s)| >= 2 <==> exists i, j :: 0 <= i < j < |s| && s[i] > ' ' && s[j] > ' '
  {
    var a, b := Lead(s), Trail(s);
    if a < |s| {
      assert s[a] > ' ' && s[|s| - 1 - b] > ' ';
      assert a <= |s| - 1 - b;
      if exists i, j :: 0 <= i < j < |s| && s[i] > ' ' && s[j] > ' ' {
        var i, j :| 0 <= i < j < |s| && s[i] > ' ' && s[j] > ' ';
        assert a <= i && j <= |s| - 1 - b;
      }
      if |Trim(s)| >= 2 {
        assert s[a] > ' ' && s[|s| - 1 - b] > ' ' && a < |s| - 1 - b;
      }
    }
  }

  function UpperChar(c: char): char {
    if 'a' <= c <= 'z' then (c as int - 32) as char else c
  }

  function LowerChar(c: char): char {
    if 'A' <= c <= 'Z' then (c as int + 32) as char else c
  }

  /** Kotlin `uppercase()` / Java `toUpperCase()`, on the ASCII letters. */
  function Uppercase(s: string): (r: string)
    ensures |r| == |s|
    ensures forall i :: 0 <= i < |s| ==> !('a' <= r[i] <= 'z')
  {
    seq(|s|, i requires 0 <= i < |s| => UpperChar(s[i]))
  }

  /** Java `toLowerCase()`, on the ASCII letters. */
  function Lowercase(s: string): (r: string)
    ensures |r| == |s|
    ensures forall i :: 0 <= i < |s| ==> !('A' <= r[i] <= 'Z')
  {
    seq(|s|, i requires 0 <= i < |s| => LowerChar(s[i]))
  }

  /** Uppercasing twice is uppercasing once. */
  lemma UppercaseIdempotent(s: string)
    ensures Uppercase(Uppercase(s)) == Uppercase(s)
  {
  }

  /** Uppercasing changes only letters, so a blank string stays blank and a non-blank one stays non-blank. */
  lemma UppercaseKeepsBlank(s: string)
    ensures IsBlank(Uppercase(s)) <==> IsBlank(s)
  {
    if IsBlank(Uppercase(s)) {
      forall i | 0 <= i < |s| ensures IsWhitespace(s[i]) {
        assert IsWhitespace(Uppercase(s)[i]);
      }
    }
  }
}
