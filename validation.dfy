/**
 * The input validators of the legacy Java client (ValidationUtils.java). A Java string
 * that may be null is an `Option<string>`; `TextUtils.isEmpty` is true for null and "".
 */
module Validation {
  import opened Wrappers
  import opened Text

  /** `TextUtils.isEmpty`. */
  predicate IsEmpty(s: Option<string>) {
    s.None? || s.value == ""
  }

  const MinPasswordLength: nat := 6
  const StrongPasswordLength: nat := 8
  /** The accepted temperature setpoints, in degrees Celsius, from `Constants.java`. */
  const TempMin: real := 30.0
  const TempMax: real := 60.0

  /** `isValidPassword`: present and at least six characters. */
  function IsValidPassword(password: Option<string>): (ok: bool)
    ensures ok <==> password.Some? && |password.value| >= MinPasswordLength
  {
    !IsEmpty(password) && |password.value| >= MinPasswordLength
  }

  /** `password.equals(password.toLowerCase())` is false: some character changes when lowercased. */
  predicate HasUpperCase(p: string) {
    p != Lowercase(p)
  }

  /** `password.equals(password.toUpperCase())` is false. */
  predicate HasLowerCase(p: string) {
    p != Uppercase(p)
  }

  /** Java's regex `.` matches any character except a line terminator. */
  predicate IsLineTerminator(c: char) {
    c == '\n' || c == '\r' || c == '\U{85}' || c == '\U{2028}' || c == '\U{2029}'
  }

  /**
   * `matches(".*\\d.*")`: the whole string must match, and neither `.*` can cross a line
   * terminator, so the string holds a digit and no line terminator at all.
   */
  predicate MatchesDigitPattern(p: string) {
    (exists i :: 0 <= i < |p| && IsDigit(p[i])) && forall i :: 0 <= i < |p| ==> !IsLineTerminator(p[i])
  }

  /** Lowercasing changes a string exactly when it holds an upper-case letter. */
  lemma HasUpperCaseMeansUpperLetter(p: string)
    ensures HasUpperCase(p) <==> exists i :: 0 <= i < |p| && 'A' <= p[i] <= 'Z'
  {
    if exists i :: 0 <= i < |p| && 'A' <= p[i] <= 'Z' {
      var i :| 0 <= i < |p| && 'A' <= p[i] <= 'Z';
      assert Lowercase(p)[i] != p[i];
    } else {
      assert forall i :: 0 <= i < |p| ==> Lowercase(p)[i] == p[i];
      assert Lowercase(p) == p;
    }
  }

  /** Uppercasing changes a string exactly when it holds a lower-case letter. */
  lemma HasLowerCaseMeansLowerLetter(p: string)
    ensures HasLowerCase(p) <==> exists i :: 0 <= i < |p| && 'a' <= p[i] <= 'z'
  {
    if exists i :: 0 <= i < |p| && 'a' <= p[i] <= 'z' {
      var i :| 0 <= i < |p| && 'a' <= p[i] <= 'z';
      assert Uppercase(p)[i] != p[i];
    } else {
      assert forall i :: 0 <= i < |p| ==> Uppercase(p)[i] == p[i];
      assert Uppercase(p) == p;
    }
  }

  /** `isStrongPassword`. */
  function IsStrongPassword(password: Option<string>): (ok: bool)
    ensures ok ==> IsValidPassword(password) && |password.value| >= StrongPasswordLength
  {
    if IsEmpty(password) || |password.value| < StrongPasswordLength then false
    else
      var p := password.value;
      HasUpperCase(p) && HasLowerCase(p) && MatchesDigitPattern(p)
  }

  /** A strong password is one of at least eight characters with an upper-case letter, a lower-case letter and a digit, on one line. */
  lemma StrongPasswordMeaning(p: string)
    ensures IsStrongPassword(Some(p)) <==>
      |p| >= StrongPasswordLength &&
      (exists i :: 0 <= i < |p| && 'A' <= p[i] <= 'Z') &&
      (exists i :: 0 <= i < |p| && 'a' <= p[i] <= 'z') &&
      (exists i :: 0 <= i < |p| && IsDigit(p[i])) &&
      (forall i :: 0 <= i < |p| ==> !IsLineTerminator(p[i]))
  {
    HasUpperCaseMeansUpperLetter(p);
    HasLowerCaseMeansLowerLetter(p);
  }

  /** A digit on a second line does not count: this nine-character password is not strong. */
  lemma DigitAfterLineBreakNotStrong()
    ensures !IsStrongPassword(Some("Abcdefg\n1"))
  {
    assert IsLineTerminator("Abcdefg\n1"[7]);
  }

  /** `isValidName`: present and at least two characters once trimmed. */
  function IsValidName(name: Option<string>): (ok: bool)
    ensures ok ==> name.Some? && |name.value| >= 2
  {
    !IsEmpty(name) && |Trim(name.value)| >= 2
  }

  /** A name is valid exactly when two of its characters lie above U+0020. */
  lemma ValidNameMeaning(name: string)
    ensures IsValidName(Some(name)) <==> exists i, j :: 0 <= i < j < |name| && name[i] > ' ' && name[j] > ' '
  {
    TrimLengthAtLeastTwo(name);
  }

  /** `isValidPairingCode`: exactly six ASCII digits (`\d` without UNICODE_CHARACTER_CLASS). */
  function IsValidPairingCode(code: Option<string>): (ok: bool)
    ensures ok <==> code.Some? && |code.value| == 6 && AllDigits(code.value)
  {
    !IsEmpty(code) && |code.value| == 6 && AllDigits(code.value)
  }

  /** `isValidTemperature`: inclusive at both bounds. */
  function IsValidTemperature(temp: real): (ok: bool)
    ensures ok <==> TempMin <= temp <= TempMax
  {
    TempMin <= temp && temp <= TempMax
  }

  /** Both bounds are accepted; anything just outside them is not. */
  lemma TemperatureBoundsInclusive(temp: real)
    ensures IsValidTemperature(30.0) && IsValidTemperature(60.0)
    ensures temp < 30.0 || temp > 60.0 ==> !IsValidTemperature(temp)
  {
  }

  /** `getPasswordStrength`. */
  function PasswordStrength(password: Option<string>): (r: string)
    ensures r in {"Empty", "Too Short", "Weak", "Strong", "Medium"}
    ensures r == "Empty" <==> IsEmpty(password)
    ensures r == "Too Short" <==> !IsEmpty(password) && |password.value| < MinPasswordLength
    ensures r == "Weak" <==> !IsEmpty(password) && MinPasswordLength <= |password.value| < StrongPasswordLength
    ensures r == "Strong" <==> IsStrongPassword(password)
    ensures r == "Medium" <==> IsValidPassword(password) && |password.value| >= StrongPasswordLength && !IsStrongPassword(password)
  {
    if IsEmpty(password) then "Empty"
    else if |password.value| < MinPasswordLength then "Too Short"
    else if |password.value| < StrongPasswordLength then "Weak"
    else if IsStrongPassword(password) then "Strong"
    else "Medium"
  }

  /** Every password the strength meter rates above "Too Short" passes `isValidPassword`, and no other does. */
  lemma StrengthAgreesWithValidity(password: Option<string>)
    ensures IsValidPassword(password) <==> PasswordStrength(password) in {"Weak", "Strong", "Medium"}
  {
  }
}
