/**
 * The two `re.fullmatch` decisions of RegularExpressionValidator. Each regex is stated twice:
 * a ghost predicate that follows the shape of the pattern (one existential per split point the
 * regex engine chooses), and a hand-coded compiled predicate that scans the string directly.
 * The lemmas prove the two agree in both directions. Character classes are ASCII, as written.
 */
module Regx {
  import opened Wrappers

  predicate IsAsciiDigit(c: char) { '0' <= c <= '9' }

  predicate IsAsciiLetter(c: char) { 'a' <= c <= 'z' || 'A' <= c <= 'Z' }

  /** [a-zA-Z0-9._%+-] */
  predicate IsLocalChar(c: char)
  {
    IsAsciiLetter(c) || IsAsciiDigit(c) || c == '.' || c == '_' || c == '%' || c == '+' || c == '-'
  }

  /** [a-zA-Z0-9.-] */
  predicate IsDomainChar(c: char)
  {
    IsAsciiLetter(c) || IsAsciiDigit(c) || c == '.' || c == '-'
  }

  /** Every character of `t` belongs to the class `p`. */
  predicate All(t: string, p: char -> bool)
  {
    forall i :: 0 <= i < |t| ==> p(t[i])
  }

  // ---------------------------------------------------------------------------
  // Mobile number: ^\+?[0-9]{10,15}$
  // ---------------------------------------------------------------------------

  /** The pattern, split where the regex splits it: an optional "+" (k = 0 or 1) then 10 to 15 digits. */
  ghost predicate MobilePattern(s: string)
  {
    exists k :: 0 <= k <= 1 && k <= |s| && (k == 1 ==> s[0] == '+')
                && 10 <= |s[k..]| <= 15 && All(s[k..], IsAsciiDigit)
  }

  /** The hand-coded check: drop one leading '+', then the rest must be 10 to 15 ASCII digits. */
  predicate MobileValidator(s: string)
  {
    var digits := if |s| > 0 && s[0] == '+' then s[1..] else s;
    10 <= |digits| <= 15 && All(digits, IsAsciiDigit)
  }

  lemma MobileValidatorSound(s: string)
    requires MobileValidator(s)
    ensures MobilePattern(s)
  {
    var k := if |s| > 0 && s[0] == '+' then 1 else 0;
    assert 0 <= k <= 1 && k <= |s| && (k == 1 ==> s[0] == '+')
           && 10 <= |s[k..]| <= 15 && All(s[k..], IsAsciiDigit);
  }

  lemma MobileValidatorComplete(s: string)
    requires MobilePattern(s)
    ensures MobileValidator(s)
  {
    var k :| 0 <= k <= 1 && k <= |s| && (k == 1 ==> s[0] == '+')
             && 10 <= |s[k..]| <= 15 && All(s[k..], IsAsciiDigit);
    if k == 0 {
      // the optional '+' was not taken, so the first character is a digit, not a '+'
      assert IsAsciiDigit(s[0]);
    }
  }

  /** Accepted numbers have 10 to 15 digits, plus at most one leading '+'. */
  lemma MobileLength(s: string)
    requires MobileValidator(s)
    ensures 10 <= |s| <= 16
    ensures |s| == 16 ==> s[0] == '+'
  {
  }

  /** What an accepted number is made of: digits only, save a '+' at index 0, and at most 15 digits. */
  lemma MobileAcceptedShape(s: string)
    ensures MobilePattern(s) ==>
              (forall i :: 0 <= i < |s| ==> IsAsciiDigit(s[i]) || (i == 0 && s[i] == '+'))
              && DigitCount(s) <= 15
  {
    if MobilePattern(s) {
      MobileValidatorComplete(s);
      if |s| > 0 && s[0] == '+' {
        forall i | 1 <= i < |s|
          ensures IsAsciiDigit(s[i])
        {
          assert s[1..][i - 1] == s[i];
        }
        DigitCountAllDigits(s[1..]);
      } else {
        DigitCountAllDigits(s);
      }
    }
  }

  /** A letter anywhere, or a '+' anywhere but first, makes the number invalid. */
  lemma MobileRejectsStrayCharacter(s: string, i: int)
    requires 0 <= i < |s|
    requires IsAsciiLetter(s[i]) || (s[i] == '+' && i > 0)
    ensures !MobilePattern(s)
  {
    MobileAcceptedShape(s);
  }

  /** Number of ASCII digits in `t`. */
  function DigitCount(t: string): nat
  {
    if t == [] then 0 else (if IsAsciiDigit(t[0]) then 1 else 0) + DigitCount(t[1..])
  }

  lemma {:induction false} DigitCountAllDigits(t: string)
    requires All(t, IsAsciiDigit)
    ensures DigitCount(t) == |t|
  {
    if t != [] {
      DigitCountAllDigits(t[1..]);
    }
  }

  /** More than 15 digits can never be accepted. */
  lemma MobileRejectsTooManyDigits(s: string)
    requires DigitCount(s) > 15
    ensures !MobilePattern(s)
  {
    MobileAcceptedShape(s);
  }

  /** The three calls at the end of the module. */
  lemma MobileExamples()
    ensures MobilePattern("9016568931")
    ensures MobilePattern("+919016568931")
    ensures !MobilePattern("Aefbe543")
  {
    MobileValidatorSound("9016568931");
    MobileValidatorSound("+919016568931");
    MobileRejectsStrayCharacter("Aefbe543", 0);
  }

  // ---------------------------------------------------------------------------
  // Email: ^[a-zA-Z0-9._%+-]+@[a-zA-Z0-9.-]+\.[a-zA-Z]{2,}$
  // ---------------------------------------------------------------------------

  /** The pattern, split at the '@' (index a) and at the literal '.' (index d) the regex matches. */
  ghost predicate EmailPattern(s: string)
  {
    exists a, d :: 0 <= a < d < |s| && EmailSplit(s, a, d)
  }

  /** local part s[..a], '@', domain s[a+1..d], '.', top-level part s[d+1..]. */
  predicate EmailSplit(s: string, a: int, d: int)
    requires 0 <= a < d < |s|
  {
    && s[a] == '@' && s[d] == '.'
    && |s[..a]| >= 1 && All(s[..a], IsLocalChar)
    && |s[a + 1..d]| >= 1 && All(s[a + 1..d], IsDomainChar)
    && |s[d + 1..]| >= 2 && All(s[d + 1..], IsAsciiLetter)
  }

  /** Index of the first occurrence of `c` in `t`. */
  function FirstIndex(t: string, c: char): (r: Option<nat>)
    ensures r.Some? ==> 0 <= r.value < |t| && t[r.value] == c && forall j :: 0 <= j < r.value ==> t[j] != c
    ensures r.None? ==> forall j :: 0 <= j < |t| ==> t[j] != c
  {
    if t == [] then None
    else if t[0] == c then Some(0)
    else match FirstIndex(t[1..], c)
      case None => None
      case Some(i) => Some(i + 1)
  }

  /** Index of the last occurrence of `c` in `t`. */
  function LastIndex(t: string, c: char): (r: Option<nat>)
    ensures r.Some? ==> 0 <= r.value < |t| && t[r.value] == c && forall j :: r.value < j < |t| ==> t[j] != c
    ensures r.None? ==> forall j :: 0 <= j < |t| ==> t[j] != c
  {
    if t == [] then None
    else if t[|t| - 1] == c then Some(|t| - 1)
    else LastIndex(t[..|t| - 1], c)
  }

  /**
   * The hand-coded check, as a reader would describe the regex: exactly one '@'; the part
   * before it non-empty over [A-Za-z0-9._%+-]; after it a '.' whose last occurrence is followed
   * by two or more ASCII letters and preceded by a non-empty run of [A-Za-z0-9.-].
   */
  predicate EmailValidator(s: string)
  {
    match FirstIndex(s, '@')
    case None => false
    case Some(a) =>
      match LastIndex(s, '.')
      case None => false
      case Some(d) => a < d && EmailSplit(s, a, d)
  }

  lemma EmailValidatorSound(s: string)
    requires EmailValidator(s)
    ensures EmailPattern(s)
  {
    var a := FirstIndex(s, '@').value;
    var d := LastIndex(s, '.').value;
    assert EmailSplit(s, a, d);
  }

  lemma EmailValidatorComplete(s: string)
    requires EmailPattern(s)
    ensures EmailValidator(s)
  {
    var a, d :| 0 <= a < d < |s| && EmailSplit(s, a, d);
    // the '@' at a is the first one: the local part holds no '@'
    forall j | 0 <= j < a
      ensures s[j] != '@'
    {
      assert s[..a][j] == s[j];
    }
    assert FirstIndex(s, '@') == Some(a);
    // the '.' at d is the last one: the top-level part holds only letters
    forall j | d < j < |s|
      ensures s[j] != '.'
    {
      assert s[d + 1..][j - d - 1] == s[j];
    }
    assert LastIndex(s, '.') == Some(d);
  }

  /** An accepted email holds exactly one '@'. */
  lemma EmailSingleAt(s: string)
    requires EmailValidator(s)
    ensures exists a :: 0 <= a < |s| && s[a] == '@'
    ensures forall i, j :: 0 <= i < |s| && 0 <= j < |s| && s[i] == '@' && s[j] == '@' ==> i == j
  {
    var a := FirstIndex(s, '@').value;
    var d := LastIndex(s, '.').value;
    forall i | 0 <= i < |s| && i != a
      ensures s[i] != '@'
    {
      if a < i < d {
        assert s[a + 1..d][i - a - 1] == s[i];
      } else if i > d {
        assert s[d + 1..][i - d - 1] == s[i];
      }
    }
  }

  /** The two calls at the end of the module. */
  lemma EmailExamples()
    ensures EmailPattern("DeepTapodhan@gmail.com")
    ensures !EmailPattern("DeepTapodhan@gmaiom")
  {
    var good := "DeepTapodhan@gmail.com";
    assert good[..12] == "DeepTapodhan" && good[13..18] == "gmail" && good[19..] == "com";
    assert EmailSplit(good, 12, 18);
    var bad := "DeepTapodhan@gmaiom";
    assert forall i :: 0 <= i < |bad| ==> bad[i] != '.';
  }
}
