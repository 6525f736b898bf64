/**
 * The application's phone number field: at most 14 characters, not blank,
 * defaulting to "(999) 999-9999", and checked against the pattern
 * `^\(\d{3}\)\s\d{3}-\d{4}`. The pattern is searched for, anchored at the
 * start only, so it says nothing about what follows the fourteenth
 * character; the length limit is what rules out anything longer.
 */
module PhoneNumber {
  import opened Common

  /** One position of the pattern: a literal, a digit, or a whitespace character. */
  datatype CharClass = Lit(c: char) | Digit | Space

  /** `\(\d{3}\)\s\d{3}-\d{4}` written out position by position. */
  const Pattern: seq<CharClass> := [
    Lit('('), Digit, Digit, Digit, Lit(')'), Space,
    Digit, Digit, Digit, Lit('-'), Digit, Digit, Digit, Digit]

  const MaxLength := 14
  const DefaultPhone := "(999) 999-9999"

  /** The characters Python's `\s` matches in a text pattern. */
  predicate IsSpace(c: char)
  {
    var n := c as int;
    || 0x09 <= n <= 0x0D
    || 0x1C <= n <= 0x20
    || n == 0x85 || n == 0xA0 || n == 0x1680
    || 0x2000 <= n <= 0x200A
    || n == 0x2028 || n == 0x2029 || n == 0x202F || n == 0x205F || n == 0x3000
  }

  predicate Accepts(k: CharClass, c: char)
  {
    match k
    case Lit(l) => c == l
    case Digit => IsDigit(c)
    case Space => IsSpace(c)
  }

  /** The pattern `p` matches a prefix of `s`. */
  function MatchesPrefix(p: seq<CharClass>, s: string): bool
    decreases |p|
  {
    p == [] || (s != [] && Accepts(p[0], s[0]) && MatchesPrefix(p[1..], s[1..]))
  }

  /** A pattern matches a prefix exactly when each position accepts the character there. */
  lemma {:induction false} MatchesPrefixPointwise(p: seq<CharClass>, s: string)
    ensures MatchesPrefix(p, s) <==> |s| >= |p| && forall i :: 0 <= i < |p| ==> Accepts(p[i], s[i])
    decreases |p|
  {
    if p != [] && s != [] {
      MatchesPrefixPointwise(p[1..], s[1..]);
      if |s| >= |p| && forall i :: 0 <= i < |p| ==> Accepts(p[i], s[i]) {
        assert forall i :: 0 <= i < |p[1..]| ==> p[1..][i] == p[i + 1] && s[1..][i] == s[i + 1];
      }
      if MatchesPrefix(p, s) {
        forall i | 0 <= i < |p| ensures Accepts(p[i], s[i]) {
          if i > 0 {
            assert p[1..][i - 1] == p[i] && s[1..][i - 1] == s[i];
          }
        }
      }
    }
  }

  /** What the pattern validator accepts: the pattern found at the start of the text. */
  predicate PatternFound(s: string)
  {
    MatchesPrefix(Pattern, s)
  }

  /** The errors the field reports. */
  datatype PhoneError = Blank | WrongFormat | TooLong

  /**
   * Cleaning the field: a blank value stops at the required check; otherwise
   * the field's validators run in their list order, the pattern validator
   * given to the field first and the length validator the field adds after
   * it, and each failing one adds its error.
   */
  function PhoneErrors(s: string): (errors: seq<PhoneError>)
    ensures s == "" ==> errors == [Blank]
    ensures s != "" ==> Blank !in errors
    ensures s != "" ==> (TooLong in errors <==> |s| > MaxLength) && (WrongFormat in errors <==> !PatternFound(s))
    ensures |errors| <= 2
    ensures |errors| == 2 ==> errors == [WrongFormat, TooLong]
  {
    if s == "" then [Blank]
    else (if PatternFound(s) then [] else [WrongFormat]) + (if |s| > MaxLength then [TooLong] else [])
  }

  predicate IsValidPhone(s: string)
  {
    PhoneErrors(s) == []
  }

  /**
   * The pattern's positions spelled out: an opening parenthesis, three
   * digits, a closing parenthesis, a whitespace character, three digits, a
   * dash and four digits.
   */
  predicate Shaped(s: string)
  {
    && |s| >= 14
    && s[0] == '(' && s[4] == ')' && IsSpace(s[5]) && s[9] == '-'
    && IsDigit(s[1]) && IsDigit(s[2]) && IsDigit(s[3])
    && IsDigit(s[6]) && IsDigit(s[7]) && IsDigit(s[8])
    && IsDigit(s[10]) && IsDigit(s[11]) && IsDigit(s[12]) && IsDigit(s[13])
  }

  /** The pattern is found at the start of a text exactly when its first fourteen characters have that shape. */
  lemma PatternFoundShaped(s: string)
    ensures PatternFound(s) <==> Shaped(s)
  {
    MatchesPrefixPointwise(Pattern, s);
    if |s| >= 14 {
      var shaped := Accepts(Pattern[0], s[0]) && Accepts(Pattern[1], s[1]) && Accepts(Pattern[2], s[2])
        && Accepts(Pattern[3], s[3]) && Accepts(Pattern[4], s[4]) && Accepts(Pattern[5], s[5])
        && Accepts(Pattern[6], s[6]) && Accepts(Pattern[7], s[7]) && Accepts(Pattern[8], s[8])
        && Accepts(Pattern[9], s[9]) && Accepts(Pattern[10], s[10]) && Accepts(Pattern[11], s[11])
        && Accepts(Pattern[12], s[12]) && Accepts(Pattern[13], s[13]);
      assert shaped <==> Shaped(s);
      if shaped {
        forall i | 0 <= i < |Pattern| ensures Accepts(Pattern[i], s[i]) {
          if i < 7 {
            assert i == 0 || i == 1 || i == 2 || i == 3 || i == 4 || i == 5 || i == 6;
          } else {
            assert i == 7 || i == 8 || i == 9 || i == 10 || i == 11 || i == 12 || i == 13;
          }
        }
      }
    }
  }

  /** A valid phone number is exactly fourteen characters of that shape. */
  lemma ValidPhoneShape(s: string)
    ensures IsValidPhone(s) <==> |s| == MaxLength && Shaped(s)
  {
    PatternFoundShaped(s);
  }

  /** The default value passes the field's own checks. */
  lemma DefaultIsValid()
    ensures IsValidPhone(DefaultPhone)
  {
    var s := DefaultPhone;
    assert |s| == 14 && s[0] == '(' && s[4] == ')' && s[5] == ' ' && s[9] == '-';
    assert s[1] == s[2] == s[3] == s[6] == s[7] == s[8] == s[10] == s[11] == s[12] == s[13] == '9';
    ValidPhoneShape(s);
  }

  /** The pattern alone lets a longer number through; only the length check refuses it. */
  lemma LongerNumberFindsPattern()
    ensures PatternFound("(706) 542-31234")
    ensures PhoneErrors("(706) 542-31234") == [TooLong]
  {
    var s := "(706) 542-31234";
    assert |s| == 15 && s[0] == '(' && s[4] == ')' && s[5] == ' ' && s[9] == '-';
    assert s[1] == '7' && s[2] == '0' && s[3] == '6' && s[6] == '5' && s[7] == '4' && s[8] == '2';
    assert s[10] == '3' && s[11] == '1' && s[12] == '2' && s[13] == '3';
    PatternFoundShaped(s);
    assert PhoneErrors(s) == [TooLong] + [];
  }

  /** Any whitespace character separates the area code, a tab included. */
  lemma TabSeparatorIsValid()
    ensures IsValidPhone("(706)\t542-3123")
  {
    var s := "(706)\t542-3123";
    assert |s| == 14 && s[0] == '(' && s[4] == ')' && s[5] == '\t' && s[9] == '-';
    assert s[1] == '7' && s[2] == '0' && s[3] == '6' && s[6] == '5' && s[7] == '4' && s[8] == '2';
    assert s[10] == '3' && s[11] == '1' && s[12] == '2' && s[13] == '3';
    ValidPhoneShape(s);
  }

  /** Dashes instead of the parentheses do not fit the pattern. */
  lemma DashedNumberIsRefused()
    ensures PhoneErrors("706-542-3123") == [WrongFormat]
  {
    var s := "706-542-3123";
    assert |s| == 12 && s[0] == '7';
    PatternFoundShaped(s);
  }

  /** A value too long and in the wrong format reports the format first, then the length. */
  lemma LongMalformedReportsBoth()
    ensures PhoneErrors("123456789012345") == [WrongFormat, TooLong]
  {
    var s := "123456789012345";
    assert |s| == 15 && s[0] == '1';
    PatternFoundShaped(s);
    assert PhoneErrors(s) == [WrongFormat] + [TooLong];
  }
}
