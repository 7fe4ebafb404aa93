/**
 * The input validators of the console controller: the e-mail and date shape
 * checks (two regular expressions) and the inclusive range check used by the
 * numeric prompts, with the bounds each prompt passes.
 */
module Validation {
  import opened JavaText
  import opened StudentRecord

  /** Integer.MAX_VALUE, the upper bound of every id prompt. */
  const IntMax := 0x7FFF_FFFF

  const AgeMin := 1
  const AgeMax := 120
  const GpaMin: real := 0.0
  const GpaMax: real := 4.0

  /** The range test of getValidIntInput and getValidDoubleInput: both bounds inclusive. */
  predicate InRange(v: int, min: int, max: int) {
    min <= v <= max
  }

  predicate InRealRange(v: real, min: real, max: real) {
    min <= v <= max
  }

  // ---------------------------------------------------------------------------
  // E-mail: ^[A-Za-z0-9+_.-]+@(.+)$ under String.matches, i.e. the whole string
  // ---------------------------------------------------------------------------

  /** The character class [A-Za-z0-9+_.-] of the local part. */
  predicate IsLocalPartChar(c: char) {
    ('A' <= c <= 'Z') || ('a' <= c <= 'z') || ('0' <= c <= '9')
    || c == '+' || c == '_' || c == '.' || c == '-'
  }

  /** The characters java.util.regex's `.` refuses without the DOTALL flag. */
  predicate IsLineTerminator(c: char) {
    c == '\n' || c == '\r' || c == '\U{0085}' || c == '\U{2028}' || c == '\U{2029}'
  }

  predicate AllLocalPartChars(s: string) {
    forall i :: 0 <= i < |s| ==> IsLocalPartChar(s[i])
  }

  predicate NoLineTerminator(s: string) {
    forall i :: 0 <= i < |s| ==> !IsLineTerminator(s[i])
  }

  /** The length of the longest prefix of s drawn from the local-part class. */
  function LocalPartLength(s: string): (n: nat)
    ensures n <= |s|
    ensures AllLocalPartChars(s[..n])
    ensures n < |s| ==> !IsLocalPartChar(s[n])
  {
    if |s| == 0 || !IsLocalPartChar(s[0]) then 0 else 1 + LocalPartLength(s[1..])
  }

  /**
   * isValidEmail, as a scan: the longest run of local-part characters is not
   * empty, is followed by '@', and at least one character follows the '@',
   * none of them a line terminator.
   */
  predicate IsValidEmail(email: string) {
    var n := LocalPartLength(email);
    0 < n && n + 1 < |email| && email[n] == '@' && NoLineTerminator(email[n + 1..])
  }

  /** The language of the regular expression, split at the '@' the pattern matches. */
  predicate MatchesEmailPattern(email: string) {
    exists k :: 0 < k && k + 1 < |email| && email[k] == '@'
                && AllLocalPartChars(email[..k]) && NoLineTerminator(email[k + 1..])
  }

  /** The scan accepts exactly the strings the regular expression matches. */
  lemma EmailScanMatchesPattern(email: string)
    ensures IsValidEmail(email) <==> MatchesEmailPattern(email)
  {
    var n := LocalPartLength(email);
    if IsValidEmail(email) {
      assert AllLocalPartChars(email[..n]);
    }
    if MatchesEmailPattern(email) {
      var k :| 0 < k && k + 1 < |email| && email[k] == '@'
               && AllLocalPartChars(email[..k]) && NoLineTerminator(email[k + 1..]);
      forall i | 0 <= i < k ensures IsLocalPartChar(email[i]) {
        assert email[..k][i] == email[i];
      }
      forall i | 0 <= i < n ensures IsLocalPartChar(email[i]) {
        assert email[..n][i] == email[i];
      }
      assert n == k;
    }
  }

  /**
   * The '@' the pattern matches is the first '@' of the string, since '@' is
   * not a local-part character; the domain may hold further '@' and need not
   * hold a dot.
   */
  lemma EmailSplitsAtFirstAt(email: string)
    requires IsValidEmail(email)
    ensures var n := LocalPartLength(email);
            email[n] == '@' && forall i :: 0 <= i < n ==> email[i] != '@'
  {
    var n := LocalPartLength(email);
    forall i | 0 <= i < n ensures email[i] != '@' {
      assert email[..n][i] == email[i];
    }
  }

  /** The sample addresses: "a@b", "a@b@c" and "a@b.c" pass; "@b.c", "a@" and "abc" fail. */
  lemma EmailExamples()
    ensures IsValidEmail("a@b") && IsValidEmail("a@b@c") && IsValidEmail("a@b.c")
    ensures !IsValidEmail("@b.c") && !IsValidEmail("a@") && !IsValidEmail("abc")
  {
    assert LocalPartLength("a@b") == 1;
    assert LocalPartLength("a@b@c") == 1;
    assert LocalPartLength("a@b.c") == 1;
    assert LocalPartLength("a@") == 1;
    assert LocalPartLength("abc") == 3;
  }

  // ---------------------------------------------------------------------------
  // Date: ^\d{4}-\d{2}-\d{2}$, where \d is the ASCII digits only
  // ---------------------------------------------------------------------------

  predicate IsAsciiDigit(c: char) {
    '0' <= c <= '9'
  }

  predicate AllDigits(s: string) {
    forall i :: 0 <= i < |s| ==> IsAsciiDigit(s[i])
  }

  /**
   * isValidDate: ten characters, '-' at positions 4 and 7 and an ASCII digit
   * everywhere else. Month and day are not range-checked.
   */
  predicate IsValidDate(date: string) {
    |date| == 10
    && forall i :: 0 <= i < 10 ==> if i == 4 || i == 7 then date[i] == '-' else IsAsciiDigit(date[i])
  }

  /** The date check reads as the regular expression's three digit groups and two dashes. */
  lemma DateGroups(date: string)
    ensures IsValidDate(date) <==>
              |date| == 10 && AllDigits(date[..4]) && date[4] == '-'
              && AllDigits(date[5..7]) && date[7] == '-' && AllDigits(date[8..])
  {
    if |date| == 10 && AllDigits(date[..4]) && AllDigits(date[5..7]) && AllDigits(date[8..]) {
      forall i | 0 <= i < 10 && i != 4 && i != 7 ensures IsAsciiDigit(date[i]) {
        if i < 4 { assert date[..4][i] == date[i]; }
        else if i < 7 { assert date[5..7][i - 5] == date[i]; }
        else { assert date[8..][i - 8] == date[i]; }
      }
    }
  }

  /** Any four, two and two ASCII digits joined by dashes form an accepted date. */
  lemma DateFromGroups(year: string, month: string, day: string)
    requires |year| == 4 && |month| == 2 && |day| == 2
    requires AllDigits(year) && AllDigits(month) && AllDigits(day)
    ensures IsValidDate(year + "-" + month + "-" + day)
  {
    var date := year + "-" + month + "-" + day;
    forall i | 0 <= i < 10 && i != 4 && i != 7 ensures IsAsciiDigit(date[i]) {
      if i < 4 { assert date[i] == year[i]; }
      else if i < 7 { assert date[i] == month[i - 5]; }
      else { assert date[i] == day[i - 8]; }
    }
  }

  /** "2024-01-31" and "2024-13-45" pass; "24-01-31" and "2024/01/31" fail. */
  lemma DateExamples()
    ensures IsValidDate("2024-01-31") && IsValidDate("2024-13-45")
    ensures !IsValidDate("24-01-31") && !IsValidDate("2024/01/31")
  {
    assert "2024/01/31"[4] == '/';
  }

  // ---------------------------------------------------------------------------
  // What the add flow guarantees of a record before it is created
  // ---------------------------------------------------------------------------

  /** A name as the add flow accepts it: a trimmed line that is not empty. */
  predicate IsValidName(name: string) {
    name != "" && Trim(name) == name
  }

  predicate IsValidAge(age: int) {
    InRange(age, AgeMin, AgeMax)
  }

  predicate IsValidGpa(gpa: real) {
    InRealRange(gpa, GpaMin, GpaMax)
  }

  /** Every field that the add flow validates passes its validator. */
  predicate Admissible(v: StudentValue) {
    IsValidName(v.name) && IsValidEmail(v.email) && IsValidAge(v.age)
    && IsValidGpa(v.gpa) && IsValidDate(v.enrollmentDate)
  }

  /** The age bound of the add prompt, 1..120, at its edges: 1 and 120 pass, 0 and 121 fail. */
  lemma AgeExamples()
    ensures IsValidAge(1) && IsValidAge(120) && !IsValidAge(0) && !IsValidAge(121)
  {
  }

  /** The GPA bound of the add prompt, 0.0..4.0, at its edges: 0.0 and 4.0 pass, -0.1 and 4.1 fail. */
  lemma GpaExamples()
    ensures IsValidGpa(0.0) && IsValidGpa(4.0) && !IsValidGpa(-0.1) && !IsValidGpa(4.1)
  {
  }
}
