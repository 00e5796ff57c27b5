/**
 * `EmailAndPasswordValidation`: the two format checks used at
 * registration.  Each is stated twice: once as what its regular expression
 * matches, with .NET's rule that `$` also matches just before a final
 * line feed, and once as the check the model computes; the contracts
 * connect the two.
 */
module Validation {
  import opened Wrappers
  import opened Text

  predicate IsAsciiUpper(c: char) { 'A' <= c <= 'Z' }

  /** `\d`, on the ASCII digits. */
  predicate IsDigit(c: char) { '0' <= c <= '9' }

  /** `\w`, on ASCII: letters, digits and the underscore. */
  predicate IsWordChar(c: char) {
    ('a' <= c <= 'z') || ('A' <= c <= 'Z') || IsDigit(c) || c == '_'
  }

  /** `[\W_]`: a non-word character or an underscore. */
  predicate IsSpecial(c: char) { !IsWordChar(c) || c == '_' }

  // ---------------------------------------------------------------------
  // What the patterns match

  /** `[^@\s]+` without the length: no '@' and no white space. */
  ghost predicate EmailPart(p: string) {
    forall k :: 0 <= k < |p| ==> p[k] != '@' && !IsWhiteSpace(p[k])
  }

  /**
   * A match of `[^@\s]+@[^@\s]+\.[^@\s]+` that puts the '@' at `i` and the
   * literal '.' at `j`.
   */
  ghost predicate SplitAt(c: string, i: int, j: int) {
    0 < i && i + 1 < j && j + 1 < |c| && c[i] == '@' && c[j] == '.'
    && EmailPart(c[..i]) && EmailPart(c[i + 1..j]) && EmailPart(c[j + 1..])
  }

  /** `[^@\s]+@[^@\s]+\.[^@\s]+` matches the whole of `c`. */
  ghost predicate EmailPatternWhole(c: string) {
    exists i, j :: SplitAt(c, i, j)
  }

  /** `^...$`: the whole text, or the text before a final line feed. */
  ghost predicate EmailRegexMatches(s: string) {
    EmailPatternWhole(s) || (|s| > 0 && s[|s| - 1] == '\n' && EmailPatternWhole(s[..|s| - 1]))
  }

  /**
   * The look-ahead `(?=.*X)` at the start of the text: some character of
   * class `p` with no line feed before it, since `.` never matches a line
   * feed.  The character found may itself be a line feed when `p` admits
   * one, as `[\W_]` does.
   */
  ghost predicate LookAheadFinds(s: string, p: char -> bool) {
    exists k :: 0 <= k < |s| && p(s[k]) && forall m :: 0 <= m < k ==> s[m] != '\n'
  }

  /**
   * `.{8,16}$` at the start of the text consumes `n` characters other than
   * a line feed, after which comes the end or a final line feed.
   */
  ghost predicate ConsumedAt(s: string, n: int) {
    && 8 <= n <= 16
    && n <= |s|
    && (forall m :: 0 <= m < n ==> s[m] != '\n')
    && (n == |s| || (n == |s| - 1 && s[n] == '\n'))
  }

  /** `^(?=.*[A-Z])(?=.*\d)(?=.*[\W_]).{8,16}$` matches `s`. */
  ghost predicate PasswordRegexMatches(s: string) {
    && LookAheadFinds(s, IsAsciiUpper)
    && LookAheadFinds(s, IsDigit)
    && LookAheadFinds(s, IsSpecial)
    && exists n :: ConsumedAt(s, n)
  }

  // ---------------------------------------------------------------------
  // The checks

  /** The text an anchored pattern must cover: one final line feed may be left over. */
  function MatchSubject(s: string): (t: string)
    ensures t == s || s == t + "\n"
  {
    if |s| > 0 && s[|s| - 1] == '\n' then s[..|s| - 1] else s
  }

  /** Index of the first '@', or the length when there is none. */
  function FirstAt(c: string): (i: nat)
    ensures i <= |c|
    ensures i < |c| ==> c[i] == '@'
    ensures forall k :: 0 <= k < i ==> c[k] != '@'
  {
    if |c| == 0 then 0
    else if c[0] == '@' then 0
    else 1 + FirstAt(c[1..])
  }

  predicate NoWhiteSpace(c: string) {
    forall k :: 0 <= k < |c| ==> !IsWhiteSpace(c[k])
  }

  /** A '.' with at least one character before and after it. */
  predicate HasInnerDot(r: string) {
    |r| >= 3 && '.' in r[1..|r| - 1]
  }

  /** One '@' not in front, no white space, and a '.' inside the domain. */
  predicate EmailShape(c: string) {
    var i := FirstAt(c);
    0 < i < |c| && '@' !in c[i + 1..] && NoWhiteSpace(c) && HasInnerDot(c[i + 1..])
  }

  lemma FirstAtIs(c: string, i: nat)
    requires i < |c| && c[i] == '@' && forall k :: 0 <= k < i ==> c[k] != '@'
    ensures FirstAt(c) == i
  {
  }

  lemma ShapeGivesPattern(c: string)
    requires EmailShape(c)
    ensures EmailPatternWhole(c)
  {
    var i := FirstAt(c);
    var r := c[i + 1..];
    var inner := r[1..|r| - 1];
    var m :| 0 <= m < |inner| && inner[m] == '.';
    var j := i + 2 + m;
    var first, mid, last := c[..i], c[i + 1..j], c[j + 1..];
    assert EmailPart(first);
    assert EmailPart(mid) by {
      forall k | 0 <= k < |mid| ensures mid[k] == r[k] { }
    }
    assert EmailPart(last) by {
      forall k | 0 <= k < |last| ensures last[k] == r[m + 2 + k] { }
    }
    assert SplitAt(c, i, j);
  }

  lemma SplitHasNoWhiteSpace(c: string, i: int, j: int)
    requires SplitAt(c, i, j)
    ensures NoWhiteSpace(c)
  {
    var first, mid, last := c[..i], c[i + 1..j], c[j + 1..];
    forall k | 0 <= k < |c| ensures !IsWhiteSpace(c[k]) {
      if k < i {
        assert c[k] == first[k];
      } else if i < k < j {
        assert c[k] == mid[k - i - 1];
      } else if k > j {
        assert c[k] == last[k - j - 1];
      }
    }
  }

  lemma SplitDomainHasNoAt(c: string, i: int, j: int)
    requires SplitAt(c, i, j)
    ensures '@' !in c[i + 1..]
  {
    var mid, last := c[i + 1..j], c[j + 1..];
    var r := c[i + 1..];
    forall k | 0 <= k < |r| ensures r[k] != '@' {
      if k < j - i - 1 {
        assert r[k] == mid[k];
      } else if k > j - i - 1 {
        assert r[k] == last[k - (j - i)];
      }
    }
  }

  lemma PatternGivesShape(c: string)
    requires EmailPatternWhole(c)
    ensures EmailShape(c)
  {
    var i, j :| SplitAt(c, i, j);
    var first := c[..i];
    assert forall k :: 0 <= k < i ==> c[k] == first[k];
    FirstAtIs(c, i);
    SplitHasNoWhiteSpace(c, i, j);
    SplitDomainHasNoAt(c, i, j);
    var r := c[i + 1..];
    assert r[1..|r| - 1][j - i - 2] == '.';
  }

  /** The computed shape is exactly the set of texts the pattern matches whole. */
  lemma EmailShapeMatchesPattern(c: string)
    ensures EmailShape(c) <==> EmailPatternWhole(c)
  {
    if EmailShape(c) {
      ShapeGivesPattern(c);
    }
    if EmailPatternWhole(c) {
      PatternGivesShape(c);
    }
  }

  /**
   * `IsValidEmail`: false for null or "", otherwise whether the pattern
   * `^[^@\s]+@[^@\s]+\.[^@\s]+$` matches.
   */
  function IsValidEmail(email: Option<string>): (valid: bool)
    ensures valid <==> email.Some? && EmailRegexMatches(email.value)
  {
    match email
    case None => false
    case Some(s) =>
      EmailShapeMatchesPattern(s);
      EmailShapeMatchesPattern(MatchSubject(s));
      s != "" && EmailShape(MatchSubject(s))
  }

  /** Whether some character of `t` is in the class `p`. */
  predicate Contains(t: string, p: char -> bool) {
    exists k :: 0 <= k < |t| && p(t[k])
  }

  /**
   * The line a password must fill, between 8 and 16 characters with an
   * upper-case letter and a digit; the special character may be the final
   * line feed that `$` leaves over.
   */
  predicate PasswordShape(s: string) {
    var t := MatchSubject(s);
    && s != ""
    && '\n' !in t
    && 8 <= |t| <= 16
    && Contains(t, IsAsciiUpper)
    && Contains(t, IsDigit)
    && (Contains(t, IsSpecial) || s == t + "\n")
  }

  /** Within one line, a look-ahead finds what the line contains, or the final line feed. */
  lemma LookAheadWithinLine(s: string, t: string, p: char -> bool)
    requires s == t || s == t + "\n"
    requires '\n' !in t
    ensures LookAheadFinds(s, p) <==> Contains(t, p) || (s == t + "\n" && p('\n'))
  {
    if LookAheadFinds(s, p) {
      var k :| 0 <= k < |s| && p(s[k]) && forall m :: 0 <= m < k ==> s[m] != '\n';
      if k < |t| {
        assert p(t[k]);
      }
    }
    if Contains(t, p) {
      var k :| 0 <= k < |t| && p(t[k]);
      assert s[k] == t[k];
      assert forall m :: 0 <= m < k ==> s[m] == t[m];
    }
    if s == t + "\n" && p('\n') {
      assert s[|t|] == '\n';
      assert forall m :: 0 <= m < |t| ==> s[m] == t[m];
    }
  }

  lemma {:induction false} PasswordShapeMatchesPattern(s: string)
    ensures PasswordShape(s) <==> PasswordRegexMatches(s)
  {
    var t := MatchSubject(s);
    if PasswordShape(s) {
      LookAheadWithinLine(s, t, IsAsciiUpper);
      LookAheadWithinLine(s, t, IsDigit);
      LookAheadWithinLine(s, t, IsSpecial);
      assert forall m :: 0 <= m < |t| ==> s[m] == t[m];
      assert ConsumedAt(s, |t|);
    }
    if PasswordRegexMatches(s) {
      var n :| ConsumedAt(s, n);
      assert t == s[..n];
      assert '\n' !in t;
      LookAheadWithinLine(s, t, IsAsciiUpper);
      LookAheadWithinLine(s, t, IsDigit);
      LookAheadWithinLine(s, t, IsSpecial);
    }
  }

  /**
   * `IsValidPassword`: false for null or "", otherwise whether the pattern
   * `^(?=.*[A-Z])(?=.*\d)(?=.*[\W_]).{8,16}$` matches.
   */
  function IsValidPassword(password: Option<string>): (valid: bool)
    ensures valid <==> password.Some? && PasswordRegexMatches(password.value)
  {
    match password
    case None => false
    case Some(s) =>
      PasswordShapeMatchesPattern(s);
      PasswordShape(s)
  }

  // ---------------------------------------------------------------------
  // Properties

  /** The null and empty guards reject exactly what the patterns reject anyway. */
  lemma EmptyNeverMatches()
    ensures !IsValidEmail(None) && !IsValidEmail(Some(""))
    ensures !IsValidPassword(None) && !IsValidPassword(Some(""))
    ensures !EmailRegexMatches("") && !PasswordRegexMatches("")
  {
    assert !EmailPatternWhole("");
  }

  lemma EmailAccepted()
    ensures IsValidEmail(Some("a@b.c"))
    ensures IsValidEmail(Some("a@b.c\n"))
  {
    var c := "a@b.c";
    assert FirstAt(c) == 1;
    assert c[2..][1..2] == ".";
    assert EmailShape(c);
    assert "a@b.c\n"[..5] == c;
  }

  lemma EmailWithoutDotRejected()
    ensures !IsValidEmail(Some("a@b"))
  {
    assert FirstAt("a@b") == 1;
  }

  lemma EmailEmptyDomainLabelRejected()
    ensures !IsValidEmail(Some("a@.c"))
  {
    assert FirstAt("a@.c") == 1;
    assert "a@.c"[2..] == ".c";
  }

  lemma EmailWithSpaceRejected()
    ensures !IsValidEmail(Some("a b@c.d"))
  {
    assert IsWhiteSpace("a b@c.d"[1]);
  }

  lemma EmailWithTwoAtsRejected()
    ensures !IsValidEmail(Some("a@@b.c"))
  {
    assert FirstAt("a@@b.c") == 1;
    assert "a@@b.c"[2..][0] == '@';
  }

  /** A length of 7, or of 17 without a final line feed, is refused whatever the characters. */
  lemma PasswordLengthBounds(s: string)
    requires |s| == 7 || (|s| == 17 && s[16] != '\n')
    ensures !IsValidPassword(Some(s))
  {
  }

  lemma PasswordAccepted()
    ensures IsValidPassword(Some("Password1!"))
  {
    var p := "Password1!";
    assert IsAsciiUpper(p[0]) && IsDigit(p[8]) && IsSpecial(p[9]);
  }

  lemma PasswordWithoutSpecialRejected()
    ensures !IsValidPassword(Some("Password1"))
  {
    var q := "Password1";
    assert forall k :: 0 <= k < |q| ==> !IsSpecial(q[k]);
  }

  /** A final line feed is a non-word character, so it meets `(?=.*[\W_])`. */
  lemma PasswordFinalLineFeedCountsAsSpecial()
    ensures IsValidPassword(Some("Password1\n"))
    ensures !IsValidPassword(Some("Password1"))
  {
    var r := "Password1\n";
    var t := r[..9];
    assert MatchSubject(r) == t;
    assert IsAsciiUpper(t[0]) && IsDigit(t[8]);
    PasswordWithoutSpecialRejected();
  }

  /** Seventeen characters pass when the last is a line feed, which `$` leaves over. */
  lemma PasswordFinalLineFeedAccepted()
    ensures IsValidPassword(Some("Password12345!ab\n"))
  {
    var r := "Password12345!ab\n";
    var t := r[..16];
    assert MatchSubject(r) == t;
    assert t == "Password12345!ab";
    assert IsAsciiUpper(t[0]) && IsDigit(t[8]) && IsSpecial(t[13]);
    assert Contains(t, IsAsciiUpper) && Contains(t, IsDigit) && Contains(t, IsSpecial);
    assert PasswordShape(r);
  }
}
