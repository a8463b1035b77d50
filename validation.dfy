/**
 * The two input validators of registration: the password policy and the
 * e-mail pattern `^[a-zA-Z0-9._%+-]+@[a-zA-Z0-9.-]+\.[a-zA-Z]{2,}$`.
 */
module Validation {
  import opened Records
  import opened Text
  import opened Find

  // ---------------------------------------------------------------------
  // Password policy
  // ---------------------------------------------------------------------

  /**
   * `validate_password`: at least 8 characters, then one `re.search` per
   * character class; the first check that fails rejects the password.
   */
  function ValidPassword(password: string): (ok: bool)
    ensures ok <==>
      && |password| >= 8
      && (exists i :: 0 <= i < |password| && IsUpper(password[i]))
      && (exists i :: 0 <= i < |password| && IsLower(password[i]))
      && (exists i :: 0 <= i < |password| && IsDigit(password[i]))
      && (exists i :: 0 <= i < |password| && IsSpecial(password[i]))
  {
    if |password| < 8 then false
    else if !Search(password, IsUpper) then false
    else if !Search(password, IsLower) then false
    else if !Search(password, IsDigit) then false
    else if !Search(password, IsSpecial) then false
    else true
  }

  /** The policy's own examples: one accepted password and two rejected ones. */
  lemma PasswordExamples()
    ensures ValidPassword("Passw0rd!")
    ensures !ValidPassword("password")
    ensures !ValidPassword("Short1!")
  {
    var good := "Passw0rd!";
    assert IsUpper(good[0]) && IsLower(good[1]) && IsDigit(good[5]) && IsSpecial(good[8]);
    var lower := "password";
    assert forall i :: 0 <= i < |lower| ==> !IsUpper(lower[i]);
  }

  // ---------------------------------------------------------------------
  // E-mail pattern
  // ---------------------------------------------------------------------

  /** `[a-zA-Z0-9._%+-]`, the characters of the local part. */
  predicate IsLocalChar(c: char) {
    IsLetter(c) || IsDigit(c) || c == '.' || c == '_' || c == '%' || c == '+' || c == '-'
  }

  /** `[a-zA-Z0-9.-]`, the characters of the domain before the last dot. */
  predicate IsDomainChar(c: char) {
    IsLetter(c) || IsDigit(c) || c == '.' || c == '-'
  }

  predicate All(s: string, inClass: char -> bool) {
    forall i :: 0 <= i < |s| ==> inClass(s[i])
  }

  /**
   * One way for the pattern to match `s`: the `@` stands at `at`, the `\.`
   * at `dot`, with a non-empty local part before `at`, a non-empty domain
   * between them and at least two letters after `dot` up to the end.
   */
  predicate EmailSplit(s: string, at: int, dot: int) {
    && 1 <= at && at + 1 < dot && dot + 3 <= |s|
    && s[at] == '@' && s[dot] == '.'
    && All(s[..at], IsLocalChar)
    && All(s[at + 1..dot], IsDomainChar)
    && All(s[dot + 1..], IsLetter)
  }

  /** The regular expression, read as "some split of `s` fits it". */
  ghost predicate MatchesEmailPattern(s: string) {
    exists at, dot :: EmailSplit(s, at, dot)
  }

  predicate IsAt(c: char) { c == '@' }

  /** The last position of `c` in `s`. */
  function LastIndexOf(s: string, c: char): (r: Option<nat>)
    ensures r.Some? ==> r.value < |s| && s[r.value] == c
    ensures r.Some? ==> forall j :: r.value < j < |s| ==> s[j] != c
    ensures r.None? ==> forall j :: 0 <= j < |s| ==> s[j] != c
  {
    if s == [] then None
    else if s[|s| - 1] == c then Some(|s| - 1)
    else
      var r := LastIndexOf(s[..|s| - 1], c);
      assert forall j :: 0 <= j < |s| - 1 ==> s[j] == s[..|s| - 1][j];
      r
  }

  /**
   * `validate_email`. The local part cannot hold an `@` and the letters after
   * the `\.` cannot hold a `.`, so the only split worth trying puts the `@` at
   * its first occurrence and the `\.` at the last dot of the address.
   */
  function ValidEmail(email: string): bool {
    match FindFirst(email, IsAt)
    case None => false
    case Some(at) =>
      match LastIndexOf(email, '.')
      case None => false
      case Some(dot) => EmailSplit(email, at, dot)
  }

  /** Any split that fits the pattern is the one `ValidEmail` tries. */
  lemma {:induction false} SplitIsFirstAtLastDot(s: string, at: int, dot: int)
    requires EmailSplit(s, at, dot)
    ensures FindFirst(s, IsAt) == Some(at)
    ensures LastIndexOf(s, '.') == Some(dot)
  {
    forall j | 0 <= j < at ensures s[j] != '@' {
      assert s[j] == s[..at][j] && IsLocalChar(s[..at][j]);
    }
    forall j | dot < j < |s| ensures s[j] != '.' {
      assert s[j] == s[dot + 1..][j - dot - 1] && IsLetter(s[dot + 1..][j - dot - 1]);
    }
    var first := FindFirst(s, IsAt);
    var last := LastIndexOf(s, '.');
    assert first.Some? && first.value <= at;
    assert last.Some? && last.value >= dot;
  }

  /** `validate_email` accepts exactly the addresses the pattern matches. */
  lemma ValidEmailMatchesPattern(email: string)
    ensures ValidEmail(email) <==> MatchesEmailPattern(email)
  {
    if ValidEmail(email) {
      var at, dot := FindFirst(email, IsAt).value, LastIndexOf(email, '.').value;
      assert EmailSplit(email, at, dot);
    }
    if MatchesEmailPattern(email) {
      var at, dot :| EmailSplit(email, at, dot);
      SplitIsFirstAtLastDot(email, at, dot);
    }
  }

  /**
   * An accepted address holds exactly one `@`, has a non-empty local part,
   * ends in a dot and two or more letters, and is pure ASCII (so Python's
   * `str.lower()` on it is `ToLower`).
   */
  lemma ValidEmailShape(email: string)
    requires ValidEmail(email)
    ensures exists at :: 1 <= at < |email| && email[at] == '@' &&
              forall k :: 0 <= k < |email| && email[k] == '@' ==> k == at
    ensures exists dot :: 0 < dot <= |email| - 3 && email[dot] == '.' &&
              forall k :: dot < k < |email| ==> IsLetter(email[k])
    ensures forall k :: 0 <= k < |email| ==> IsAscii(email[k])
  {
    var at, dot := FindFirst(email, IsAt).value, LastIndexOf(email, '.').value;
    assert EmailSplit(email, at, dot);
    forall k | 0 <= k < |email| ensures IsAscii(email[k]) && (email[k] == '@' ==> k == at)
      && (dot < k ==> IsLetter(email[k]))
    {
      if k < at {
        assert email[k] == email[..at][k] && IsLocalChar(email[..at][k]);
      } else if at < k < dot {
        assert email[k] == email[at + 1..dot][k - at - 1] && IsDomainChar(email[at + 1..dot][k - at - 1]);
      } else if dot < k {
        assert email[k] == email[dot + 1..][k - dot - 1] && IsLetter(email[dot + 1..][k - dot - 1]);
      }
    }
  }

  /** A conventional address passes. */
  lemma AcceptedEmailExample()
    ensures ValidEmail("jo.doe@example.com")
  {
    var good := "jo.doe@example.com";
    assert EmailSplit(good, 6, 14);
    ValidEmailMatchesPattern(good);
  }

  /** A top-level domain of one letter is refused. */
  lemma ShortDomainRejected()
    ensures !ValidEmail("jo@example.c")
  {
    var short := "jo@example.c";
    var dot := LastIndexOf(short, '.');
    assert short[10] == '.';
    assert dot.Some? && dot.value >= 10;
  }

  /** An empty local part is refused. */
  lemma EmptyLocalRejected()
    ensures !ValidEmail("@example.com")
  {
    var noLocal := "@example.com";
    assert noLocal[0] == '@';
    assert FindFirst(noLocal, IsAt) == Some(0);
  }

  /** A second `@` cannot sit in the domain. */
  lemma DoubleAtRejected()
    ensures !ValidEmail("jo@@example.com")
  {
    var twice := "jo@@example.com";
    assert twice[2] == '@';
    var first := FindFirst(twice, IsAt);
    assert first.Some? && first.value <= 2 && twice[first.value] == '@';
    assert first.value == 2;
    forall d | 3 < d <= |twice| ensures !All(twice[3..d], IsDomainChar) {
      assert twice[3..d][0] == '@';
    }
  }
}
