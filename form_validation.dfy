/**
 * What the login and registration validators of the admin client check:
 * JavaScript whitespace and `String.prototype.trim`, the language of the
 * e-mail pattern `^[^\s@]+@[^\s@]+\.[^\s@]+$`, and the rule that the first
 * failing check's message is reported.
 */
module FormValidation {
  import opened Wrappers

  /**
   * The characters JavaScript treats as white space both in `\s` and in
   * `trim`: WhiteSpace (including the Zs category) and LineTerminator.
   */
  predicate IsWhitespace(c: char) {
    || c == '\t' || c == '\n' || c == '\U{000B}' || c == '\U{000C}' || c == '\r' || c == ' '
    || c == '\U{00A0}' || c == '\U{1680}' || ('\U{2000}' <= c <= '\U{200A}')
    || c == '\U{2028}' || c == '\U{2029}' || c == '\U{202F}' || c == '\U{205F}'
    || c == '\U{3000}' || c == '\U{FEFF}'
  }

  predicate AllWhitespace(s: string) {
    forall i :: 0 <= i < |s| ==> IsWhitespace(s[i])
  }

  /** `s` with its leading white space removed. */
  function TrimStart(s: string): (r: string)
    ensures |r| <= |s| && r == s[|s| - |r|..]
    ensures AllWhitespace(s[..|s| - |r|])
    ensures r == [] || !IsWhitespace(r[0])
  {
    if s != [] && IsWhitespace(s[0]) then TrimStart(s[1..]) else s
  }

  /** `s` with its trailing white space removed. */
  function TrimEnd(s: string): (r: string)
    ensures |r| <= |s| && r == s[..|r|]
    ensures AllWhitespace(s[|r|..])
    ensures r == [] || !IsWhitespace(r[|r| - 1])
  {
    if s != [] && IsWhitespace(s[|s| - 1]) then TrimEnd(s[..|s| - 1]) else s
  }

  /** `r` occurs in `s` at `i`, with only white space before and after it. */
  predicate TrimmedAt(s: string, i: int, r: string) {
    0 <= i <= |s| - |r| && s[i..i + |r|] == r && AllWhitespace(s[..i]) && AllWhitespace(s[i + |r|..])
  }

  /**
   * `s.trim()`: the part of `s` left between its leading and its trailing
   * white space, which neither starts nor ends with white space.
   */
  function Trim(s: string): (r: string)
    ensures exists i :: 0 <= i <= |s| && TrimmedAt(s, i, r)
    ensures r == [] || (!IsWhitespace(r[0]) && !IsWhitespace(r[|r| - 1]))
  {
    var t := TrimStart(s);
    var r := TrimEnd(t);
    TrimShape(s, t, r);
    r
  }

  /** Trimming both ends of `s` leaves a run of `s` bounded by white space. */
  lemma TrimShape(s: string, t: string, r: string)
    requires |t| <= |s| && t == s[|s| - |t|..] && AllWhitespace(s[..|s| - |t|])
    requires |r| <= |t| && r == t[..|r|] && AllWhitespace(t[|r|..])
    requires t == [] || !IsWhitespace(t[0])
    ensures TrimmedAt(s, |s| - |t|, r)
    ensures r == [] || r[0] == t[0]
  {
    var i := |s| - |t|;
    assert r == s[i..i + |r|];
    assert t[|r|..] == s[i + |r|..];
  }

  /** `!s.trim()`: the trimmed text is the empty (falsy) string. */
  function IsBlank(s: string): (blank: bool)
    ensures blank <==> AllWhitespace(s)
  {
    BlankIffAllWhitespace(s);
    Trim(s) == ""
  }

  /** A text trims to the empty string exactly when all its characters are white space. */
  lemma BlankIffAllWhitespace(s: string)
    ensures Trim(s) == "" <==> AllWhitespace(s)
  {
    var t := TrimStart(s);
    if t != [] {
      assert TrimEnd(t) != [] by {
        assert t[0..] == t;
      }
      assert !AllWhitespace(s) by {
        assert s[|s| - |t|] == t[0];
      }
    } else {
      assert s[..|s|] == s;
    }
  }

  /** `[^\s@]+`: a non-empty run of characters that are neither white space nor '@'. */
  predicate IsEmailPart(p: string) {
    |p| > 0 && forall i :: 0 <= i < |p| ==> !IsWhitespace(p[i]) && p[i] != '@'
  }

  /** The language of `^[^\s@]+@[^\s@]+\.[^\s@]+$`. */
  predicate MatchesEmailPattern(s: string) {
    exists at, dot :: 0 <= at < |s| && 0 <= dot < |s| && PatternSplit(s, at, dot)
  }

  /** `s` is the run before `at`, '@', the run up to `dot`, '.', and the run after it. */
  predicate PatternSplit(s: string, at: int, dot: int) {
    && 0 < at < dot < |s| - 1 && s[at] == '@' && s[dot] == '.'
    && IsEmailPart(s[..at]) && IsEmailPart(s[at + 1..dot]) && IsEmailPart(s[dot + 1..])
  }

  /** The only '@' of `s` is at index `at`. */
  predicate OnlyAtSignAt(s: string, at: int) {
    0 <= at < |s| && s[at] == '@' && forall k :: 0 <= k < |s| && k != at ==> s[k] != '@'
  }

  /** The domain has a '.' that is neither its first nor its last character. */
  predicate HasInnerDot(domain: string) {
    exists j :: 0 <= j < |domain| && InnerDotAt(domain, j)
  }

  predicate InnerDotAt(domain: string, j: int) {
    0 < j < |domain| - 1 && domain[j] == '.'
  }

  /**
   * `isValidEmail(email)`, structurally: no white space, exactly one '@'
   * with at least one character before it, and a '.' inside what follows.
   */
  predicate IsValidEmail(s: string) {
    && (forall i :: 0 <= i < |s| ==> !IsWhitespace(s[i]))
    && exists at :: 0 <= at < |s| && AtSignSplit(s, at)
  }

  /** `at` is the one '@' of `s`, with a character before it and an inner '.' after it. */
  predicate AtSignSplit(s: string, at: int) {
    0 < at < |s| && OnlyAtSignAt(s, at) && HasInnerDot(s[at + 1..])
  }

  /** The structural check accepts exactly the pattern's language. */
  lemma ValidEmailIffMatchesPattern(s: string)
    ensures IsValidEmail(s) <==> MatchesEmailPattern(s)
  {
    if IsValidEmail(s) {
      ValidEmailMatchesPattern(s);
    }
    if MatchesEmailPattern(s) {
      PatternMatchIsValidEmail(s);
    }
  }

  /** A structurally valid address splits into the pattern's three runs. */
  lemma ValidEmailMatchesPattern(s: string)
    requires IsValidEmail(s)
    ensures MatchesEmailPattern(s)
  {
    var at :| 0 <= at < |s| && AtSignSplit(s, at);
    var domain := s[at + 1..];
    var j :| 0 <= j < |domain| && InnerDotAt(domain, j);
    var dot := at + 1 + j;
    assert s[dot] == '.';
    assert IsEmailPart(s[..at]) by {
      forall i | 0 <= i < at ensures !IsWhitespace(s[..at][i]) && s[..at][i] != '@' {
        assert s[..at][i] == s[i];
      }
    }
    var host, tld := s[at + 1..dot], s[dot + 1..];
    assert IsEmailPart(host) by {
      forall i | 0 <= i < |host| ensures !IsWhitespace(host[i]) && host[i] != '@' {
        assert host[i] == s[at + 1 + i];
      }
    }
    assert IsEmailPart(tld) by {
      forall i | 0 <= i < |tld| ensures !IsWhitespace(tld[i]) && tld[i] != '@' {
        assert tld[i] == s[dot + 1 + i];
      }
    }
    assert PatternSplit(s, at, dot);
  }

  /** An address made of the pattern's three runs passes the structural check. */
  lemma PatternMatchIsValidEmail(s: string)
    requires MatchesEmailPattern(s)
    ensures IsValidEmail(s)
  {
    var at, dot :| 0 <= at < |s| && 0 <= dot < |s| && PatternSplit(s, at, dot);
    forall k | 0 <= k < |s| ensures !IsWhitespace(s[k]) && (k != at ==> s[k] != '@') {
      if k < at {
        assert s[k] == s[..at][k];
      } else if k == at {
      } else if k < dot {
        assert s[k] == s[at + 1..dot][k - at - 1];
      } else if k == dot {
      } else {
        assert s[k] == s[dot + 1..][k - dot - 1];
      }
    }
    assert OnlyAtSignAt(s, at);
    var domain := s[at + 1..];
    assert InnerDotAt(domain, dot - at - 1);
    assert AtSignSplit(s, at);
  }

  /** One ordered check of a form: whether it fails, and the message it reports. */
  datatype Check = Check(fails: bool, message: string)

  /** The message of the first failing check, or None (`null`) when all pass. */
  function FirstFailure(checks: seq<Check>): (r: Option<string>)
    ensures r.None? <==> forall i :: 0 <= i < |checks| ==> !checks[i].fails
    ensures r.Some? ==> exists i :: 0 <= i < |checks| && checks[i].fails && checks[i].message == r.value &&
                                    forall j :: 0 <= j < i ==> !checks[j].fails
  {
    if checks == [] then None
    else if checks[0].fails then Some(checks[0].message)
    else
      var r := FirstFailure(checks[1..]);
      assert forall i :: 1 <= i < |checks| ==> checks[i] == checks[1..][i - 1];
      r
  }

  datatype LoginData = LoginData(email: string, password: string)

  datatype RegisterData = RegisterData(
    firstName: string,
    lastName: string,
    email: string,
    password: string,
    confirmPassword: string)

  const FIRST_NAME_REQUIRED := "First name is required"
  const LAST_NAME_REQUIRED := "Last name is required"
  const EMAIL_REQUIRED := "Email is required"
  const PASSWORD_REQUIRED := "Password is required"
  const CONFIRM_REQUIRED := "Please confirm your password"
  const INVALID_EMAIL := "Invalid email format"
  const PASSWORDS_DIFFER := "Passwords do not match"
  const PASSWORD_TOO_SHORT := "Password must be at least 6 characters"

  /** The minimum password length. */
  const MIN_PASSWORD_LENGTH := 6

  /** The login form's checks, in the order the validator applies them. */
  function LoginChecks(data: LoginData): seq<Check> {
    [ Check(IsBlank(data.email), EMAIL_REQUIRED),
      Check(IsBlank(data.password), PASSWORD_REQUIRED),
      Check(!IsValidEmail(data.email), INVALID_EMAIL) ]
  }

  /** The registration form's eight checks, in the order the validator applies them. */
  function RegisterChecks(data: RegisterData): seq<Check> {
    [ Check(IsBlank(data.firstName), FIRST_NAME_REQUIRED),
      Check(IsBlank(data.lastName), LAST_NAME_REQUIRED),
      Check(IsBlank(data.email), EMAIL_REQUIRED),
      Check(IsBlank(data.password), PASSWORD_REQUIRED),
      Check(IsBlank(data.confirmPassword), CONFIRM_REQUIRED),
      Check(!IsValidEmail(data.email), INVALID_EMAIL),
      Check(data.password != data.confirmPassword, PASSWORDS_DIFFER),
      Check(|data.password| < MIN_PASSWORD_LENGTH, PASSWORD_TOO_SHORT) ]
  }

  /** The first failing check of three, spelled out. */
  lemma FirstFailureOfThree(c0: Check, c1: Check, c2: Check)
    ensures FirstFailure([c0, c1, c2]) ==
              if c0.fails then Some(c0.message)
              else if c1.fails then Some(c1.message)
              else if c2.fails then Some(c2.message)
              else None
  {
    assert [c0, c1, c2][1..] == [c1, c2];
    assert [c1, c2][1..] == [c2];
    assert FirstFailure([c2]) == if c2.fails then Some(c2.message) else None;
    assert FirstFailure([c1, c2]) == if c1.fails then Some(c1.message) else FirstFailure([c2]);
  }

  /** The first failing check of a list that starts with `c`. */
  lemma FirstFailureCons(c: Check, rest: seq<Check>)
    ensures FirstFailure([c] + rest) == if c.fails then Some(c.message) else FirstFailure(rest)
  {
    assert ([c] + rest)[1..] == rest;
  }

  /** The first failing check of eight, spelled out. */
  lemma FirstFailureOfEight(c0: Check, c1: Check, c2: Check, c3: Check, c4: Check, c5: Check, c6: Check, c7: Check)
    ensures FirstFailure([c0, c1, c2, c3, c4, c5, c6, c7]) ==
              if c0.fails then Some(c0.message)
              else if c1.fails then Some(c1.message)
              else if c2.fails then Some(c2.message)
              else if c3.fails then Some(c3.message)
              else if c4.fails then Some(c4.message)
              else if c5.fails then Some(c5.message)
              else if c6.fails then Some(c6.message)
              else if c7.fails then Some(c7.message)
              else None
  {
    var t5 := [c5, c6, c7];
    var t4 := [c4] + t5;
    var t3 := [c3] + t4;
    var t2 := [c2] + t3;
    var t1 := [c1] + t2;
    var t0 := [c0] + t1;
    assert t0 == [c0, c1, c2, c3, c4, c5, c6, c7];
    FirstFailureOfThree(c5, c6, c7);
    FirstFailureCons(c4, t5);
    FirstFailureCons(c3, t4);
    FirstFailureCons(c2, t3);
    FirstFailureCons(c1, t2);
    FirstFailureCons(c0, t1);
  }

  /** The outcome of the login checks, check by check. */
  lemma LoginOutcome(data: LoginData)
    ensures FirstFailure(LoginChecks(data)) ==
              if IsBlank(data.email) then Some(EMAIL_REQUIRED)
              else if IsBlank(data.password) then Some(PASSWORD_REQUIRED)
              else if !IsValidEmail(data.email) then Some(INVALID_EMAIL)
              else None
  {
    var c := LoginChecks(data);
    FirstFailureOfThree(c[0], c[1], c[2]);
  }

  /** The outcome of the registration checks, check by check. */
  lemma RegisterOutcome(data: RegisterData)
    ensures FirstFailure(RegisterChecks(data)) ==
              if IsBlank(data.firstName) then Some(FIRST_NAME_REQUIRED)
              else if IsBlank(data.lastName) then Some(LAST_NAME_REQUIRED)
              else if IsBlank(data.email) then Some(EMAIL_REQUIRED)
              else if IsBlank(data.password) then Some(PASSWORD_REQUIRED)
              else if IsBlank(data.confirmPassword) then Some(CONFIRM_REQUIRED)
              else if !IsValidEmail(data.email) then Some(INVALID_EMAIL)
              else if data.password != data.confirmPassword then Some(PASSWORDS_DIFFER)
              else if |data.password| < MIN_PASSWORD_LENGTH then Some(PASSWORD_TOO_SHORT)
              else None
  {
    var c := RegisterChecks(data);
    FirstFailureOfEight(c[0], c[1], c[2], c[3], c[4], c[5], c[6], c[7]);
  }

  /** Login data is accepted exactly when both fields are filled in and the address matches the pattern. */
  lemma LoginAcceptedIff(data: LoginData)
    ensures FirstFailure(LoginChecks(data)).None? <==>
              !AllWhitespace(data.email) && !AllWhitespace(data.password) && MatchesEmailPattern(data.email)
  {
    LoginOutcome(data);
    ValidEmailIffMatchesPattern(data.email);
    BlankIffAllWhitespace(data.email);
    BlankIffAllWhitespace(data.password);
  }

  /** Accepted registration data has matching passwords of at least six characters and a well-formed address. */
  lemma RegisterAcceptedImplies(data: RegisterData)
    requires FirstFailure(RegisterChecks(data)).None?
    ensures data.password == data.confirmPassword
    ensures |data.password| >= MIN_PASSWORD_LENGTH
    ensures MatchesEmailPattern(data.email)
    ensures !AllWhitespace(data.firstName) && !AllWhitespace(data.lastName)
  {
    RegisterOutcome(data);
    ValidEmailIffMatchesPattern(data.email);
    BlankIffAllWhitespace(data.firstName);
    BlankIffAllWhitespace(data.lastName);
  }

  /**
   * The mismatch check comes before the length check: a short password that
   * differs from its confirmation is reported as a mismatch.
   */
  lemma MismatchReportedBeforeLength(data: RegisterData)
    requires !AllWhitespace(data.firstName) && !AllWhitespace(data.lastName)
    requires !AllWhitespace(data.password) && !AllWhitespace(data.confirmPassword)
    requires IsValidEmail(data.email)
    requires data.password != data.confirmPassword && |data.password| < MIN_PASSWORD_LENGTH
    ensures FirstFailure(RegisterChecks(data)) == Some(PASSWORDS_DIFFER)
  {
    RegisterOutcome(data);
    BlankIffAllWhitespace(data.firstName);
    BlankIffAllWhitespace(data.lastName);
    BlankIffAllWhitespace(data.password);
    BlankIffAllWhitespace(data.confirmPassword);
    BlankIffAllWhitespace(data.email);
    assert data.email != [] && !IsWhitespace(data.email[0]);
  }

  /**
   * Blankness is judged on the trimmed text but the pattern on the raw text:
   * a well-formed address with a leading space is rejected as malformed.
   */
  lemma PaddedEmailIsMalformed(email: string, password: string)
    requires IsValidEmail(email) && !AllWhitespace(password)
    ensures FirstFailure(LoginChecks(LoginData(" " + email, password))) == Some(INVALID_EMAIL)
  {
    var padded := " " + email;
    LoginOutcome(LoginData(padded, password));
    assert email != [] && !IsWhitespace(email[0]) && padded[1] == email[0];
    BlankIffAllWhitespace(padded);
    BlankIffAllWhitespace(password);
    assert !IsValidEmail(padded) by {
      assert IsWhitespace(padded[0]);
    }
  }

  /** A password of white space only counts as missing once the e-mail is filled in. */
  lemma WhitespacePasswordIsMissing(email: string, password: string)
    requires !AllWhitespace(email) && AllWhitespace(password)
    ensures FirstFailure(LoginChecks(LoginData(email, password))) == Some(PASSWORD_REQUIRED)
  {
    LoginOutcome(LoginData(email, password));
    BlankIffAllWhitespace(email);
    BlankIffAllWhitespace(password);
  }
}
