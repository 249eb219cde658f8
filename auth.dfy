/**
 * The authentication controller's own logic: the e-mail and password
 * regular expressions, the duplicate check of `signup`, and the per-IP
 * fixed window of failed logins kept in `loginAttempts`. The Users
 * collection is the set of registered e-mails; the user lookup and the
 * bcrypt comparison of `login` are inputs; the clock reading is `now`.
 */
module Auth {
  import opened Wrappers
  import opened JsText

  // ------------------------------------------------------------ e-mail check

  /** A character of the class `[^\s@]`. */
  predicate Plain(c: char) {
    !IsWhiteSpace(c) && c != '@'
  }

  /** `[^\s@]+`. */
  predicate PlainRun(s: string) {
    |s| >= 1 && forall i | 0 <= i < |s| :: Plain(s[i])
  }

  /**
   * `/^[^\s@]+@[^\s@]+\.[^\s@]+$/` read as a pattern: the text splits into a
   * plain run, `@`, a plain run, `.`, and a plain run.
   */
  predicate EmailPattern(s: string) {
    exists i, j | 0 < i < j < |s| ::
      && s[i] == '@' && s[j] == '.'
      && PlainRun(s[..i]) && PlainRun(s[i + 1..j]) && PlainRun(s[j + 1..])
  }

  /**
   * `emailRegex.test(email)` stated as what it accepts: no white space, a
   * single `@` with text before it, and a `.` after the `@` with text on both
   * of its sides.
   */
  predicate EmailOk(s: string) {
    var at := IndexOf(s, '@');
    && 0 < at < |s|
    && (forall k | 0 <= k < |s| :: !IsWhiteSpace(s[k]))
    && (forall k | at < k < |s| :: s[k] != '@')
    && (exists k | at + 1 < k < |s| - 1 :: s[k] == '.')
  }

  /** The two readings of the e-mail expression accept the same strings. */
  lemma EmailOkMeaning(s: string)
    ensures EmailOk(s) <==> EmailPattern(s)
  {
    if EmailOk(s) {
      EmailOkMatches(s);
    }
    if EmailPattern(s) {
      EmailMatchOk(s);
    }
  }

  lemma EmailOkMatches(s: string)
    requires EmailOk(s)
    ensures EmailPattern(s)
  {
    var at := IndexOf(s, '@');
    var j :| at + 1 < j < |s| - 1 && s[j] == '.';
    assert PlainRun(s[..at]) by {
      forall k | 0 <= k < at ensures Plain(s[..at][k]) {
        assert s[..at][k] == s[k];
      }
    }
    var domain, top := s[at + 1..j], s[j + 1..];
    forall k | 0 <= k < |domain| ensures Plain(domain[k]) {
      assert domain[k] == s[at + 1 + k];
    }
    forall k | 0 <= k < |top| ensures Plain(top[k]) {
      assert top[k] == s[j + 1 + k];
    }
  }

  lemma EmailMatchOk(s: string)
    requires EmailPattern(s)
    ensures EmailOk(s)
  {
    var i, j :| 0 < i < j < |s| && s[i] == '@' && s[j] == '.'
      && PlainRun(s[..i]) && PlainRun(s[i + 1..j]) && PlainRun(s[j + 1..]);
    CutTwice(s, i, j);
    JoinedOk(s[..i], s[i + 1..j], s[j + 1..]);
  }

  /** A string is its parts before, between and after two positions, with the characters there. */
  lemma CutTwice(s: string, i: nat, j: nat)
    requires i < j < |s|
    ensures s == s[..i] + [s[i]] + s[i + 1..j] + [s[j]] + s[j + 1..]
  {
    assert s[..j] == s[..i] + [s[i]] + s[i + 1..j];
    assert s == s[..j] + [s[j]] + s[j + 1..];
  }

  /** Three plain runs joined by `@` and `.` make an accepted address. */
  lemma JoinedOk(a: string, b: string, c: string)
    requires PlainRun(a) && PlainRun(b) && PlainRun(c)
    ensures EmailOk(a + "@" + b + "." + c)
  {
    var s := a + "@" + b + "." + c;
    var i, j := |a|, |a| + 1 + |b|;
    forall k | 0 <= k < i ensures s[k] != '@' {
      assert s[k] == a[k];
    }
    AtIsFirst(s, i);
    forall k | 0 <= k < |s| ensures Plain(s[k]) || k == i || k == j {
      if k < i {
        assert s[k] == a[k];
      } else if i < k < j {
        assert s[k] == b[k - i - 1];
      } else if j < k {
        assert s[k] == c[k - j - 1];
      }
    }
    assert s[j] == '.';
  }

  lemma AtIsFirst(s: string, i: nat)
    requires i < |s| && s[i] == '@' && forall k | 0 <= k < i :: s[k] != '@'
    ensures IndexOf(s, '@') == i
  {
  }

  /** Two `@`s are never accepted, nor is an address without text before its `@` or after its last `.`. */
  lemma EmailRejects()
    ensures !EmailOk("a@b@c.d")
    ensures !EmailOk("@b.c")
    ensures !EmailOk("a@b.")
  {
    assert IndexOf("a@b@c.d", '@') == 1;
    assert "a@b@c.d"[3] == '@';
    assert IndexOf("a@b.", '@') == 1;
  }

  /** A short address is accepted. */
  lemma EmailAccepts()
    ensures EmailOk("a@b.c")
  {
    var s := "a@b.c";
    AtIsFirst(s, 1);
    assert s[3] == '.';
  }

  // ---------------------------------------------------------- password check

  predicate IsLower(c: char) { 'a' <= c <= 'z' }
  predicate IsUpper(c: char) { 'A' <= c <= 'Z' }

  /** `\w`: ASCII letters, digits and `_`. */
  predicate IsWordChar(c: char) { IsLower(c) || IsUpper(c) || IsDigit(c) || c == '_' }

  /** `[\W_]`: anything but an ASCII letter or digit. */
  predicate IsSpecial(c: char) { !IsWordChar(c) || c == '_' }

  /** `.*` at the start: a run the regular-expression dot can cross. */
  predicate NoLineBreak(s: string) {
    forall i | 0 <= i < |s| :: !IsLineTerminator(s[i])
  }

  /** `(?=.*X)` at the start: some character of the class, reachable without crossing a line break. */
  predicate LookAhead(s: string, kind: char -> bool) {
    exists i | 0 <= i < |s| :: kind(s[i]) && NoLineBreak(s[..i])
  }

  /** `/^(?=.*[a-z])(?=.*[A-Z])(?=.*\d)(?=.*[\W_]).{8,}$/` read as a pattern. */
  predicate PasswordPattern(s: string) {
    && LookAhead(s, IsLower)
    && LookAhead(s, IsUpper)
    && LookAhead(s, IsDigit)
    && LookAhead(s, IsSpecial)
    && Utf16Length(s) >= 8 && NoLineBreak(s)
  }

  predicate Has(s: string, kind: char -> bool) {
    exists i | 0 <= i < |s| :: kind(s[i])
  }

  /**
   * `passwordRegex.test(password)` stated as what it accepts: at least 8
   * UTF-16 code units (the expression has no `u` flag, so `.` matches one
   * unit and a character above U+FFFF counts twice), none a line break,
   * with a lower-case letter, an upper-case letter, a digit and a character
   * that is not a letter or digit.
   */
  predicate PasswordOk(s: string) {
    Utf16Length(s) >= 8 && NoLineBreak(s) && Has(s, IsLower) && Has(s, IsUpper) && Has(s, IsDigit) && Has(s, IsSpecial)
  }

  /** The two readings of the password expression accept the same strings. */
  lemma PasswordOkMeaning(s: string)
    ensures PasswordOk(s) <==> PasswordPattern(s)
  {
    if PasswordOk(s) {
      HasLookAhead(s, IsLower);
      HasLookAhead(s, IsUpper);
      HasLookAhead(s, IsDigit);
      HasLookAhead(s, IsSpecial);
    }
  }

  lemma HasLookAhead(s: string, kind: char -> bool)
    requires NoLineBreak(s) && Has(s, kind)
    ensures LookAhead(s, kind)
  {
    var i :| 0 <= i < |s| && kind(s[i]);
    assert NoLineBreak(s[..i]);
  }

  /** A line break anywhere fails the check, however strong the rest; `_` counts as the special character. */
  lemma PasswordExamples()
    ensures !PasswordOk("Abcdef1!\n")
    ensures PasswordOk("Abcdef1_")
  {
    assert IsLineTerminator("Abcdef1!\n"[8]);
    var s := "Abcdef1_";
    assert IsUpper(s[0]) && IsLower(s[1]) && IsDigit(s[6]) && IsSpecial(s[7]);
  }

  /** Seven characters pass when one of them lies above U+FFFF, since it is two code units; seven ASCII ones do not. */
  lemma PasswordCountsCodeUnits()
    ensures PasswordOk("Abcde1\U{1F600}")
    ensures !PasswordOk("Abcde1!")
  {
    var s := "Abcde1\U{1F600}";
    assert IsUpper(s[0]) && IsLower(s[1]) && IsDigit(s[5]) && IsSpecial(s[6]);
    assert s[..6] == "Abcde1";
    Utf16LengthBmp("Abcde1");
    Utf16LengthBmp("Abcde1!");
  }

  // ------------------------------------------------------------------ signup

  datatype SignupError =
    | InvalidEmail     // 400
    | WeakPassword     // 400
    | UserExists       // 400

  /**
   * `signup`: the two format checks, then the duplicate check against the
   * registered e-mails; on success the user is added.
   */
  function Signup(email: string, password: string, registered: set<string>): (r: Result<set<string>, SignupError>)
    ensures r == Err(InvalidEmail) <==> !EmailPattern(email)
    ensures r == Err(WeakPassword) <==> EmailPattern(email) && !PasswordPattern(password)
    ensures r == Err(UserExists) <==> EmailPattern(email) && PasswordPattern(password) && email in registered
    ensures r.Ok? ==> email !in registered && r.value == registered + {email}
  {
    EmailOkMeaning(email);
    PasswordOkMeaning(password);
    if !EmailOk(email) then Err(InvalidEmail)
    else if !PasswordOk(password) then Err(WeakPassword)
    else if email in registered then Err(UserExists)
    else Ok(registered + {email})
  }

  /** Signing up twice with one e-mail: the second attempt is refused and leaves the users as they were. */
  lemma SignupOnce(email: string, password: string, other: string, registered: set<string>)
    requires Signup(email, password, registered).Ok?
    ensures Signup(email, other, Signup(email, password, registered).value) ==
      (if PasswordPattern(other) then Err(UserExists) else Err(WeakPassword))
  {
  }

  // ------------------------------------------------------------ login window

  const WindowMs: int := 60 * 1000
  const MaxAttempts: nat := 5

  /** A `loginAttempts` record. */
  datatype Attempts = Attempts(count: nat, firstAttempt: int)

  datatype LoginOutcome =
    | BadEmail            // 400
    | TooManyAttempts     // 429
    | UserNotFound        // 400
    | InvalidCredentials  // 400
    | LoggedIn            // 200

  /**
   * One login for one IP: its record before (`None` when absent) and after
   * (`None` when deleted or still absent), and the answer. `userFound` is
   * the Users lookup and `passwordValid` the bcrypt comparison.
   */
  function LoginStep(entry: Option<Attempts>, email: string, now: int, userFound: bool, passwordValid: bool): (LoginOutcome, Option<Attempts>) {
    if !EmailOk(email) then (BadEmail, entry)
    else
      var a := if entry.Some? then entry.value else Attempts(0, now);
      var a := if now - a.firstAttempt > WindowMs then Attempts(0, now) else a;
      if a.count >= MaxAttempts then (TooManyAttempts, entry)
      else if !userFound then (UserNotFound, Some(a.(count := a.count + 1)))
      else if !passwordValid then (InvalidCredentials, Some(a.(count := a.count + 1)))
      else (LoggedIn, None)
  }

  /** A stored record holds between 1 and 5 failures. */
  predicate Bounded(entry: Option<Attempts>) {
    entry.Some? ==> 1 <= entry.value.count <= MaxAttempts
  }

  /** Every login keeps the record within 1 to 5 failures. */
  lemma LoginStepBounded(entry: Option<Attempts>, email: string, now: int, userFound: bool, passwordValid: bool)
    requires Bounded(entry)
    ensures Bounded(LoginStep(entry, email, now, userFound, passwordValid).1)
  {
  }

  /** A malformed e-mail is answered before the record is read, and leaves it as it was. */
  lemma BadEmailUntouched(entry: Option<Attempts>, email: string, now: int, userFound: bool, passwordValid: bool)
    requires !EmailPattern(email)
    ensures LoginStep(entry, email, now, userFound, passwordValid) == (BadEmail, entry)
  {
    EmailOkMeaning(email);
  }

  /**
   * Within a minute of the first failure, five failures block the IP: the
   * record then stays at 5, and every login in that minute is refused
   * whatever the credentials, without touching the record.
   */
  lemma BlockedWithinWindow(first: int, email: string, now: int, userFound: bool, passwordValid: bool)
    requires EmailPattern(email) && now - first <= WindowMs
    ensures
      var entry := Some(Attempts(MaxAttempts, first));
      LoginStep(entry, email, now, userFound, passwordValid) == (TooManyAttempts, entry)
  {
    EmailOkMeaning(email);
  }

  /** Once more than a minute has passed since the first failure, the count starts again from this login. */
  lemma WindowRestarts(a: Attempts, email: string, now: int, passwordValid: bool)
    requires EmailPattern(email) && now - a.firstAttempt > WindowMs
    ensures LoginStep(Some(a), email, now, false, passwordValid) == (UserNotFound, Some(Attempts(1, now)))
  {
    EmailOkMeaning(email);
  }

  /** The record after a run of failed logins with a well-formed e-mail, all for unknown users. */
  function AfterFailures(entry: Option<Attempts>, email: string, times: seq<int>): Option<Attempts>
    decreases |times|
  {
    if times == [] then entry
    else AfterFailures(LoginStep(entry, email, times[0], false, false).1, email, times[1..])
  }

  /**
   * From no record, k failures at most a minute after the first one leave
   * `{count: k, firstAttempt: first}` for k up to 5, and the IP stays at 5
   * after that.
   */
  lemma {:induction false} FailuresCounted(email: string, first: int, k: nat, times: seq<int>)
    requires EmailPattern(email) && 1 <= k <= MaxAttempts
    requires forall i | 0 <= i < |times| :: first <= times[i] <= first + WindowMs
    ensures AfterFailures(Some(Attempts(k, first)), email, times) == Some(Attempts(Min(k + |times|, MaxAttempts), first))
    decreases |times|
  {
    EmailOkMeaning(email);
    if times != [] {
      FailuresCounted(email, first, Min(k + 1, MaxAttempts), times[1..]);
    }
  }

  function Min(a: int, b: int): int {
    if a <= b then a else b
  }

  /** Five failed logins within a minute of the first: a sixth login in that minute is refused. */
  lemma SixthLoginRefused(email: string, first: int, later: seq<int>, now: int, userFound: bool, passwordValid: bool)
    requires EmailPattern(email) && |later| == 4
    requires forall i | 0 <= i < 4 :: first <= later[i] <= first + WindowMs
    requires first <= now <= first + WindowMs
    ensures
      var entry := AfterFailures(None, email, [first] + later);
      entry == Some(Attempts(MaxAttempts, first))
      && LoginStep(entry, email, now, userFound, passwordValid).0 == TooManyAttempts
  {
    EmailOkMeaning(email);
    assert LoginStep(None, email, first, false, false).1 == Some(Attempts(1, first));
    assert ([first] + later)[1..] == later;
    FailuresCounted(email, first, 1, later);
    BlockedWithinWindow(first, email, now, userFound, passwordValid);
  }

  /** `loginAttempts`, the per-IP records of the login handler. */
  class LoginGuard {
    var attempts: map<string, Attempts>

    ghost predicate Valid()
      reads this
    {
      forall ip | ip in attempts :: 1 <= attempts[ip].count <= MaxAttempts
    }

    constructor ()
      ensures Valid() && attempts == map[]
    {
      attempts := map[];
    }

    /** `loginAttempts.get(ip)`. */
    function Entry(ip: string): Option<Attempts>
      reads this
    {
      if ip in attempts then Some(attempts[ip]) else None
    }

    /**
     * `login` for a request from `ip`. Only that IP's record changes: it is
     * set after a failure, deleted after a success, and left alone otherwise.
     */
    method Login(ip: string, email: string, now: int, userFound: bool, passwordValid: bool) returns (outcome: LoginOutcome)
      requires Valid()
      modifies this
      ensures Valid()
      ensures outcome == LoginStep(old(Entry(ip)), email, now, userFound, passwordValid).0
      ensures
        var after := LoginStep(old(Entry(ip)), email, now, userFound, passwordValid).1;
        attempts == if after.Some? then old(attempts)[ip := after.value] else old(attempts) - {ip}
    {
      if !EmailOk(email) {
        return BadEmail;
      }
      var a := if ip in attempts then attempts[ip] else Attempts(0, now);
      if now - a.firstAttempt > WindowMs {
        a := Attempts(0, now);
      }
      if a.count >= MaxAttempts {
        return TooManyAttempts;
      }
      if !userFound {
        a := a.(count := a.count + 1);
        attempts := attempts[ip := a];
        return UserNotFound;
      }
      if !passwordValid {
        a := a.(count := a.count + 1);
        attempts := attempts[ip := a];
        return InvalidCredentials;
      }
      attempts := attempts - {ip};
      return LoggedIn;
    }
  }
}
