/** The account actions: `register`'s ordered validation ladder and
    `login`'s per-email attempt counter. The user store is reduced to what
    the actions read from it (whether an email or a username is taken, the
    stored user for an email); Argon2 hashing and verification are
    function-valued parameters; the 15-minute timer that lowers the counter
    is the explicit event `ExpireAttempt`. */
module Auth {
  import opened Optional
  import JsText

  // ---------------------------------------------------------------- register

  predicate IsLower(c: char) { 'a' <= c <= 'z' }
  predicate IsUpper(c: char) { 'A' <= c <= 'Z' }
  predicate IsDigit(c: char) { '0' <= c <= '9' }

  /** The special characters of the strength check's character class:
      ! @ # $ % ^ & * ( ) _ + - = [ ] { } ; ' : " \ | , . < > / ?
      Together they fill four runs of ASCII: `!` to `/`, `:` to `@`, `[` to
      `_` and `{` to `}`, which leaves out the backquote and the tilde. */
  predicate IsSpecial(c: char) {
    ('!' <= c <= '/') || (':' <= c <= '@') || ('[' <= c <= '_') || ('{' <= c <= '}')
  }

  predicate HasLower(p: string) { exists i :: 0 <= i < |p| && IsLower(p[i]) }
  predicate HasUpper(p: string) { exists i :: 0 <= i < |p| && IsUpper(p[i]) }
  predicate HasDigit(p: string) { exists i :: 0 <= i < |p| && IsDigit(p[i]) }
  predicate HasSpecial(p: string) { exists i :: 0 <= i < |p| && IsSpecial(p[i]) }

  /** The server-side password policy. The length is JavaScript's, in
      UTF-16 units. */
  predicate StrongPassword(p: string) {
    JsText.Utf16Length(p) >= 8 && HasLower(p) && HasUpper(p) && HasDigit(p) && HasSpecial(p)
  }

  datatype RegisterValues = RegisterValues(
    email: string, firstName: string, lastName: string,
    username: string, password: string, confirmPassword: string)

  datatype NewUser = NewUser(
    email: string, firstName: string, lastName: string,
    username: string, passwordHash: string)

  datatype RegisterResult = RegisterError(message: string) | Created(user: NewUser)

  const EmailTakenMsg := "Email already exists"
  const UsernameTakenMsg := "Username already exists"
  const MismatchMsg := "Passwords do not match"
  const TooShortMsg := "Password must be at least 8 characters long"
  const NoLowerMsg := "Password must contain at least one lowercase letter"
  const NoUpperMsg := "Password must contain at least one uppercase letter"
  const NoDigitMsg := "Password must contain at least one number"
  const NoSpecialMsg := "Password must contain at least one special character"

  /** `register(values)`: the checks in source order, each returning its
      message on failure; the user is created only after all of them. */
  function Register(v: RegisterValues, emailTaken: bool, usernameTaken: bool,
                    hash: string -> string): RegisterResult
  {
    if emailTaken then RegisterError(EmailTakenMsg)
    else if usernameTaken then RegisterError(UsernameTakenMsg)
    else if v.password != v.confirmPassword then RegisterError(MismatchMsg)
    else if JsText.Utf16Length(v.password) < 8 then RegisterError(TooShortMsg)
    else if !HasLower(v.password) then RegisterError(NoLowerMsg)
    else if !HasUpper(v.password) then RegisterError(NoUpperMsg)
    else if !HasDigit(v.password) then RegisterError(NoDigitMsg)
    else if !HasSpecial(v.password) then RegisterError(NoSpecialMsg)
    else Created(NewUser(v.email, v.firstName, v.lastName, v.username, hash(v.password)))
  }

  datatype Check = Check(passes: bool, message: string)

  /** The same checks as data, in the order the action runs them. */
  function RegisterChecks(v: RegisterValues, emailTaken: bool, usernameTaken: bool): seq<Check> {
    [ Check(!emailTaken, EmailTakenMsg),
      Check(!usernameTaken, UsernameTakenMsg),
      Check(v.password == v.confirmPassword, MismatchMsg),
      Check(JsText.Utf16Length(v.password) >= 8, TooShortMsg),
      Check(HasLower(v.password), NoLowerMsg),
      Check(HasUpper(v.password), NoUpperMsg),
      Check(HasDigit(v.password), NoDigitMsg),
      Check(HasSpecial(v.password), NoSpecialMsg) ]
  }

  /** Check `i` is the first one that fails. */
  predicate FailsFirstAt(checks: seq<Check>, i: int) {
    0 <= i < |checks| && !checks[i].passes && forall j :: 0 <= j < i ==> checks[j].passes
  }

  /** The message of the first failing check, if any. */
  function FirstFailure(checks: seq<Check>): (r: Option<string>)
    ensures r.None? <==> forall i :: 0 <= i < |checks| ==> checks[i].passes
    ensures r.Some? ==> exists i :: FailsFirstAt(checks, i) && checks[i].message == r.value
  {
    if checks == [] then None
    else if !checks[0].passes then
      assert FailsFirstAt(checks, 0);
      Some(checks[0].message)
    else
      var r := FirstFailure(checks[1..]);
      assert forall i :: 0 < i < |checks| ==> checks[i] == checks[1..][i - 1];
      if r.Some? then
        assert exists i :: FailsFirstAt(checks, i) && checks[i].message == r.value by {
          var i :| FailsFirstAt(checks[1..], i) && checks[1..][i].message == r.value;
          assert FailsFirstAt(checks, i + 1);
        }
        r
      else r
  }

  /** Any two first failures are the same check. */
  lemma FirstFailureUnique(checks: seq<Check>, i: int, j: int)
    requires FailsFirstAt(checks, i) && FailsFirstAt(checks, j)
    ensures i == j
  {
  }

  /** Registration returns exactly the first failing check's message, and
      creates a user only when every check passes. */
  lemma RegisterIsFirstFailure(v: RegisterValues, emailTaken: bool, usernameTaken: bool,
                               hash: string -> string)
    ensures var f := FirstFailure(RegisterChecks(v, emailTaken, usernameTaken));
      Register(v, emailTaken, usernameTaken, hash) ==
        if f.Some? then RegisterError(f.value)
        else Created(NewUser(v.email, v.firstName, v.lastName, v.username, hash(v.password)))
  {
    var c := RegisterChecks(v, emailTaken, usernameTaken);
    var f := FirstFailure(c);
    var r := Register(v, emailTaken, usernameTaken, hash);
    if f.Some? {
      var i :| FailsFirstAt(c, i) && c[i].message == f.value;
      var k := if emailTaken then 0 else if usernameTaken then 1
        else if v.password != v.confirmPassword then 2 else if JsText.Utf16Length(v.password) < 8 then 3
        else if !HasLower(v.password) then 4 else if !HasUpper(v.password) then 5
        else if !HasDigit(v.password) then 6 else 7;
      assert FailsFirstAt(c, k);
      FirstFailureUnique(c, i, k);
    } else {
      assert c[0].passes && c[1].passes && c[2].passes && c[3].passes;
      assert c[4].passes && c[5].passes && c[6].passes && c[7].passes;
    }
  }

  /** A user is created if and only if the email and username are free, the
      two passwords agree and the password is strong. */
  lemma RegisterCreatesIff(v: RegisterValues, emailTaken: bool, usernameTaken: bool,
                           hash: string -> string)
    ensures Register(v, emailTaken, usernameTaken, hash).Created? <==>
      !emailTaken && !usernameTaken && v.password == v.confirmPassword && StrongPassword(v.password)
    ensures Register(v, emailTaken, usernameTaken, hash).Created? ==>
      Register(v, emailTaken, usernameTaken, hash).user ==
        NewUser(v.email, v.firstName, v.lastName, v.username, hash(v.password))
  {
  }

  /** A backquote or a tilde is not a special character: "Abcdefg1~" passes
      every other check but is refused. */
  lemma TildeIsNotSpecial(hash: string -> string)
    ensures !IsSpecial('`') && !IsSpecial('~')
    ensures Register(RegisterValues("a@b.c", "A", "B", "abcdef", "Abcdefg1~", "Abcdefg1~"), false, false, hash)
      == RegisterError(NoSpecialMsg)
  {
    var p := "Abcdefg1~";
    TildePasswordClasses();
    assert HasLower(p) && HasUpper(p) && HasDigit(p);
    OnlySpecialMissing(RegisterValues("a@b.c", "A", "B", "abcdef", p, p), hash);
  }

  /** The character classes of "Abcdefg1~": letters and a digit, and no
      special character. */
  lemma TildePasswordClasses()
    ensures var p := "Abcdefg1~";
      |p| == 9 && IsUpper(p[0]) && IsLower(p[1]) && IsDigit(p[7]) && p[8] == '~' && !HasSpecial(p)
  {
    var p := "Abcdefg1~";
    assert forall i :: 0 <= i < |p| ==> IsLower(p[i]) || IsUpper(p[i]) || IsDigit(p[i]) || p[i] == '~';
    NoSpecialOutsideClass(p);
  }

  /** A password that passes every check but the last is refused for lack
      of a special character. */
  lemma OnlySpecialMissing(v: RegisterValues, hash: string -> string)
    requires v.password == v.confirmPassword && |v.password| >= 8
    requires HasLower(v.password) && HasUpper(v.password) && HasDigit(v.password)
    requires !HasSpecial(v.password)
    ensures Register(v, false, false, hash) == RegisterError(NoSpecialMsg)
  {
  }

  /** Two emoji count as four units toward the length: "😀😀Aa1!" has six
      characters but is eight units long, so a user is created with it. */
  lemma AstralPasswordCounts(hash: string -> string)
    ensures var p := "\U{1F600}\U{1F600}Aa1!";
      |p| == 6 && JsText.Utf16Length(p) == 8 &&
      Register(RegisterValues("a@b.c", "A", "B", "abcdef", p, p), false, false, hash).Created?
  {
    var p := "\U{1F600}\U{1F600}Aa1!";
    JsText.Utf16LengthBmp(p[2..]);
    assert p[1..][1..] == p[2..];
    assert JsText.Utf16Length(p) == 8;
    assert IsLower(p[3]) && IsUpper(p[2]) && IsDigit(p[4]) && IsSpecial(p[5]);
  }

  /** Letters, digits and tildes hold no special character. */
  lemma NoSpecialOutsideClass(p: string)
    requires forall i :: 0 <= i < |p| ==> IsLower(p[i]) || IsUpper(p[i]) || IsDigit(p[i]) || p[i] == '~'
    ensures !HasSpecial(p)
  {
    assert !IsSpecial('~');
  }

  // ------------------------------------------------------------------- login

  /** The number of attempts after which logins are refused. */
  const MaxAttempts: int := 5

  datatype StoredUser = StoredUser(id: string, passwordHash: string, hasUserInfo: bool)

  datatype LoginResult =
    | TooManyAttempts
    | UnknownEmail
    | WrongPassword
    | SignedIn(userId: string, redirect: string)
  {
    function Error(): Option<string> {
      match this
      case TooManyAttempts => Some("Too many login attempts. Try again in 15 minutes.")
      case UnknownEmail => Some("Invalid Email/Doesn't exist")
      case WrongPassword => Some("Password is incorrect")
      case SignedIn(_, _) => None
    }
  }

  /** `loginAttempts.get(email) || 0`. */
  function Attempts(m: map<string, int>, email: string): int {
    if email in m then m[email] else 0
  }

  /** One `login` call: the answer and the counter table afterwards. */
  function LoginStep(m: map<string, int>, email: string, password: string,
                     user: Option<StoredUser>, verify: (string, string) -> bool): (LoginResult, map<string, int>)
  {
    var attempts := Attempts(m, email);
    if attempts >= MaxAttempts then (TooManyAttempts, m)
    else
      var counted := m[email := attempts + 1];
      match user
      case None => (UnknownEmail, counted)
      case Some(u) =>
        if !verify(u.passwordHash, password) then (WrongPassword, counted)
        else (SignedIn(u.id, if u.hasUserInfo then "/home" else "/onboarding/" + u.id),
              counted[email := 0])
  }

  /** The number of calls, among consecutive failing logins for one email,
      that get past the attempt check. */
  function AdmittedFailures(m: map<string, int>, email: string, users: seq<Option<StoredUser>>,
                            password: string, verify: (string, string) -> bool): nat
    decreases |users|
  {
    if users == [] then 0
    else
      var (r, m') := LoginStep(m, email, password, users[0], verify);
      (if r == TooManyAttempts then 0 else 1) + AdmittedFailures(m', email, users[1..], password, verify)
  }

  predicate Fails(u: Option<StoredUser>, password: string, verify: (string, string) -> bool) {
    u.None? || !verify(u.value.passwordHash, password)
  }

  /** Between decrements, failed logins for one email get past the check at
      most `5 - attempts` times: unknown emails and wrong passwords count
      alike, and every later call is refused. */
  lemma {:induction false} FailuresAreCapped(m: map<string, int>, email: string, users: seq<Option<StoredUser>>,
                                             password: string, verify: (string, string) -> bool)
    requires 0 <= Attempts(m, email) <= MaxAttempts
    requires forall i :: 0 <= i < |users| ==> Fails(users[i], password, verify)
    ensures AdmittedFailures(m, email, users, password, verify) ==
      if |users| <= MaxAttempts - Attempts(m, email) then |users| else MaxAttempts - Attempts(m, email)
    decreases |users|
  {
    if users != [] {
      var (r, m') := LoginStep(m, email, password, users[0], verify);
      assert Attempts(m', email) == if Attempts(m, email) >= MaxAttempts then MaxAttempts else Attempts(m, email) + 1;
      assert forall i :: 0 <= i < |users[1..]| ==> users[1..][i] == users[i + 1];
      FailuresAreCapped(m', email, users[1..], password, verify);
    }
  }

  /** The module-level `loginAttempts` map. `pending` counts, per email, the
      decrement timers that have been scheduled and have not yet fired. */
  class LoginAttempts {
    var attempts: map<string, int>
    ghost var pending: multiset<string>

    /** The counter is never negative, never above the cap, and never above
        the number of decrements still to come: once they have all fired it
        is back to 0. */
    ghost predicate Valid()
      reads this
    {
      forall e :: e in attempts ==> 0 <= attempts[e] <= MaxAttempts && attempts[e] <= pending[e]
    }

    constructor ()
      ensures Valid() && attempts == map[] && pending == multiset{}
    {
      attempts := map[];
      pending := multiset{};
    }

    /** `login({email, password})`, given the stored user for that email. */
    method Login(email: string, password: string, user: Option<StoredUser>,
                 verify: (string, string) -> bool) returns (r: LoginResult)
      requires Valid()
      modifies this
      ensures Valid()
      ensures (r, attempts) == LoginStep(old(attempts), email, password, user, verify)
      ensures Attempts(old(attempts), email) >= MaxAttempts ==>
        r == TooManyAttempts && attempts == old(attempts) && pending == old(pending)
      ensures Attempts(old(attempts), email) < MaxAttempts ==> pending == old(pending) + multiset{email}
      ensures Attempts(old(attempts), email) < MaxAttempts && !r.SignedIn? ==>
        attempts == old(attempts)[email := Attempts(old(attempts), email) + 1]
      ensures r.SignedIn? ==> attempts == old(attempts)[email := 0]
      ensures Attempts(old(attempts), email) < MaxAttempts && user.None? ==> r == UnknownEmail
      ensures Attempts(old(attempts), email) < MaxAttempts && user.Some? ==>
        (r == WrongPassword <==> !verify(user.value.passwordHash, password))
    {
      var current := if email in attempts then attempts[email] else 0;
      if current >= MaxAttempts {
        return TooManyAttempts;
      }
      attempts := attempts[email := current + 1];
      pending := pending + multiset{email};
      if user.None? {
        return UnknownEmail;
      }
      var u := user.value;
      if !verify(u.passwordHash, password) {
        return WrongPassword;
      }
      attempts := attempts[email := 0];
      r := SignedIn(u.id, if u.hasUserInfo then "/home" else "/onboarding/" + u.id);
    }

    /** A scheduled decrement fires: the counter drops by one unless it is
        missing or already 0. */
    method ExpireAttempt(email: string)
      requires Valid() && email in pending
      modifies this
      ensures Valid()
      ensures pending == old(pending) - multiset{email}
      ensures Attempts(old(attempts), email) != 0 ==>
        attempts == old(attempts)[email := old(attempts)[email] - 1]
      ensures Attempts(old(attempts), email) == 0 ==> attempts == old(attempts)
    {
      if email in attempts && attempts[email] != 0 {
        attempts := attempts[email := attempts[email] - 1];
      }
      pending := pending - multiset{email};
    }
  }
}
