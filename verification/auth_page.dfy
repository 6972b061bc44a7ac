/**
 * The login / sign-up page: the two form records edited keystroke by
 * keystroke, the validation chains that run before any request is sent,
 * and the "remember me" rule that keeps the user id in expiring storage.
 * The server's answer and the clock are parameters.
 */
module AuthPage {
  import opened Wrappers
  import opened JsText
  import TtlStorage

  // ---------------------------------------------------------------------------
  // The email pattern  ^[^\s@]+@[^\s@]+\.[^\s@]+$

  /** `[^\s@]+` matches all of `t` (emptiness is checked by the caller's bounds). */
  predicate EmailAtoms(t: string) {
    forall k :: 0 <= k < |t| ==> !IsWhiteSpace(t[k]) && t[k] != '@'
  }

  /** The email regular expression, piece by piece: three non-empty atoms around `@` and `.`. */
  predicate MatchesEmailRegex(s: string) {
    exists i, j :: 0 < i && i + 1 < j && j + 1 < |s| && s[i] == '@' && s[j] == '.'
                   && EmailAtoms(s[..i]) && EmailAtoms(s[i + 1..j]) && EmailAtoms(s[j + 1..])
  }

  /**
   * What an accepted address looks like: no white space, exactly one `@`,
   * something before it, and after it a `.` that is neither the first nor
   * the last character of the part after the `@`.
   */
  predicate EmailShape(s: string) {
    (forall k :: 0 <= k < |s| ==> !IsWhiteSpace(s[k]))
    && exists i :: 0 < i < |s| && s[i] == '@'
                   && (forall k :: 0 <= k < |s| && s[k] == '@' ==> k == i)
                   && exists j :: i + 1 < j < |s| - 1 && s[j] == '.'
  }

  /** Every character of an accepted address lies in one of its three atoms, or is the `@` or the `.`. */
  lemma EmailRegexHasShape(s: string, i: int, j: int)
    requires 0 < i && i + 1 < j && j + 1 < |s| && s[i] == '@' && s[j] == '.'
    requires EmailAtoms(s[..i]) && EmailAtoms(s[i + 1..j]) && EmailAtoms(s[j + 1..])
    ensures EmailShape(s)
  {
    var local, domain, tld := s[..i], s[i + 1..j], s[j + 1..];
    forall k | 0 <= k < |s| ensures !IsWhiteSpace(s[k]) && (s[k] == '@' ==> k == i) {
      if k < i {
        assert s[k] == local[k];
      } else if i < k < j {
        assert s[k] == domain[k - i - 1];
      } else if j < k {
        assert s[k] == tld[k - j - 1];
      }
    }
    assert i + 1 < j < |s| - 1 && s[j] == '.';
  }

  /** An address of the expected shape splits into the three atoms at its `@` and an inner `.`. */
  lemma EmailShapeMatchesRegex(s: string)
    requires EmailShape(s)
    ensures MatchesEmailRegex(s)
  {
    var i :| 0 < i < |s| && s[i] == '@'
             && (forall k :: 0 <= k < |s| && s[k] == '@' ==> k == i)
             && exists j :: i + 1 < j < |s| - 1 && s[j] == '.';
    var j :| i + 1 < j < |s| - 1 && s[j] == '.';
    var local, domain, tld := s[..i], s[i + 1..j], s[j + 1..];
    assert EmailAtoms(local) by {
      forall k | 0 <= k < |local| ensures local[k] == s[k] { }
    }
    assert EmailAtoms(domain) by {
      forall k | 0 <= k < |domain| ensures domain[k] == s[i + 1 + k] { }
    }
    assert EmailAtoms(tld) by {
      forall k | 0 <= k < |tld| ensures tld[k] == s[j + 1 + k] { }
    }
  }

  /** The email pattern accepts exactly the addresses of the expected shape. */
  lemma {:induction false} EmailRegexShape(s: string)
    ensures MatchesEmailRegex(s) <==> EmailShape(s)
  {
    if MatchesEmailRegex(s) {
      var i, j :| 0 < i && i + 1 < j && j + 1 < |s| && s[i] == '@' && s[j] == '.'
                  && EmailAtoms(s[..i]) && EmailAtoms(s[i + 1..j]) && EmailAtoms(s[j + 1..]);
      EmailRegexHasShape(s, i, j);
    }
    if EmailShape(s) {
      EmailShapeMatchesRegex(s);
    }
  }

  // ---------------------------------------------------------------------------
  // The password pattern  ^(?=.*[a-z])(?=.*[A-Z])(?=.*\d)(?=.*[@$!%*?&#^()+-_=<>{}[\]|~]).{8,}$

  /** The last character class of the pattern. Written unescaped, `+-_` is the range U+002B..U+005F. */
  predicate InSymbolClass(c: char) {
    c == '@' || c == '$' || c == '!' || c == '%' || c == '*' || c == '?' || c == '&' || c == '#'
    || c == '^' || c == '(' || c == ')' || ('+' <= c <= '_') || c == '=' || c == '<' || c == '>'
    || c == '{' || c == '}' || c == '[' || c == ']' || c == '|' || c == '~'
  }

  /** `.` matches every character of `t`. */
  predicate NoLineTerminator(t: string) {
    forall k :: 0 <= k < |t| ==> !IsLineTerminator(t[k])
  }

  /** The lookahead `(?=.*[cls])` at the start of `p`. */
  predicate LookaheadFinds(p: string, cls: char -> bool) {
    exists k :: 0 <= k < |p| && NoLineTerminator(p[..k]) && cls(p[k])
  }

  /** Some character of `p` is in `cls`. */
  predicate Contains(p: string, cls: char -> bool) {
    exists k :: 0 <= k < |p| && cls(p[k])
  }

  /** The password regular expression: four lookaheads, then `.{8,}$`. */
  predicate MatchesStrongPassRegex(p: string) {
    LookaheadFinds(p, IsLower) && LookaheadFinds(p, IsUpper) && LookaheadFinds(p, IsDigit)
    && LookaheadFinds(p, InSymbolClass)
    && NoLineTerminator(p) && |p| >= 8
  }

  /** Upper-case letters and digits all fall inside the range of the symbol class. */
  lemma UpperAndDigitAreSymbols(c: char)
    requires IsUpper(c) || IsDigit(c)
    ensures InSymbolClass(c)
  {
  }

  /**
   * A password is accepted exactly when it has no line terminator, at least
   * eight characters, a lower-case letter, an upper-case letter and a digit:
   * the symbol lookahead never rejects anything the upper-case one accepts.
   */
  lemma {:induction false} StrongPassIff(p: string)
    ensures MatchesStrongPassRegex(p) <==>
            NoLineTerminator(p) && |p| >= 8 && Contains(p, IsLower) && Contains(p, IsUpper) && Contains(p, IsDigit)
  {
    if NoLineTerminator(p) && |p| >= 8 && Contains(p, IsLower) && Contains(p, IsUpper) && Contains(p, IsDigit) {
      forall cls: char -> bool | Contains(p, cls) ensures LookaheadFinds(p, cls) {
        var k :| 0 <= k < |p| && cls(p[k]);
        assert NoLineTerminator(p[..k]) by {
          forall m | 0 <= m < k ensures p[..k][m] == p[m] { }
        }
      }
      var k :| 0 <= k < |p| && IsUpper(p[k]);
      UpperAndDigitAreSymbols(p[k]);
      assert Contains(p, InSymbolClass);
    }
  }

  /** A password with no symbol at all passes the strength check. */
  lemma SymbolFreePasswordAccepted()
    ensures MatchesStrongPassRegex("Password1")
  {
    var p := "Password1";
    assert IsUpper(p[0]) && IsLower(p[1]) && IsDigit(p[8]);
    assert Contains(p, IsLower) && Contains(p, IsUpper) && Contains(p, IsDigit);
    StrongPassIff(p);
  }

  // ---------------------------------------------------------------------------
  // Form records and the validation chains

  datatype LoginForm = LoginForm(email: string, password: string, rememberMe: bool)

  datatype SignUpForm = SignUpForm(userName: string, email: string, password: string, confirmPassword: string)

  /** The sign-up request body: `confirmPassword` is not part of it. */
  datatype SignUpBody = SignUpBody(userName: string, email: string, password: string)

  /** A validation chain either stops with one error message or lets the request body through. */
  datatype Check<B> = Rejected(message: string) | Accepted(body: B)

  const InvalidEmail := "Enter a valid email"
  const PasswordRequired := "Password required"
  const ShortUserName := "Username must be at least 3 characters"
  const InvalidSignUpEmail := "Enter a valid email address"
  const WeakPassword := "Password must include uppercase, lowercase, number, symbol, and be 8+ chars"
  const PasswordMismatch := "Passwords do not match"
  const DigitInUserName := "Username should not contain numbers"
  const LoginSuccess := "Login Successfull!!"
  const SignUpSuccess := "Sign Up Successfull!!"
  const SignUpDone := "Sign-up successful!"
  const ServerError := "Server error, try again later"

  /** The checks of `handleLogin`: the email first, then a password that is not blank. */
  function CheckLogin(f: LoginForm): (r: Check<LoginForm>)
    ensures r.Accepted? <==> EmailShape(f.email) && !AllWhiteSpace(f.password)
    ensures r.Accepted? ==> r.body == f
    ensures !EmailShape(f.email) ==> r == Rejected(InvalidEmail)
    ensures EmailShape(f.email) && AllWhiteSpace(f.password) ==> r == Rejected(PasswordRequired)
  {
    EmailRegexShape(f.email);
    if !MatchesEmailRegex(f.email) then Rejected(InvalidEmail)
    else if Trim(f.password) == [] then Rejected(PasswordRequired)
    else Accepted(f)
  }

  /**
   * The checks of `handleSignUp`, in order: a trimmed user name of at least
   * three characters, the email, the password strength, the confirmation.
   */
  function CheckSignUp(f: SignUpForm): (r: Check<SignUpBody>)
    ensures r.Accepted? <==> |Trim(f.userName)| >= 3 && EmailShape(f.email)
                             && MatchesStrongPassRegex(f.password) && f.password == f.confirmPassword
    ensures r.Accepted? ==> r.body == SignUpBody(f.userName, f.email, f.password)
    ensures |Trim(f.userName)| < 3 ==> r == Rejected(ShortUserName)
    ensures |Trim(f.userName)| >= 3 && !EmailShape(f.email) ==> r == Rejected(InvalidSignUpEmail)
    ensures |Trim(f.userName)| >= 3 && EmailShape(f.email) && !MatchesStrongPassRegex(f.password)
            ==> r == Rejected(WeakPassword)
    ensures (|Trim(f.userName)| >= 3 && EmailShape(f.email) && MatchesStrongPassRegex(f.password)
             && f.password != f.confirmPassword) ==> r == Rejected(PasswordMismatch)
  {
    EmailRegexShape(f.email);
    var name := Trim(f.userName);
    if name == [] || |name| < 3 then Rejected(ShortUserName)
    else if !MatchesEmailRegex(f.email) then Rejected(InvalidSignUpEmail)
    else if !MatchesStrongPassRegex(f.password) then Rejected(WeakPassword)
    else if f.password != f.confirmPassword then Rejected(PasswordMismatch)
    else Accepted(SignUpBody(f.userName, f.email, f.password))
  }

  /** A sign-up with a symbol-free password still reaches the server. */
  lemma SymbolFreeSignUpAccepted()
    ensures CheckSignUp(SignUpForm("Ada", "a@b.co", "Password1", "Password1")).Accepted?
  {
    var name := "Ada";
    assert !IsWhiteSpace(name[0]);
    assert |Trim(name)| >= 3 by {
      assert LeadingWhiteSpace(name) == 0;
      assert TrailingWhiteSpace(name) == 0;
    }
    var e := "a@b.co";
    assert e[1] == '@' && e[3] == '.';
    assert EmailAtoms(e[..1]) && EmailAtoms(e[2..3]) && EmailAtoms(e[4..]);
    assert MatchesEmailRegex(e);
    EmailRegexShape(e);
    SymbolFreePasswordAccepted();
  }

  // ---------------------------------------------------------------------------
  // The page's state

  /** What the server answered to a login request (`data.id` on success). */
  datatype LoginReply = LoginFailed | LoginOk(id: string)

  /** Whether the sign-up request succeeded. */
  datatype SignUpReply = SignUpFailed | SignUpOk

  /** What one submit of a form did: the request sent, the toasts shown, the navigation. */
  datatype Outcome<B> = Outcome(request: Option<B>, toasts: seq<string>, redirect: Option<string>)

  /** The storage key and lifetime (30 days, in milliseconds) of a remembered login. */
  const UserIdKey := "User Id"
  const RememberMs := 2592000000

  class Page {
    var login: LoginForm
    var signUp: SignUpForm

    /** The user name kept in the sign-up form never contains a digit. */
    ghost predicate Valid()
      reads this
    {
      !ContainsDigit(signUp.userName)
    }

    /** Both forms start empty, with "remember me" off. */
    constructor ()
      ensures Valid()
      ensures login == LoginForm("", "", false)
      ensures signUp == SignUpForm("", "", "", "")
    {
      login := LoginForm("", "", false);
      signUp := SignUpForm("", "", "", "");
    }

    /** Typing in the login email field. */
    method SetLoginEmail(v: string)
      modifies this
      ensures login == old(login).(email := v) && signUp == old(signUp)
    {
      login := login.(email := v);
    }

    /** Typing in the login password field. */
    method SetLoginPassword(v: string)
      modifies this
      ensures login == old(login).(password := v) && signUp == old(signUp)
    {
      login := login.(password := v);
    }

    /** Clicking the "Remember me" label. */
    method ToggleRememberMe()
      modifies this
      ensures login == old(login).(rememberMe := !old(login).rememberMe) && signUp == old(signUp)
    {
      login := login.(rememberMe := !login.rememberMe);
    }

    /** Typing in the user name field: an entry with a digit is refused with a toast. */
    method SetUserName(v: string) returns (toast: Option<string>)
      requires Valid()
      modifies this
      ensures Valid()
      ensures toast.Some? <==> ContainsDigit(v)
      ensures toast.Some? ==> toast.value == DigitInUserName && signUp == old(signUp)
      ensures toast.None? ==> signUp == old(signUp).(userName := v)
      ensures login == old(login)
    {
      if ContainsDigit(v) {
        toast := Some(DigitInUserName);
      } else {
        signUp := signUp.(userName := v);
        toast := None;
      }
    }

    /** Typing in the sign-up email field. */
    method SetSignUpEmail(v: string)
      requires Valid()
      modifies this
      ensures Valid()
      ensures signUp == old(signUp).(email := v) && login == old(login)
    {
      signUp := signUp.(email := v);
    }

    /** Typing in the sign-up password field. */
    method SetSignUpPassword(v: string)
      requires Valid()
      modifies this
      ensures Valid()
      ensures signUp == old(signUp).(password := v) && login == old(login)
    {
      signUp := signUp.(password := v);
    }

    /** Typing in the confirmation field. */
    method SetConfirmPassword(v: string)
      requires Valid()
      modifies this
      ensures Valid()
      ensures signUp == old(signUp).(confirmPassword := v) && login == old(login)
    {
      signUp := signUp.(confirmPassword := v);
    }

    /**
     * `handleLogin`: validate, send the whole login record, and on success
     * remember the returned id for 30 days when "remember me" is on.
     */
    method HandleLogin(store: TtlStorage.Store<string>, reply: LoginReply, now: int) returns (r: Outcome<LoginForm>)
      modifies store
      ensures CheckLogin(login).Rejected? ==>
                r == Outcome(None, [CheckLogin(login).message], None) && store.items == old(store.items)
      ensures CheckLogin(login).Accepted? ==> r.request == Some(login)
      ensures CheckLogin(login).Accepted? && reply.LoginFailed? ==>
                r.toasts == [ServerError] && r.redirect == None && store.items == old(store.items)
      ensures CheckLogin(login).Accepted? && reply.LoginOk? ==>
                r.toasts == [LoginSuccess] && r.redirect == Some("/dashboard/" + reply.id)
                && store.items == if login.rememberMe
                                  then old(store.items)[UserIdKey := TtlStorage.Item(reply.id, now + RememberMs)]
                                  else old(store.items)
    {
      var check := CheckLogin(login);
      if check.Rejected? {
        return Outcome(None, [check.message], None);
      }
      match reply
      case LoginFailed =>
        r := Outcome(Some(login), [ServerError], None);
      case LoginOk(id) =>
        if login.rememberMe {
          store.SetData(UserIdKey, id, RememberMs, now);
        }
        r := Outcome(Some(login), [LoginSuccess], Some("/dashboard/" + id));
    }

    /**
     * `handleSignUp`: validate, send user name, email and password, and
     * (after the server's answer, whatever it was) show the closing toast.
     */
    method HandleSignUp(reply: SignUpReply) returns (r: Outcome<SignUpBody>)
      ensures CheckSignUp(signUp).Rejected? ==> r == Outcome(None, [CheckSignUp(signUp).message], None)
      ensures CheckSignUp(signUp).Accepted? ==>
                r.request == Some(SignUpBody(signUp.userName, signUp.email, signUp.password))
                && r.toasts == [if reply.SignUpOk? then SignUpSuccess else ServerError, SignUpDone]
                && r.redirect == None
    {
      var check := CheckSignUp(signUp);
      if check.Rejected? {
        return Outcome(None, [check.message], None);
      }
      var first := if reply.SignUpOk? then SignUpSuccess else ServerError;
      r := Outcome(Some(check.body), [first, SignUpDone], None);
    }
  }

  /**
   * The page's mount effect: a remembered, still-live, non-empty user id
   * has its 30-day lifetime renewed and sends the browser to that user's page.
   */
  method RestoreSession(store: TtlStorage.Store<string>, now: int) returns (redirect: Option<string>)
    modifies store
    ensures var (found, rest) := TtlStorage.Read(old(store.items), UserIdKey, now);
            if found.Some? && found.value != "" then
              redirect == Some("/" + found.value)
              && store.items == rest[UserIdKey := TtlStorage.Item(found.value, now + RememberMs)]
            else
              redirect == None && store.items == rest
  {
    var id := store.GetData(UserIdKey, now);
    if id.Some? && id.value != "" {
      store.SetData(UserIdKey, id.value, RememberMs, now);
      redirect := Some("/" + id.value);
    } else {
      redirect := None;
    }
  }
}
