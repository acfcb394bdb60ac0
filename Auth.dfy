/** The session of hooks/useAuth.ts: the e-mail pattern both the hook and the
    form use, the checks `signUp` makes before it asks the backend, how the
    backend's messages are reworded, and how sign-up, sign-in, sign-out, the
    restore on mount and the auth events change the user, the session, the
    error and the stored tokens. The backend's answers are parameters. */
module Auth {
  import opened Wrappers
  import opened Text

  // ---------------------------------------------------------------------------
  // The e-mail pattern
  // ---------------------------------------------------------------------------

  /** A run of characters of the class `[^\s@]`. */
  predicate Plain(s: string) {
    forall j :: 0 <= j < |s| ==> !IsWhitespace(s[j]) && s[j] != '@'
  }

  /** `/^[^\s@]+@[^\s@]+\.[^\s@]+$/.test(s)`: a non-empty plain run, an `@`, a
      non-empty plain run, a `.`, and a non-empty plain run. */
  predicate EmailPattern(s: string) {
    exists i, k | 0 <= i < |s| && 0 <= k < |s| :: EmailSplit(s, i, k)
  }

  /** The pattern matches with the `@` at `i` and the `.` at `k`. */
  predicate EmailSplit(s: string, i: int, k: int) {
    0 < i && i + 1 < k && k + 1 < |s| && s[i] == '@' && s[k] == '.'
    && Plain(s[..i]) && Plain(s[i + 1..k]) && Plain(s[k + 1..])
  }

  /** The domain has a dot with text on both sides. */
  predicate InnerDot(d: string) {
    exists k :: 0 < k < |d| - 1 && d[k] == '.'
  }

  /** The plain reading of the pattern: exactly one `@`, not first, no
      whitespace, and a dot inside the domain. */
  predicate EmailShape(s: string) {
    exists i :: 0 < i < |s| && s[i] == '@' && Plain(s[..i]) && Plain(s[i + 1..]) && InnerDot(s[i + 1..])
  }

  /** A plain run split at a position is two plain runs, and two plain runs
      around a `.` are one. */
  lemma PlainAround(s: string, a: int, k: int)
    requires 0 <= a < k < |s| && s[k] == '.'
    ensures Plain(s[a..]) <==> Plain(s[a..k]) && Plain(s[k + 1..])
  {
    if Plain(s[a..k]) && Plain(s[k + 1..]) {
      forall j | 0 <= j < |s[a..]| ensures !IsWhitespace(s[a..][j]) && s[a..][j] != '@' {
        if a + j < k {
          assert s[a..][j] == s[a..k][j];
        } else if a + j > k {
          assert s[a..][j] == s[k + 1..][a + j - k - 1];
        }
      }
    }
    if Plain(s[a..]) {
      forall j | 0 <= j < |s[a..k]| ensures !IsWhitespace(s[a..k][j]) && s[a..k][j] != '@' {
        assert s[a..k][j] == s[a..][j];
      }
      var t := s[k + 1..];
      forall j | 0 <= j < |t| ensures !IsWhitespace(t[j]) && t[j] != '@' {
        assert t[j] == s[a..][k + 1 + j - a];
      }
    }
  }

  /** The pattern accepts exactly the texts of that shape. */
  lemma EmailPatternShape(s: string)
    ensures EmailPattern(s) <==> EmailShape(s)
  {
    if EmailPattern(s) {
      var i, k :| 0 <= i < |s| && 0 <= k < |s| && EmailSplit(s, i, k);
      SplitShape(s, i, k);
    }
    if EmailShape(s) {
      var i :| 0 < i < |s| && s[i] == '@' && Plain(s[..i]) && Plain(s[i + 1..]) && InnerDot(s[i + 1..]);
      ShapeSplit(s, i);
    }
  }

  lemma SplitShape(s: string, i: int, k: int)
    requires EmailSplit(s, i, k)
    ensures EmailShape(s)
  {
    PlainAround(s, i + 1, k);
    assert s[i + 1..][k - i - 1] == '.';
    assert InnerDot(s[i + 1..]);
  }

  lemma ShapeSplit(s: string, i: int)
    requires 0 < i < |s| && s[i] == '@' && Plain(s[..i]) && Plain(s[i + 1..]) && InnerDot(s[i + 1..])
    ensures EmailPattern(s)
  {
    var d := s[i + 1..];
    var m :| 0 < m < |d| - 1 && d[m] == '.';
    assert s[i + 1 + m] == d[m];
    PlainAround(s, i + 1, i + 1 + m);
    assert EmailSplit(s, i, i + 1 + m);
  }

  /** In a text of that shape the `@` is the only one, and there is no
      whitespace. */
  lemma OneAt(s: string, i: int, j: int)
    requires 0 < i < |s| && s[i] == '@' && Plain(s[..i]) && Plain(s[i + 1..])
    requires 0 <= j < |s|
    ensures !IsWhitespace(s[j])
    ensures j != i ==> s[j] != '@'
  {
    if j < i {
      assert s[..i][j] == s[j];
    } else if j > i {
      assert s[i + 1..][j - i - 1] == s[j];
    }
  }

  lemma SimpleAddress()
    ensures EmailPattern("a@b.c")
  {
    assert EmailSplit("a@b.c", 1, 3);
  }

  lemma NoDotRefused()
    ensures !EmailPattern("a@b")
  {
  }

  // ---------------------------------------------------------------------------
  // Messages
  // ---------------------------------------------------------------------------

  const InvalidEmail := "Invalid email format"
  const ShortPassword := "Password must be at least 6 characters"
  const AlreadyRegistered := "This email is already registered. Please sign in instead."
  const BadCredentials := "Invalid email or password"
  const ConfirmEmail := "Please check your email to confirm your account"
  const Unexpected := "An unexpected error occurred"

  /** What `signUp` refuses before any request: a malformed e-mail first,
      then a password under six characters. */
  function SignUpCheck(email: string, password: string): (r: Option<string>)
    ensures r.None? <==> EmailPattern(email) && Utf16Length(password) >= 6
    ensures !EmailPattern(email) ==> r == Some(InvalidEmail)
    ensures EmailPattern(email) && Utf16Length(password) < 6 ==> r == Some(ShortPassword)
  {
    if !EmailPattern(email) then Some(InvalidEmail)
    else if Utf16Length(password) < 6 then Some(ShortPassword)
    else None
  }

  /** The sign-up failure shown: an "already registered" message becomes the
      advice to sign in; any other message is shown as it came. */
  function SignUpMessage(message: string): (r: string)
    ensures Contains(message, "already registered") ==> r == AlreadyRegistered
    ensures !Contains(message, "already registered") ==> r == message
  {
    if Contains(message, "already registered") then AlreadyRegistered else message
  }

  /** The sign-in failure shown: bad credentials and an unconfirmed address
      are reworded; any other message is shown as it came. */
  function SignInMessage(message: string): (r: string)
    ensures Contains(message, "Invalid login credentials") ==> r == BadCredentials
    ensures (!Contains(message, "Invalid login credentials") && Contains(message, "Email not confirmed"))
              ==> r == ConfirmEmail
    ensures (!Contains(message, "Invalid login credentials") && !Contains(message, "Email not confirmed"))
              ==> r == message
  {
    if Contains(message, "Invalid login credentials") then BadCredentials
    else if Contains(message, "Email not confirmed") then ConfirmEmail
    else message
  }

  /** The message of something thrown: its own for an `Error`, a fixed text
      otherwise. */
  function ThrownMessage(thrown: Option<string>): (r: string)
    ensures thrown.Some? ==> r == thrown.value
    ensures thrown.None? ==> r == Unexpected
  {
    thrown.GetOr(Unexpected)
  }

  // ---------------------------------------------------------------------------
  // The session state
  // ---------------------------------------------------------------------------

  datatype User = User(id: string, email: string)

  datatype Session = Session(accessToken: string, refreshToken: string, user: User)

  /** The two tokens kept in extension storage. */
  datatype Tokens = Tokens(access: string, refresh: string)

  function TokensOf(s: Session): (t: Tokens)
    ensures t.access == s.accessToken && t.refresh == s.refreshToken
  {
    Tokens(s.accessToken, s.refreshToken)
  }

  /** What a backend call came back with: an error message, data, or a throw
      (with the `Error`'s message, or none for anything else thrown). */
  datatype Answer<T> = Failed(message: string) | Succeeded(data: T) | Threw(thrown: Option<string>)

  /** The data of a sign-up or sign-in: the session, if any, and the user. */
  datatype Granted = Granted(session: Option<Session>, user: Option<User>)

  /** The error `signUp` ends with: a refusal of its own checks, or the
      backend's reworded failure, or the thrown message; none on success. */
  function SignUpError(email: string, password: string, answer: Answer<Granted>): (r: Option<string>)
    ensures r.None? <==> SignUpCheck(email, password).None? && answer.Succeeded?
    ensures SignUpCheck(email, password).Some? ==> r == SignUpCheck(email, password)
  {
    if SignUpCheck(email, password).Some? then SignUpCheck(email, password)
    else match answer
      case Failed(m) => Some(SignUpMessage(m))
      case Threw(t) => Some(ThrownMessage(t))
      case Succeeded(_) => None
  }

  /** The error `signIn` ends with: the backend's reworded failure or the
      thrown message; none on success. */
  function SignInError(answer: Answer<Granted>): (r: Option<string>)
    ensures r.None? <==> answer.Succeeded?
  {
    match answer
    case Failed(m) => Some(SignInMessage(m))
    case Threw(t) => Some(ThrownMessage(t))
    case Succeeded(_) => None
  }

  /** Both tokens are stored and non-empty. */
  predicate HasTokens(stored: Option<Tokens>) {
    stored.Some? && stored.value.access != "" && stored.value.refresh != ""
  }

  /** The events of `onAuthStateChange` the hook reacts to, and the rest. */
  datatype AuthEvent = SignedIn | TokenRefreshed | SignedOut | OtherEvent(name: string)

  class AuthSession {
    var user: Option<User>
    var session: Option<Session>
    var loading: bool
    var error: Option<string>
    /** The tokens in extension storage. */
    var stored: Option<Tokens>

    /** `isAuthenticated`. */
    predicate IsAuthenticated()
      reads this
    {
      user.Some?
    }

    /** Nobody is signed in until the stored session is restored. */
    constructor (stored: Option<Tokens>)
      ensures user.None? && session.None? && loading && error.None? && this.stored == stored
      ensures !IsAuthenticated()
    {
      user := None;
      session := None;
      loading := true;
      error := None;
      this.stored := stored;
    }

    /** `loadSession` from extension storage. With both tokens present the
        backend is asked to restore the session: a refusal clears the tokens,
        the user and the session, a returned session is taken over, and
        loading ends. When reading the storage itself fails, the error is
        "Failed to load session" and loading ends. A throw inside the storage
        callback escapes the `try`: nothing changes and loading stays on. */
    method LoadSession(storageFails: bool, answer: Answer<Granted>)
      modifies this
      ensures storageFails ==>
                !loading && error == Some("Failed to load session")
                && user == old(user) && session == old(session) && stored == old(stored)
      ensures !storageFails && !HasTokens(old(stored)) ==>
                !loading && error == old(error) && user == old(user) && session == old(session) && stored == old(stored)
      ensures !storageFails && HasTokens(old(stored)) ==>
                error == old(error) && (loading <==> answer.Threw? && old(loading))
                && (answer.Failed? ==> user.None? && session.None? && stored.None?)
                && (answer.Succeeded? && answer.data.session.Some? ==>
                      session == answer.data.session && user == answer.data.user && stored == old(stored))
                && ((answer.Succeeded? && answer.data.session.None?) || answer.Threw? ==>
                      user == old(user) && session == old(session) && stored == old(stored))
    {
      if storageFails {
        error := Some("Failed to load session");
        loading := false;
      } else if HasTokens(stored) {
        match answer {
          case Failed(_) =>
            stored := None;
            user := None;
            session := None;
            loading := false;
          case Succeeded(g) =>
            if g.session.Some? {
              session := g.session;
              user := g.user;
            }
            loading := false;
          case Threw(_) =>
        }
      } else {
        loading := false;
      }
    }

    /** The auth listener: a sign-in or token refresh with a session takes it
        over and stores its tokens; a sign-out clears the session, the user
        and the tokens; anything else changes nothing. */
    method OnAuthStateChange(event: AuthEvent, s: Option<Session>)
      modifies this
      ensures (event.SignedIn? || event.TokenRefreshed?) && s.Some? ==>
                session == s && user == Some(s.value.user) && stored == Some(TokensOf(s.value))
                && IsAuthenticated()
      ensures event.SignedOut? ==> session.None? && user.None? && stored.None? && !IsAuthenticated()
      ensures event.OtherEvent? || ((event.SignedIn? || event.TokenRefreshed?) && s.None?) ==>
                session == old(session) && user == old(user) && stored == old(stored)
      ensures loading == old(loading) && error == old(error)
    {
      if event.SignedIn? || event.TokenRefreshed? {
        if s.Some? {
          session := s;
          user := Some(s.value.user);
          stored := Some(TokensOf(s.value));
        }
      } else if event.SignedOut? {
        session := None;
        user := None;
        stored := None;
      }
    }

    /** Takes over a granted session; shared by sign-up and sign-in. */
    method Grant(g: Granted)
      modifies this
      ensures g.session.Some? ==> session == g.session && user == g.user && stored == Some(TokensOf(g.session.value))
      ensures g.session.None? ==> session == old(session) && user == old(user) && stored == old(stored)
      ensures loading == old(loading) && error == old(error)
    {
      if g.session.Some? {
        session := g.session;
        user := g.user;
        stored := Some(TokensOf(g.session.value));
      }
    }

    /** `signUp`: the checks come first and refuse without a request (the
        answer is then never looked at); a failure is reworded; a granted
        session is taken over. The returned error is also the hook's error. */
    method SignUp(email: string, password: string, answer: Answer<Granted>) returns (err: Option<string>)
      modifies this
      ensures err == SignUpError(email, password, answer) && error == err
      ensures SignUpCheck(email, password).None? && answer.Succeeded? && answer.data.session.Some? ==>
                session == answer.data.session && user == answer.data.user
                && stored == Some(TokensOf(answer.data.session.value))
      ensures !(SignUpCheck(email, password).None? && answer.Succeeded? && answer.data.session.Some?) ==>
                session == old(session) && user == old(user) && stored == old(stored)
      ensures loading == old(loading)
    {
      error := None;
      var refused := SignUpCheck(email, password);
      if refused.Some? {
        err := refused;
      } else {
        match answer {
          case Failed(m) =>
            err := Some(SignUpMessage(m));
          case Threw(t) =>
            err := Some(ThrownMessage(t));
          case Succeeded(g) =>
            Grant(g);
            err := None;
        }
      }
      error := err;
    }

    /** `signIn`: no checks of its own; a failure is reworded; a granted
        session is taken over. */
    method SignIn(answer: Answer<Granted>) returns (err: Option<string>)
      modifies this
      ensures err == SignInError(answer) && error == err
      ensures answer.Succeeded? && answer.data.session.Some? ==>
                session == answer.data.session && user == answer.data.user
                && stored == Some(TokensOf(answer.data.session.value))
      ensures !(answer.Succeeded? && answer.data.session.Some?) ==>
                session == old(session) && user == old(user) && stored == old(stored)
      ensures loading == old(loading)
    {
      error := None;
      match answer {
        case Failed(m) =>
          err := Some(SignInMessage(m));
        case Threw(t) =>
          err := Some(ThrownMessage(t));
        case Succeeded(g) =>
          Grant(g);
          err := None;
      }
      error := err;
    }

    /** `signOut`: on success the session, the user and the tokens go; a
        failure or a throw only sets the error. */
    method SignOut(answer: Answer<()>) returns (err: Option<string>)
      modifies this
      ensures error == err
      ensures answer.Succeeded? ==> err.None? && session.None? && user.None? && stored.None?
                                    && !IsAuthenticated()
      ensures answer.Failed? ==> err == Some(answer.message)
      ensures answer.Threw? ==> err == Some(ThrownMessage(answer.thrown))
      ensures !answer.Succeeded? ==> session == old(session) && user == old(user) && stored == old(stored)
      ensures loading == old(loading)
    {
      error := None;
      match answer {
        case Failed(m) =>
          err := Some(m);
        case Threw(t) =>
          err := Some(ThrownMessage(t));
        case Succeeded(_) =>
          session := None;
          user := None;
          stored := None;
          err := None;
      }
      error := err;
    }
  }
}
