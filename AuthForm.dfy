/** The sign-in and sign-up form of components/AuthForm.tsx: the two field
    validators, clearing a field's error on edit, the submit sequence in front
    of the session's `signIn` and `signUp`, and switching between the modes. */
module AuthForm {
  import opened Wrappers
  import opened Text
  import opened Auth

  datatype Mode = SignInMode | SignUpMode

  /** What a validator returns, and the error it leaves on its field. */
  datatype Verdict = Verdict(ok: bool, error: Option<string>)

  /** `validateEmail`: an empty field is not valid but shows no error; a
      field off the pattern shows "Invalid email format". */
  function EmailVerdict(value: string): (r: Verdict)
    ensures r.ok <==> value != "" && EmailPattern(value)
    ensures r.error.Some? <==> value != "" && !EmailPattern(value)
    ensures r.error.Some? ==> r.error.value == InvalidEmail
  {
    if value == "" then Verdict(false, None)
    else if !EmailPattern(value) then Verdict(false, Some(InvalidEmail))
    else Verdict(true, None)
  }

  /** `validatePassword`: an empty field is not valid but shows no error;
      fewer than six characters show the length message. */
  function PasswordVerdict(value: string): (r: Verdict)
    ensures r.ok <==> Utf16Length(value) >= 6
    ensures r.error.Some? <==> value != "" && Utf16Length(value) < 6
    ensures r.error.Some? ==> r.error.value == ShortPassword
  {
    if value == "" then Verdict(false, None)
    else if Utf16Length(value) < 6 then Verdict(false, Some(ShortPassword))
    else Verdict(true, None)
  }

  /** Three characters beyond U+FFFF are six code units, long enough. */
  lemma AstralPasswordLongEnough()
    ensures PasswordVerdict("\U{1F600}\U{1F600}\U{1F600}").ok
  {
    var s := "\U{1F600}\U{1F600}\U{1F600}";
    assert s[1..][1..][1..] == "";
  }

  /** Whatever the form lets through passes the session's own sign-up
      checks, so those never refuse a submitted form. */
  lemma FormCoversSignUpCheck(email: string, password: string)
    requires EmailVerdict(email).ok && PasswordVerdict(password).ok
    ensures SignUpCheck(email, password).None?
  {
  }

  /** A field is never shown an error on its own while empty. */
  lemma EmptyFieldsQuiet()
    ensures EmailVerdict("") == Verdict(false, None) && PasswordVerdict("") == Verdict(false, None)
  {
  }

  /** `!result.error`: no error, or an empty message, which JavaScript
      reads as false. */
  predicate Falsy(err: Option<string>) {
    err.None? || err == Some("")
  }

  /** The answers after which the form acts as on success: a success, a
      failure with an empty message, or a throw of an `Error` without one. */
  predicate ClosesOn(answer: Answer<Granted>) {
    answer.Succeeded? || answer == Failed("") || answer == Threw(Some(""))
  }

  /** Either call's error is falsy exactly for the answers `ClosesOn`
      names: every reworded message and the generic thrown text are
      non-empty, while an empty backend message passes through as it is. */
  lemma FalsyExactly(email: string, password: string, answer: Answer<Granted>)
    requires SignUpCheck(email, password).None?
    ensures Falsy(SignInError(answer)) <==> ClosesOn(answer)
    ensures Falsy(SignUpError(email, password, answer)) <==> ClosesOn(answer)
  {
    match answer
    case Failed(m) =>
      if m != "" {
        assert SignInMessage(m) != "" by {
          if !Contains(m, "Invalid login credentials") && !Contains(m, "Email not confirmed") {
            assert SignInMessage(m) == m;
          }
        }
        assert SignUpMessage(m) != "" by {
          if !Contains(m, "already registered") {
            assert SignUpMessage(m) == m;
          }
        }
      } else {
        assert !Contains(m, "Invalid login credentials") && !Contains(m, "Email not confirmed");
        assert !Contains(m, "already registered");
      }
    case Threw(t) =>
    case Succeeded(_) =>
  }

  /** A backend failure with an empty message closes the form, as a
      success does. */
  lemma EmptyFailureCloses()
    ensures Falsy(SignInError(Failed(""))) && ClosesOn(Failed(""))
    ensures !Falsy(SignInError(Threw(None)))
  {
    assert !Contains("", "Invalid login credentials") && !Contains("", "Email not confirmed");
  }

  class AuthForm {
    var mode: Mode
    var email: string
    var password: string
    var emailError: Option<string>
    var passwordError: Option<string>
    var isSubmitting: bool
    /** How often `onClose` has been called. */
    var closeCalls: nat
    /** Whether the parent passed `onClose`. */
    const hasOnClose: bool
    /** The session hook the form submits to. */
    const auth: AuthSession

    /** The only errors a field shows are its validator's. */
    predicate Valid()
      reads this
    {
      (emailError.None? || emailError == Some(InvalidEmail))
      && (passwordError.None? || passwordError == Some(ShortPassword))
    }

    constructor (auth: AuthSession, hasOnClose: bool)
      ensures Valid()
      ensures mode == SignInMode && email == "" && password == "" && emailError.None? && passwordError.None?
      ensures !isSubmitting && closeCalls == 0 && this.auth == auth && this.hasOnClose == hasOnClose
    {
      mode := SignInMode;
      email := "";
      password := "";
      emailError := None;
      passwordError := None;
      isSubmitting := false;
      closeCalls := 0;
      this.auth := auth;
      this.hasOnClose := hasOnClose;
    }

    method ValidateEmail(value: string) returns (ok: bool)
      requires Valid()
      modifies this
      ensures Valid()
      ensures ok == EmailVerdict(value).ok && emailError == EmailVerdict(value).error
      ensures mode == old(mode) && email == old(email) && password == old(password)
      ensures passwordError == old(passwordError) && isSubmitting == old(isSubmitting)
      ensures closeCalls == old(closeCalls)
    {
      var v := EmailVerdict(value);
      emailError := v.error;
      ok := v.ok;
    }

    method ValidatePassword(value: string) returns (ok: bool)
      requires Valid()
      modifies this
      ensures Valid()
      ensures ok == PasswordVerdict(value).ok && passwordError == PasswordVerdict(value).error
      ensures mode == old(mode) && email == old(email) && password == old(password)
      ensures emailError == old(emailError) && isSubmitting == old(isSubmitting)
      ensures closeCalls == old(closeCalls)
    {
      var v := PasswordVerdict(value);
      passwordError := v.error;
      ok := v.ok;
    }

    /** Typing in the e-mail field clears its error. */
    method HandleEmailChange(value: string)
      requires Valid()
      modifies this
      ensures Valid()
      ensures email == value && emailError.None?
      ensures mode == old(mode) && password == old(password) && passwordError == old(passwordError)
      ensures isSubmitting == old(isSubmitting) && closeCalls == old(closeCalls)
    {
      email := value;
      if emailError.Some? {
        emailError := None;
      }
    }

    /** Typing in the password field clears its error. */
    method HandlePasswordChange(value: string)
      requires Valid()
      modifies this
      ensures Valid()
      ensures password == value && passwordError.None?
      ensures mode == old(mode) && email == old(email) && emailError == old(emailError)
      ensures isSubmitting == old(isSubmitting) && closeCalls == old(closeCalls)
    {
      password := value;
      if passwordError.Some? {
        passwordError := None;
      }
    }

    /** Leaving the e-mail field validates it. */
    method HandleEmailBlur()
      requires Valid()
      modifies this
      ensures Valid()
      ensures emailError == EmailVerdict(email).error
      ensures mode == old(mode) && email == old(email) && password == old(password)
      ensures passwordError == old(passwordError) && isSubmitting == old(isSubmitting)
      ensures closeCalls == old(closeCalls)
    {
      var _ := ValidateEmail(email);
    }

    /** Leaving the password field validates it. */
    method HandlePasswordBlur()
      requires Valid()
      modifies this
      ensures Valid()
      ensures passwordError == PasswordVerdict(password).error
      ensures mode == old(mode) && email == old(email) && password == old(password)
      ensures emailError == old(emailError) && isSubmitting == old(isSubmitting)
      ensures closeCalls == old(closeCalls)
    {
      var _ := ValidatePassword(password);
    }

    /** `handleSubmit`: both validators run; unless both pass nothing is
        sent. Otherwise the mode's call is made with the backend's answer,
        and `onClose`, when given, is called once the call ends with a
        falsy error: none, or an empty message. Submitting is over at the end either way. The result is
        the call made, if any. */
    method HandleSubmit(answer: Answer<Granted>) returns (sent: Option<Mode>)
      requires Valid()
      modifies this, auth
      ensures Valid()
      ensures emailError == EmailVerdict(email).error && passwordError == PasswordVerdict(password).error
      ensures sent.Some? <==> EmailVerdict(email).ok && PasswordVerdict(password).ok
      ensures sent.Some? ==> sent.value == mode
      ensures sent == Some(SignInMode) ==> auth.error == SignInError(answer)
      ensures sent == Some(SignUpMode) ==> auth.error == SignUpError(email, password, answer)
      ensures sent.Some? ==> closeCalls == old(closeCalls) + (if hasOnClose && ClosesOn(answer) then 1 else 0)
      ensures sent.None? ==>
                closeCalls == old(closeCalls) && auth.user == old(auth.user) && auth.session == old(auth.session)
                && auth.error == old(auth.error) && auth.stored == old(auth.stored)
      ensures sent.Some? && answer.Succeeded? && answer.data.session.Some? ==>
                auth.session == answer.data.session && auth.user == answer.data.user
                && auth.stored == Some(TokensOf(answer.data.session.value))
      ensures sent.Some? && !(answer.Succeeded? && answer.data.session.Some?) ==>
                auth.session == old(auth.session) && auth.user == old(auth.user) && auth.stored == old(auth.stored)
      ensures auth.loading == old(auth.loading)
      ensures !isSubmitting
      ensures mode == old(mode) && email == old(email) && password == old(password)
    {
      isSubmitting := true;
      var emailOk := ValidateEmail(email);
      var passwordOk := ValidatePassword(password);
      if !emailOk || !passwordOk {
        isSubmitting := false;
        return None;
      }
      var err := Send(answer);
      if Falsy(err) && hasOnClose {
        closeCalls := closeCalls + 1;
      }
      sent := Some(mode);
      isSubmitting := false;
    }

    /** The call of the current mode, on fields that passed validation. */
    method Send(answer: Answer<Granted>) returns (err: Option<string>)
      requires EmailVerdict(email).ok && PasswordVerdict(password).ok
      modifies auth
      ensures mode == SignInMode ==> err == SignInError(answer)
      ensures mode == SignUpMode ==> err == SignUpError(email, password, answer)
      ensures err.None? <==> answer.Succeeded?
      ensures Falsy(err) <==> ClosesOn(answer)
      ensures auth.error == err
      ensures answer.Succeeded? && answer.data.session.Some? ==>
                auth.session == answer.data.session && auth.user == answer.data.user
                && auth.stored == Some(TokensOf(answer.data.session.value))
      ensures !(answer.Succeeded? && answer.data.session.Some?) ==>
                auth.session == old(auth.session) && auth.user == old(auth.user) && auth.stored == old(auth.stored)
      ensures auth.loading == old(auth.loading)
    {
      FormCoversSignUpCheck(email, password);
      FalsyExactly(email, password, answer);
      if mode == SignInMode {
        err := auth.SignIn(answer);
      } else {
        err := auth.SignUp(email, password, answer);
      }
    }

    /** `switchMode`: the other mode, with both field errors cleared and the
        fields kept. */
    method SwitchMode()
      requires Valid()
      modifies this
      ensures Valid()
      ensures mode == (if old(mode) == SignInMode then SignUpMode else SignInMode)
      ensures emailError.None? && passwordError.None?
      ensures email == old(email) && password == old(password)
      ensures isSubmitting == old(isSubmitting) && closeCalls == old(closeCalls)
    {
      mode := if mode == SignInMode then SignUpMode else SignInMode;
      emailError := None;
      passwordError := None;
    }
  }
}
