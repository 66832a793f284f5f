/**
 * The login form of `activities/LoginActivity.java`: the trimmed inputs are
 * checked, the password first and the email second, and only the demo
 * credentials open a session. The toast and the navigation are not modelled.
 */
module Login {
  import opened JavaLang
  import opened Forms
  import opened Session
  import Preferences

  const DEMO_EMAIL: string := "demo@example.com"
  const DEMO_PASSWORD: string := "password123"

  datatype LoginField = EmailField | PasswordField

  /** What an attempt ends in: field errors with the focused field, the login-error toast, or a session. */
  datatype LoginOutcome = FormErrors(errors: set<LoginField>, focus: LoginField) | LoginFailed | SignedIn(user: User)

  /**
   * The user the demo login stores. The source calls a four-argument `User`
   * constructor that `User.java` does not declare; its arguments are the id,
   * name, email and photo URL, and the bio is left null.
   */
  function DemoUser(email: string): User
  {
    User(Some("1"), Some("Demo User"), Some(email), Some(""), None)
  }

  /**
   * The checks of `attemptLogin` on the trimmed inputs: each failing field
   * gets its error; the email check runs last and takes the focus when it
   * fails, otherwise a failing password has it.
   */
  method ValidateLogin(email: string, password: string, isEmail: string -> bool)
    returns (cancel: bool, focus: Option<LoginField>, errors: set<LoginField>)
    ensures PasswordField in errors <==> PasswordInvalid(password)
    ensures EmailField in errors <==> EmailInvalid(email, isEmail)
    ensures cancel <==> errors != {}
    ensures cancel <==> EmailInvalid(email, isEmail) || PasswordInvalid(password)
    ensures focus.None? <==> !cancel
    ensures EmailInvalid(email, isEmail) ==> focus == Some(EmailField)
    ensures !EmailInvalid(email, isEmail) && PasswordInvalid(password) ==> focus == Some(PasswordField)
  {
    cancel := false;
    focus := None;
    errors := {};
    if password == [] {
      errors := errors + {PasswordField};
      focus := Some(PasswordField);
      cancel := true;
    } else if |password| < MIN_PASSWORD_LENGTH {
      errors := errors + {PasswordField};
      focus := Some(PasswordField);
      cancel := true;
    }
    if email == [] {
      errors := errors + {EmailField};
      focus := Some(EmailField);
      cancel := true;
    } else if !(email != [] && isEmail(email)) {
      errors := errors + {EmailField};
      focus := Some(EmailField);
      cancel := true;
    }
  }

  /**
   * `attemptLogin` on the texts of the two fields: invalid input shows the
   * errors; valid input other than the demo credentials shows the login
   * error; the demo credentials store the demo user's session. Only a
   * successful login changes the store.
   */
  method AttemptLogin(emailText: string, passwordText: string, isEmail: string -> bool, session: SessionManager)
    returns (outcome: LoginOutcome)
    modifies session
    ensures outcome.FormErrors? <==> EmailInvalid(Trim(emailText), isEmail) || PasswordInvalid(Trim(passwordText))
    ensures outcome.FormErrors? ==>
      (EmailField in outcome.errors <==> EmailInvalid(Trim(emailText), isEmail))
      && (PasswordField in outcome.errors <==> PasswordInvalid(Trim(passwordText)))
      && outcome.focus == (if EmailInvalid(Trim(emailText), isEmail) then EmailField else PasswordField)
    ensures outcome.SignedIn? <==>
      !outcome.FormErrors? && Trim(emailText) == DEMO_EMAIL && Trim(passwordText) == DEMO_PASSWORD
    ensures outcome.SignedIn? ==>
      outcome.user == DemoUser(DEMO_EMAIL) && session.pref == WithSession(old(session.pref), outcome.user)
    ensures !outcome.SignedIn? ==> session.pref == old(session.pref)
  {
    var email := Trim(emailText);
    var password := Trim(passwordText);
    var cancel, focus, errors := ValidateLogin(email, password, isEmail);
    if cancel {
      return FormErrors(errors, focus.value);
    }
    if email == DEMO_EMAIL && password == DEMO_PASSWORD {
      var user := DemoUser(email);
      session.CreateLoginSession(user);
      return SignedIn(user);
    }
    return LoginFailed;
  }

  /** The demo credentials pass both checks whenever the pattern accepts the demo address. */
  lemma DemoCredentialsValid(isEmail: string -> bool)
    requires isEmail(DEMO_EMAIL)
    ensures !EmailInvalid(DEMO_EMAIL, isEmail) && !PasswordInvalid(DEMO_PASSWORD)
  {
  }

  datatype Screen = Home | LoginForm

  /** `onCreate`: a logged-in user goes straight to the home screen; anyone else sees the form. */
  function EntryScreen(p: Preferences.Store): (s: Result<Screen>)
    ensures s == Ok(Home) <==> LoggedInFlag(p) == Ok(true)
    ensures s == Ok(LoginForm) <==> LoggedInFlag(p) == Ok(false)
  {
    var flag := LoggedInFlag(p);
    if flag.Thrown? then Thrown(flag.exception)
    else if flag.value then Ok(Home) else Ok(LoginForm)
  }

  /** After the demo login, opening the login screen again skips the form. */
  lemma LoginSkipsFormAfterwards(p: Preferences.Store)
    ensures EntryScreen(WithSession(p, DemoUser(DEMO_EMAIL))) == Ok(Home)
  {
    LoginRoundTrip(p, DemoUser(DEMO_EMAIL));
  }
}
