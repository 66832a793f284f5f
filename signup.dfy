/**
 * The sign-up form of `activities/SignupActivity.java`: four trimmed
 * inputs, each checked independently, the focus on the first failing field,
 * and a session for the new user when all pass. The toasts and the
 * navigation are not modelled; the clock is a parameter.
 */
module Signup {
  import opened JavaLang
  import opened Forms
  import opened Session
  import Preferences

  datatype SignupField = NameField | EmailField | PasswordField | ConfirmField

  /** The order of the fields on the form, which is the order of the checks. */
  function Rank(f: SignupField): nat
  {
    match f
    case NameField => 0
    case EmailField => 1
    case PasswordField => 2
    case ConfirmField => 3
  }

  /** `isEmpty(confirm) || !password.equals(confirm)`. */
  predicate ConfirmInvalid(password: string, confirm: string)
  {
    confirm == [] || password != confirm
  }

  /** Whether a field fails its check. */
  predicate Fails(f: SignupField, name: string, email: string, password: string, confirm: string, isEmail: string -> bool)
  {
    match f
    case NameField => name == []
    case EmailField => EmailInvalid(email, isEmail)
    case PasswordField => PasswordInvalid(password)
    case ConfirmField => ConfirmInvalid(password, confirm)
  }

  /**
   * The checks of `attemptSignup` on the trimmed inputs: every failing field
   * gets its error, and the focus goes to the first failing field in form
   * order (a later check keeps an earlier focus).
   */
  method ValidateSignup(name: string, email: string, password: string, confirm: string, isEmail: string -> bool)
    returns (cancel: bool, focus: Option<SignupField>, errors: set<SignupField>)
    ensures forall f :: f in errors <==> Fails(f, name, email, password, confirm, isEmail)
    ensures cancel <==> errors != {}
    ensures cancel <==> name == [] || EmailInvalid(email, isEmail) || PasswordInvalid(password) || ConfirmInvalid(password, confirm)
    ensures focus.None? <==> !cancel
    ensures focus.Some? ==> focus.value in errors && forall f :: f in errors ==> Rank(focus.value) <= Rank(f)
  {
    cancel := false;
    focus := None;
    errors := {};
    if name == [] {
      errors := errors + {NameField};
      focus := Some(NameField);
      cancel := true;
    }
    if email == [] {
      errors := errors + {EmailField};
      focus := if focus.None? then Some(EmailField) else focus;
      cancel := true;
    } else if !(email != [] && isEmail(email)) {
      errors := errors + {EmailField};
      focus := if focus.None? then Some(EmailField) else focus;
      cancel := true;
    }
    if password == [] {
      errors := errors + {PasswordField};
      focus := if focus.None? then Some(PasswordField) else focus;
      cancel := true;
    } else if |password| < MIN_PASSWORD_LENGTH {
      errors := errors + {PasswordField};
      focus := if focus.None? then Some(PasswordField) else focus;
      cancel := true;
    }
    if confirm == [] {
      errors := errors + {ConfirmField};
      focus := if focus.None? then Some(ConfirmField) else focus;
      cancel := true;
    } else if password != confirm {
      errors := errors + {ConfirmField};
      focus := if focus.None? then Some(ConfirmField) else focus;
      cancel := true;
    }
  }

  datatype SignupOutcome = FormErrors(errors: set<SignupField>, focus: SignupField) | SignedUp(user: User)

  /** The user a sign-up stores: the clock as id, the entered name and email, no photo, no bio. */
  function NewUser(name: string, email: string, now: Int64): User
  {
    User(Some(IntToDecimal(now)), Some(name), Some(email), Some(""), None)
  }

  /**
   * `attemptSignup` on the texts of the four fields at time `now`: sign-up
   * proceeds exactly when the name is non-empty, the email non-empty and
   * valid, the password at least six characters, and the confirmation equal
   * to it; then the session holds the entered name and email.
   */
  method AttemptSignup(nameText: string, emailText: string, passwordText: string, confirmText: string,
                       isEmail: string -> bool, now: Int64, session: SessionManager)
    returns (outcome: SignupOutcome)
    modifies session
    ensures outcome.SignedUp? <==>
      && Trim(nameText) != []
      && Trim(emailText) != [] && isEmail(Trim(emailText))
      && |Trim(passwordText)| >= MIN_PASSWORD_LENGTH
      && Trim(confirmText) == Trim(passwordText)
    ensures outcome.FormErrors? ==>
      forall f :: f in outcome.errors <==> Fails(f, Trim(nameText), Trim(emailText), Trim(passwordText), Trim(confirmText), isEmail)
    ensures outcome.SignedUp? ==>
      outcome.user == NewUser(Trim(nameText), Trim(emailText), now)
      && session.pref == WithSession(old(session.pref), outcome.user)
    ensures outcome.FormErrors? ==> session.pref == old(session.pref)
  {
    var name := Trim(nameText);
    var email := Trim(emailText);
    var password := Trim(passwordText);
    var confirm := Trim(confirmText);
    var cancel, focus, errors := ValidateSignup(name, email, password, confirm, isEmail);
    if cancel {
      return FormErrors(errors, focus.value);
    }
    var user := NewUser(name, email, now);
    session.CreateLoginSession(user);
    return SignedUp(user);
  }

  /** A signed-up user reads back with the entered name and email. */
  lemma SignupStoresNameAndEmail(p: Preferences.Store, name: string, email: string, now: Int64)
    ensures StoredUser(WithSession(p, NewUser(name, email, now))).Ok?
    ensures StoredUser(WithSession(p, NewUser(name, email, now))).value.value.name == Some(name)
    ensures StoredUser(WithSession(p, NewUser(name, email, now))).value.value.email == Some(email)
  {
    LoginRoundTrip(p, NewUser(name, email, now));
  }
}
