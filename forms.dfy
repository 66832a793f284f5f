/**
 * The field checks `LoginActivity` and `SignupActivity` share. The
 * `Patterns.EMAIL_ADDRESS` match is a parameter: `isEmail`.
 */
module Forms {
  const MIN_PASSWORD_LENGTH: nat := 6

  /** `isEmpty(email) || !isValidEmail(email)`, where `isValidEmail` is non-empty and matching the pattern. */
  predicate EmailInvalid(email: string, isEmail: string -> bool)
  {
    email == [] || !isEmail(email)
  }

  /** `isEmpty(password) || password.length() < 6`. */
  predicate PasswordInvalid(password: string)
  {
    password == [] || |password| < MIN_PASSWORD_LENGTH
  }

  /** The empty check is subsumed by the length check: a password is rejected exactly when it is shorter than six characters. */
  lemma PasswordInvalidIffShort(password: string)
    ensures PasswordInvalid(password) <==> |password| < MIN_PASSWORD_LENGTH
  {
  }
}
