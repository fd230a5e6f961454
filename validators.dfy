/**
 * The sign-up form validators: each returns the message to show, or nothing when the
 * field is acceptable. Strings are JavaScript strings, sequences of UTF-16 code units, so
 * a length is a count of code units.
 */
module Validation {
  import opened Wrappers

  /** One UTF-16 code unit. */
  type CodeUnit = u: int | 0 <= u < 0x1_0000

  type JsString = seq<CodeUnit>

  /** The code unit of '@'. */
  const AT_SIGN: CodeUnit := 0x40

  const MIN_PASSWORD_LENGTH := 6

  const EMAIL_REQUIRED := "Email is required."
  const EMAIL_INVALID := "Please enter a valid email address."
  const NAME_REQUIRED := "Name is required."
  const PASSWORD_REQUIRED := "Password is required."
  const PASSWORD_TOO_SHORT := "Password must be at least 6 characters."

  /** An empty email is missing, one without '@' is invalid, and any email with '@' passes. */
  function ValidateEmail(email: JsString): (r: Option<string>)
    ensures r == Some(EMAIL_REQUIRED) <==> |email| == 0
    ensures r == Some(EMAIL_INVALID) <==> |email| > 0 && AT_SIGN !in email
    ensures r == None <==> AT_SIGN in email
  {
    if |email| == 0 then Some(EMAIL_REQUIRED)
    else if AT_SIGN !in email then Some(EMAIL_INVALID)
    else None
  }

  /** A name fails exactly when it is empty. */
  function ValidateName(name: JsString): (r: Option<string>)
    ensures r == None <==> |name| > 0
    ensures r != None ==> r == Some(NAME_REQUIRED)
  {
    if |name| == 0 then Some(NAME_REQUIRED) else None
  }

  /**
   * An empty password is missing (this check comes first), one of 1 to 5 code units is too
   * short, and any longer password passes.
   */
  function ValidatePassword(password: JsString): (r: Option<string>)
    ensures r == Some(PASSWORD_REQUIRED) <==> |password| == 0
    ensures r == Some(PASSWORD_TOO_SHORT) <==> 0 < |password| < MIN_PASSWORD_LENGTH
    ensures r == None <==> |password| >= MIN_PASSWORD_LENGTH
  {
    if |password| == 0 then Some(PASSWORD_REQUIRED)
    else if |password| < MIN_PASSWORD_LENGTH then Some(PASSWORD_TOO_SHORT)
    else None
  }
}
