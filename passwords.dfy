/** The password rule shared by sign-up and password reset: the two entries must agree,
  * and only then is the length looked at. */
module Passwords {

  /** The shortest password either form accepts. */
  const MIN_PASSWORD_LENGTH: nat := 6

  /** The outcome of the two checks, in the order the forms run them. */
  datatype Verdict = Accepted | Mismatch | TooShort

  function CheckPasswords(password: string, confirm: string): (v: Verdict)
    ensures v == Accepted <==> password == confirm && |password| >= MIN_PASSWORD_LENGTH
    ensures v == Mismatch <==> password != confirm
    ensures v == TooShort <==> password == confirm && |password| < MIN_PASSWORD_LENGTH
  {
    if password != confirm then Mismatch
    else if |password| < MIN_PASSWORD_LENGTH then TooShort
    else Accepted
  }
}
