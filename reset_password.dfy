/** The reset-password page reached from the recovery e-mail. */
module ResetPassword {
  import opened Wrappers
  import opened Text
  import opened Passwords

  const RECOVERY_MARKER: string := "type=recovery"
  const INVALID_LINK_MESSAGE: string := "Invalid or expired reset link."
  const MISMATCH_MESSAGE: string := "Passwords do not match"
  const TOO_SHORT_MESSAGE: string := "Minimum 6 characters"

  /** The link is a recovery link when its fragment mentions `type=recovery`. */
  predicate IsRecoveryLink(hash: string) {
    Contains(hash, RECOVERY_MARKER)
  }

  /** The marker may sit anywhere in the fragment. */
  lemma RecoveryLinkMeaning(hash: string)
    ensures IsRecoveryLink(hash) <==> exists i :: OccursAt(hash, RECOVERY_MARKER, i)
  {
    ContainsMeaning(hash, RECOVERY_MARKER);
  }

  /** What the page shows: the form, or only the invalid-link message. */
  datatype Screen = Form | InvalidLink(message: string)

  class ResetForm {
    /** `window.location.hash` when the page opened. */
    const hash: string
    var valid: bool
    var password: string
    var confirm: string
    var error: string
    var loading: bool
    /** The new passwords sent to the auth service. */
    var updates: seq<string>
    var navigated: bool

    constructor(hash: string)
      ensures this.hash == hash && !valid
      ensures password == "" && confirm == "" && error == "" && !loading
      ensures updates == [] && !navigated
    {
      this.hash := hash;
      valid := false;
      password, confirm, error, loading := "", "", "", false;
      updates, navigated := [], false;
    }

    /** The mount effect: accept the link if it is a recovery link. */
    method CheckLink()
      modifies this`valid
      ensures valid == (old(valid) || IsRecoveryLink(hash))
    {
      if Contains(hash, RECOVERY_MARKER) {
        valid := true;
      }
    }

    function ScreenShown(): (s: Screen)
      reads this
      ensures s == Form <==> valid
      ensures !valid ==> s == InvalidLink(INVALID_LINK_MESSAGE)
    {
      if !valid then InvalidLink(INVALID_LINK_MESSAGE) else Form
    }

    method Edit(password: string, confirm: string)
      modifies this`password, this`confirm
      ensures this.password == password && this.confirm == confirm
    {
      this.password, this.confirm := password, confirm;
    }

    /** Both inputs carry `required`, so the browser submits only when both are filled. */
    predicate Filled()
      reads this
    {
      password != "" && confirm != ""
    }

    /** "Update Password", offered only on the form. With an empty field the browser
      * does not submit. Otherwise a failed check shows its message; otherwise the new
      * password is sent, and a refusal (`failure`) shows the service's message while
      * success leaves for the dashboard. Unlike sign-up the previous error is not
      * cleared first. */
    method Submit(failure: Option<string>)
      requires valid
      modifies this`error, this`loading, this`updates, this`navigated
      ensures !Filled() ==>
        error == old(error) && loading == old(loading) && updates == old(updates) && navigated == old(navigated)
      ensures var v := CheckPasswords(password, confirm);
        && (Filled() && v == Mismatch ==> error == MISMATCH_MESSAGE)
        && (Filled() && v == TooShort ==> error == TOO_SHORT_MESSAGE)
        && (Filled() && v != Accepted ==> updates == old(updates) && loading == old(loading) && navigated == old(navigated))
        && (Filled() && v == Accepted ==> updates == old(updates) + [password])
        && (Filled() && v == Accepted && failure.Some? ==> error == failure.value && !loading && navigated == old(navigated))
        && (Filled() && v == Accepted && failure.None? ==> error == old(error) && loading && navigated)
    {
      if !Filled() {
        return;
      }
      if password != confirm {
        error := MISMATCH_MESSAGE;
        return;
      }
      if |password| < MIN_PASSWORD_LENGTH {
        error := TOO_SHORT_MESSAGE;
        return;
      }
      loading := true;
      updates := updates + [password];
      if failure.Some? {
        error := failure.value;
        loading := false;
        return;
      }
      navigated := true;
    }
  }
}
