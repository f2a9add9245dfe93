/** The sign-up form: password checks, the account request, and the trial profile
  * created for a new account. */
module Signup {
  import opened Wrappers
  import opened Passwords
  import opened Profiles

  const MISMATCH_MESSAGE: string := "Passwords do not match"
  const TOO_SHORT_MESSAGE: string := "Password must be at least 6 characters"

  /** What the auth service answers to `signUp`: an error message, or a result whose
    * user may be absent. */
  datatype SignUpOutcome = SignUpFailed(message: string) | SignedUp(userId: Option<string>)

  /** A row of the `profiles` table with the user it belongs to. */
  datatype ProfileRow = ProfileRow(userId: string, profile: Profile)

  /** The message a failed check shows. */
  function CheckMessage(v: Verdict): (r: string)
    ensures v == Accepted <==> r == ""
    ensures v == Mismatch <==> r == MISMATCH_MESSAGE
    ensures v == TooShort <==> r == TOO_SHORT_MESSAGE
  {
    match v
    case Accepted => ""
    case Mismatch => MISMATCH_MESSAGE
    case TooShort => TOO_SHORT_MESSAGE
  }

  /** The profile a new account starts with: a trial beginning now. */
  function TrialProfile(name: string, email: string, now: int): (p: Profile)
    ensures p.plan == TRIAL && p.trialStart == Some(now)
    ensures p.name == Some(name) && p.email == Some(email)
  {
    Profile(Some(name), Some(email), TRIAL, Some(now))
  }

  class SignupForm {
    var name: string
    var email: string
    var password: string
    var confirm: string
    var error: string
    var loading: bool
    /** The (email, password) pairs sent to the auth service. */
    var requests: seq<(string, string)>
    /** The `profiles` table as this form sees it. */
    var profiles: seq<ProfileRow>
    var navigated: bool

    constructor(profiles: seq<ProfileRow>)
      ensures this.profiles == profiles
      ensures name == "" && email == "" && password == "" && confirm == ""
      ensures error == "" && !loading && requests == [] && !navigated
    {
      this.profiles := profiles;
      name, email, password, confirm := "", "", "", "";
      error, loading, requests, navigated := "", false, [], false;
    }

    method Edit(name: string, email: string, password: string, confirm: string)
      modifies this`name, this`email, this`password, this`confirm
      ensures this.name == name && this.email == email && this.password == password && this.confirm == confirm
    {
      this.name, this.email, this.password, this.confirm := name, email, password, confirm;
    }

    /** Every input carries `required`, so the browser submits the form only when all
      * four fields are filled in. */
    predicate Filled()
      reads this
    {
      name != "" && email != "" && password != "" && confirm != ""
    }

    /** "Create Account". With an empty field the browser does not submit. Otherwise
      * the error is cleared first; a failed check shows its message and sends nothing;
      * otherwise the account is requested, and a refusal shows the service's message.
      * A created user gets a trial profile starting `now` when the profile insert
      * succeeds (`profileAccepted`); its result is not looked at, and the page moves
      * on to the dashboard either way. */
    method Submit(outcome: SignUpOutcome, profileAccepted: bool, now: int)
      modifies this`error, this`loading, this`requests, this`profiles, this`navigated
      ensures !Filled() ==>
        && error == old(error) && loading == old(loading) && requests == old(requests)
        && profiles == old(profiles) && navigated == old(navigated)
      ensures var v := CheckPasswords(password, confirm);
        && (Filled() && v != Accepted ==>
              (error == CheckMessage(v) && requests == old(requests)
               && profiles == old(profiles) && loading == old(loading) && navigated == old(navigated)))
        && (Filled() && v == Accepted ==> requests == old(requests) + [(email, password)] && !loading)
        && (Filled() && v == Accepted && outcome.SignUpFailed? ==>
              (error == outcome.message && profiles == old(profiles) && navigated == old(navigated)))
        && (Filled() && v == Accepted && outcome.SignedUp? ==> error == "")
        && (Filled() && v == Accepted && outcome.SignedUp? && outcome.userId.Some? ==>
              (profiles == old(profiles) +
                 (if profileAccepted then [ProfileRow(outcome.userId.value, TrialProfile(name, email, now))] else [])
               && navigated))
        && (Filled() && v == Accepted && outcome.SignedUp? && outcome.userId.None? ==>
              (profiles == old(profiles) && navigated == old(navigated)))
    {
      if !Filled() {
        return;
      }
      error := "";
      var v := CheckPasswords(password, confirm);
      if v == Mismatch {
        error := MISMATCH_MESSAGE;
        return;
      }
      if v == TooShort {
        error := TOO_SHORT_MESSAGE;
        return;
      }
      loading := true;
      requests := requests + [(email, password)];
      match outcome {
        case SignUpFailed(message) =>
          error := message;
          loading := false;
          return;
        case SignedUp(userId) =>
          if userId.Some? {
            if profileAccepted {
              profiles := profiles + [ProfileRow(userId.value, TrialProfile(name, email, now))];
            }
            navigated := true;
          }
      }
      loading := false;
    }
  }
}
