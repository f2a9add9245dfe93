/** The banner above every page during the trial, and the dialog that replaces it
  * once the trial has expired. */
module TrialBanner {
  import opened Wrappers
  import opened Profiles
  import opened UpgradeModal

  /** `Math.max(0, 7 - Math.floor((now - start) / (1000 * 60 * 60 * 24)))`. */
  function DaysLeft(now: int, start: int): int {
    var passed := (now - start) / (1000 * 60 * 60 * 24);
    if TRIAL_DAYS - passed > 0 then TRIAL_DAYS - passed else 0
  }

  /** The countdown is never negative, reads 7 for the whole first day, reaches 0 once
    * seven full days have passed, and never goes up as time passes. */
  lemma DaysLeftFacts(now: int, start: int)
    ensures 0 <= DaysLeft(now, start)
    ensures start <= now < start + 86400000 ==> DaysLeft(now, start) == 7
    ensures now >= start + 7 * 86400000 ==> DaysLeft(now, start) == 0
    ensures forall later :: later >= now ==> DaysLeft(later, start) <= DaysLeft(now, start)
  {
    forall later | later >= now ensures DaysLeft(later, start) <= DaysLeft(now, start) {
      DividedMonotone(now - start, later - start);
    }
  }

  lemma DividedMonotone(a: int, b: int)
    requires a <= b
    ensures a / 86400000 <= b / 86400000
  {
  }

  /** What the component renders. */
  datatype Banner =
    | NoBanner
      /** The upgrade dialog, open, with nothing to close it. */
    | ExpiredDialog(dialog: ModalProps)
      /** The countdown line and the upgrade dialog behind "Upgrade Now". */
    | TrialNotice(daysLeft: int, dialog: ModalProps)

  /** The banner for a profile at time `now`; `showUpgrade` is whether "Upgrade Now"
    * has opened the dialog. A profile without a trial start counts from the epoch,
    * as `new Date(null)` does. */
  function BannerOf(profile: Option<Profile>, now: int, showUpgrade: bool): Banner {
    if profile.None? || profile.value.plan == PREMIUM then NoBanner
    else if profile.value.plan == EXPIRED then ExpiredDialog(ModalProps(true, false, false))
    else TrialNotice(DaysLeft(now, profile.value.trialStart.GetOr(0)), ModalProps(showUpgrade, true, true))
  }

  /** No banner without a profile or on the premium plan; an expired plan gets a dialog
    * that is open and cannot be closed; any other plan gets the countdown and a
    * dialog that opens on request and can be closed. */
  lemma BannerMeaning(profile: Option<Profile>, now: int, showUpgrade: bool)
    ensures var b := BannerOf(profile, now, showUpgrade);
      && (b == NoBanner <==> profile.None? || profile.value.plan == PREMIUM)
      && (b.ExpiredDialog? <==> profile.Some? && profile.value.plan == EXPIRED)
      && (b.ExpiredDialog? ==> Renders(b.dialog) && !ShowsClose(b.dialog))
      && (b.TrialNotice? ==> b.daysLeft >= 0 && ShowsClose(b.dialog) && (Renders(b.dialog) <==> showUpgrade))
  {
    if profile.Some? {
      DaysLeftFacts(now, profile.value.trialStart.GetOr(0));
    }
  }

  /** `day${daysLeft !== 1 ? 's' : ''}`. */
  function DayWord(n: int): (r: string)
    ensures r == "day" <==> n == 1
    ensures r == "days" <==> n != 1
  {
    if n != 1 then "days" else "day"
  }
}
