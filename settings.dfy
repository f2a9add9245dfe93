/** The subscription panel of the settings page: plan label and badge, the days left
  * in the trial, and the upgrade button. */
module Settings {
  import opened Wrappers
  import opened Profiles
  import TrialBanner

  /** `profile?.trial_start_date ? Math.max(0, 7 - Math.floor((Date.now() - start) / 86400000)) : 0`. */
  function TrialDaysLeft(profile: Option<Profile>, now: int): int {
    if profile.Some? && profile.value.trialStart.Some? then
      var passed := (now - profile.value.trialStart.value) / 86400000;
      if TRIAL_DAYS - passed > 0 then TRIAL_DAYS - passed else 0
    else 0
  }

  /** The settings page and the banner count down alike: 0 without a start date, and
    * otherwise the banner's number, never negative. */
  lemma TrialDaysLeftAgrees(profile: Option<Profile>, now: int)
    ensures profile.None? || profile.value.trialStart.None? ==> TrialDaysLeft(profile, now) == 0
    ensures profile.Some? && profile.value.trialStart.Some? ==>
      TrialDaysLeft(profile, now) == TrialBanner.DaysLeft(now, profile.value.trialStart.value)
    ensures TrialDaysLeft(profile, now) >= 0
  {
    assert 1000 * 60 * 60 * 24 == 86400000;
  }

  function PlanOf(profile: Option<Profile>): Option<string> {
    if profile.Some? then Some(profile.value.plan) else None
  }

  function PlanLabel(profile: Option<Profile>): string {
    if PlanOf(profile) == Some(TRIAL) then "Free Trial"
    else if PlanOf(profile) == Some(PREMIUM) then "Premium"
    else "Expired"
  }

  datatype Badge = SuccessBadge | DestructiveBadge | PrimaryBadge

  function BadgeOf(profile: Option<Profile>): Badge {
    if PlanOf(profile) == Some(PREMIUM) then SuccessBadge
    else if PlanOf(profile) == Some(EXPIRED) then DestructiveBadge
    else PrimaryBadge
  }

  /** "Upgrade to Premium" is offered unless the plan is premium. */
  predicate ShowsUpgrade(profile: Option<Profile>) {
    PlanOf(profile) != Some(PREMIUM)
  }

  /** The "days left" text is shown on the trial plan only. */
  predicate ShowsDaysLeft(profile: Option<Profile>) {
    PlanOf(profile) == Some(TRIAL)
  }

  /** The panel's parts agree: the success badge goes with the "Premium" label and no
    * upgrade button, the days-left text with the "Free Trial" label, and a plan the
    * page does not know (or no profile) reads "Expired" under the primary badge. */
  lemma PanelConsistent(profile: Option<Profile>)
    ensures BadgeOf(profile) == SuccessBadge <==> PlanLabel(profile) == "Premium"
    ensures ShowsUpgrade(profile) <==> BadgeOf(profile) != SuccessBadge
    ensures ShowsDaysLeft(profile) <==> PlanLabel(profile) == "Free Trial"
    ensures BadgeOf(profile) == DestructiveBadge ==> PlanLabel(profile) == "Expired"
    ensures PlanOf(profile) !in {Some(TRIAL), Some(PREMIUM), Some(EXPIRED)} ==>
      PlanLabel(profile) == "Expired" && BadgeOf(profile) == PrimaryBadge && ShowsUpgrade(profile)
  {
  }
}
