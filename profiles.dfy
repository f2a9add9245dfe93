/** The `profiles` row the trial and subscription screens read. */
module Profiles {
  import opened Wrappers

  const TRIAL: string := "trial"
  const PREMIUM: string := "premium"
  const EXPIRED: string := "expired"

  /** Days in the free trial. */
  const TRIAL_DAYS: int := 7

  /** `trialStart` is epoch milliseconds. */
  datatype Profile = Profile(name: Option<string>, email: Option<string>, plan: string, trialStart: Option<int>)
}
