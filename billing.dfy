/** What the two payment flows share: the three steps, the two plans, the request
  * row they insert, and the yearly discount they both advertise. */
module Billing {
  import opened Wrappers

  datatype Step = PlanStep | PaymentStep | SuccessStep

  datatype PlanKind = Monthly | Yearly

  /** A row of the `payment_requests` table. */
  datatype PaymentRequest = PaymentRequest(
    userId: string,
    userEmail: string,
    utrNumber: string,
    planType: PlanKind,
    amount: int,
    status: string)

  const PENDING: string := "pending"

  /** `profile?.email || user.email`: the profile's address unless it is missing or empty. */
  function ContactEmail(profileEmail: Option<string>, userEmail: string): (r: string)
    ensures profileEmail.Some? && profileEmail.value != "" ==> r == profileEmail.value
    ensures profileEmail.None? || profileEmail.value == "" ==> r == userEmail
  {
    if profileEmail.Some? && profileEmail.value != "" then profileEmail.value else userEmail
  }

  /** The whole-percent saving of a year at `yearly` over twelve months at `monthly`,
    * rounded down. */
  function SavingPercent(monthly: nat, yearly: nat): int
    requires monthly > 0
  {
    (100 * (12 * monthly - yearly)) / (12 * monthly)
  }

  /** Both price pairs, 99/699 and 50/350, save 41% rounded down, so the same
    * "Save 41%" badge is right on both screens even though the prices differ. */
  lemma SaveBadgeMatchesBothPrices()
    ensures SavingPercent(99, 699) == 41 && SavingPercent(50, 350) == 41
  {
    assert 100 * (12 * 99 - 699) == 48900 && 41 * 1188 <= 48900 < 42 * 1188;
    assert 100 * (12 * 50 - 350) == 25000 && 41 * 600 <= 25000 < 42 * 600;
  }
}
