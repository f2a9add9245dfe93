/** The payment page shown to accounts without access: the same plan, payment and
  * confirmation steps as the upgrade dialog, at its own prices, and stopping on an
  * insert error. */
module PaymentPage {
  import opened Wrappers
  import opened Text
  import opened Billing
  import UpgradeModal

  /** The page's prices, in rupees. */
  function Price(plan: PlanKind): (r: int)
    ensures r == if plan == Monthly then 99 else 699
  {
    match plan
    case Monthly => 99
    case Yearly => 699
  }

  /** The page asks more than the upgrade dialog for either plan. */
  lemma PricesDisagree(plan: PlanKind)
    ensures Price(plan) > UpgradeModal.Price(plan)
    ensures Price(plan) - UpgradeModal.Price(plan) == if plan == Monthly then 49 else 349
  {
  }

  class Page {
    /** The signed-in user's id, if any. */
    const userId: Option<string>
    const profileEmail: Option<string>
    const userEmail: string
    var step: Step
    var selectedPlan: PlanKind
    var utr: string
    var submitting: bool
    /** The rows this page has added to the `payment_requests` table. */
    var requests: seq<PaymentRequest>

    constructor(userId: Option<string>, profileEmail: Option<string>, userEmail: string)
      ensures this.userId == userId && this.profileEmail == profileEmail && this.userEmail == userEmail
      ensures step == PlanStep && selectedPlan == Yearly && utr == "" && !submitting && requests == []
    {
      this.userId := userId;
      this.profileEmail := profileEmail;
      this.userEmail := userEmail;
      step, selectedPlan, utr, submitting := PlanStep, Yearly, "", false;
      requests := [];
    }

    function Amount(): int
      reads this
    {
      Price(selectedPlan)
    }

    /** The submit button is disabled while the reference is blank or a submit is running. */
    predicate SubmitDisabled()
      reads this
    {
      Trim(utr) == "" || submitting
    }

    method SelectPlan(plan: PlanKind)
      modifies this`selectedPlan
      ensures selectedPlan == plan
    {
      selectedPlan := plan;
    }

    /** "Proceed to Pay": from choosing a plan to paying. */
    method Proceed()
      modifies this`step
      ensures step == PaymentStep
    {
      step := PaymentStep;
    }

    /** "Back": from paying to choosing a plan. */
    method Back()
      modifies this`step
      ensures step == PlanStep
    {
      step := PlanStep;
    }

    method EnterUtr(text: string)
      modifies this`utr
      ensures utr == text
    {
      utr := text;
    }

    /** Record a pending payment request for the trimmed reference and the selected
      * plan's amount. Nothing happens when the reference is blank or nobody is signed
      * in; when the insert fails (`accepted` false) the page stays on the payment step
      * with the button enabled again. */
    method Submit(accepted: bool)
      modifies this`step, this`submitting, this`requests
      ensures Trim(utr) == "" || userId.None? ==>
        step == old(step) && submitting == old(submitting) && requests == old(requests)
      ensures Trim(utr) != "" && userId.Some? && !accepted ==>
        step == old(step) && !submitting && requests == old(requests)
      ensures Trim(utr) != "" && userId.Some? && accepted ==>
        && requests == old(requests) +
             [PaymentRequest(userId.value, ContactEmail(profileEmail, userEmail),
                             Trim(utr), selectedPlan, Price(selectedPlan), PENDING)]
        && step == SuccessStep && !submitting
    {
      var reference := Trim(utr);
      if reference == "" || userId.None? {
        return;
      }
      submitting := true;
      if !accepted {
        submitting := false;
        return;
      }
      var request := PaymentRequest(userId.value, ContactEmail(profileEmail, userEmail),
                                    reference, selectedPlan, Amount(), PENDING);
      requests := requests + [request];
      submitting := false;
      step := SuccessStep;
    }
  }
}
