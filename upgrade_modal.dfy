/** The upgrade dialog: choose a plan, pay by UPI, submit the transaction reference,
  * see the confirmation. */
module UpgradeModal {
  import opened Wrappers
  import opened Text
  import opened Billing

  /** The dialog's inputs: whether it is open, whether the caller passed a close
    * handler, and whether it may be dismissed (true unless the caller says otherwise). */
  datatype ModalProps = ModalProps(open: bool, hasOnClose: bool, dismissable: bool)

  /** Nothing at all is rendered while the dialog is closed. */
  predicate Renders(p: ModalProps) {
    p.open
  }

  /** The close button needs both permission to dismiss and a handler to call. */
  predicate ShowsClose(p: ModalProps) {
    p.dismissable && p.hasOnClose
  }

  /** The dialog's prices, in rupees. */
  function Price(plan: PlanKind): (r: int)
    ensures r == if plan == Monthly then 50 else 350
  {
    match plan
    case Monthly => 50
    case Yearly => 350
  }

  class Modal {
    const props: ModalProps
    /** The signed-in user's id, if any. */
    const userId: Option<string>
    const profileEmail: Option<string>
    const userEmail: string
    var step: Step
    var selectedPlan: PlanKind
    var utr: string
    var submitting: bool
    /** The rows this dialog has added to the `payment_requests` table. */
    var requests: seq<PaymentRequest>
    /** How many times the caller's close handler has been called. */
    var closeCalls: nat

    constructor(props: ModalProps, userId: Option<string>, profileEmail: Option<string>, userEmail: string)
      ensures this.props == props && this.userId == userId
      ensures this.profileEmail == profileEmail && this.userEmail == userEmail
      ensures step == PlanStep && selectedPlan == Yearly && utr == "" && !submitting
      ensures requests == [] && closeCalls == 0
    {
      this.props := props;
      this.userId := userId;
      this.profileEmail := profileEmail;
      this.userEmail := userEmail;
      step, selectedPlan, utr, submitting := PlanStep, Yearly, "", false;
      requests, closeCalls := [], 0;
    }

    /** The amount to pay for the selected plan. */
    function Amount(): int
      reads this
    {
      Price(selectedPlan)
    }

    /** The submit button is disabled while the reference is blank or a submit is running. */
    predicate SubmitDisabled()
      reads this
    {
      Trim(utr) == "" || submitting
    }

    method SelectPlan(plan: PlanKind)
      modifies this`selectedPlan
      ensures selectedPlan == plan
    {
      selectedPlan := plan;
    }

    /** "Proceed to Pay". */
    method Proceed()
      modifies this`step
      ensures step == PaymentStep
    {
      step := PaymentStep;
    }

    method EnterUtr(text: string)
      modifies this`utr
      ensures utr == text
    {
      utr := text;
    }

    /** Record the payment request and show the confirmation. Nothing happens when the
      * reference is blank or nobody is signed in. Whether the insert succeeded is
      * `accepted`; the dialog ignores it and moves to the confirmation either way. */
    method Submit(accepted: bool)
      modifies this`step, this`submitting, this`requests
      ensures Trim(utr) == "" || userId.None? ==>
        step == old(step) && submitting == old(submitting) && requests == old(requests)
      ensures Trim(utr) != "" && userId.Some? ==>
        && requests == old(requests) +
             (if accepted then [PaymentRequest(userId.value, ContactEmail(profileEmail, userEmail),
                                               Trim(utr), selectedPlan, Price(selectedPlan), PENDING)]
              else [])
        && step == SuccessStep && !submitting
    {
      var reference := Trim(utr);
      if reference == "" || userId.None? {
        return;
      }
      submitting := true;
      if accepted {
        var request := PaymentRequest(userId.value, ContactEmail(profileEmail, userEmail),
                                      reference, selectedPlan, Amount(), PENDING);
        requests := requests + [request];
      }
      submitting := false;
      step := SuccessStep;
    }

    /** The close button, shown only when the dialog may be dismissed and has a
      * handler: it calls the handler. */
    method Close()
      requires ShowsClose(props)
      modifies this`closeCalls
      ensures closeCalls == old(closeCalls) + 1
    {
      closeCalls := closeCalls + 1;
    }

    /** "Back to Dashboard" on the confirmation: start over with an empty reference,
      * keep the chosen plan, and call the close handler if there is one. */
    method BackToDashboard()
      modifies this`step, this`utr, this`closeCalls
      ensures step == PlanStep && utr == ""
      ensures closeCalls == old(closeCalls) + if props.hasOnClose then 1 else 0
    {
      step := PlanStep;
      utr := "";
      if props.hasOnClose {
        closeCalls := closeCalls + 1;
      }
    }
  }
}
