/** The purchase dialog of client/src/components/ProcessPurchase.jsx: a customer name and a
    cost typed as text, checked before the purchase is handed to the page that posts it. */
module PurchaseForm {
  import opened Util
  import opened StaffController

  const PurchaseFormError := "Please fill in all fields correctly. Cost of Purchase must be a positive number."

  /** What `onProcess` receives: `{ customerName, costOfPurchase: parsedCost }`. */
  datatype PurchaseInput = PurchaseInput(customerName: string, costOfPurchase: int)

  /** `handleProcess`'s check: a name that is not blank and a cost that `Number` reads as a
      positive number. */
  function CheckedCost(customerName: string, cost: string): (r: Option<int>)
    ensures r.Some? <==> Trim(customerName) != "" && ToNumber(cost).Some? && ToNumber(cost).value > 0
    ensures r.Some? ==> r == ToNumber(cost)
  {
    if Trim(customerName) == "" then None
    else match ToNumber(cost)
      case None => None
      case Some(v) => if v <= 0 then None else Some(v)
  }

  class PurchaseDialog {
    var customerName: string
    var costOfPurchase: string
    var error: Option<string>

    constructor ()
      ensures customerName == "" && costOfPurchase == "" && error == None
    {
      customerName, costOfPurchase, error := "", "", None;
    }

    /** `handleProcess`: on a failed check only the error is set; otherwise the purchase is
        handed on, both fields are cleared and the dialog closes (`submitted.Some?`). */
    method Process() returns (submitted: Option<PurchaseInput>)
      modifies this
      ensures var c := CheckedCost(old(customerName), old(costOfPurchase));
        if c.None? then
          && submitted == None && error == Some(PurchaseFormError)
          && customerName == old(customerName) && costOfPurchase == old(costOfPurchase)
        else
          && submitted == Some(PurchaseInput(old(customerName), c.value)) && error == None
          && customerName == "" && costOfPurchase == ""
    {
      error := None;
      var c := CheckedCost(customerName, costOfPurchase);
      if c.None? {
        error := Some(PurchaseFormError);
        return None;
      }
      submitted := Some(PurchaseInput(customerName, c.value));
      customerName, costOfPurchase := "", "";
    }
  }

  /** Any positive whole amount typed in digits passes the check with its value. */
  lemma DigitsAccepted(customerName: string, n: nat)
    requires Trim(customerName) != "" && n > 0
    ensures CheckedCost(customerName, NatToString(n)) == Some(n)
  {
    ToNumberOfNatToString(n);
  }

  /** A blank cost reads as 0 and is refused, as is a blank name. */
  lemma BlankRefused(customerName: string, cost: string)
    requires Trim(customerName) == "" || Trim(cost) == ""
    ensures CheckedCost(customerName, cost) == None
  {
  }

  /** A cost the dialog lets through never meets the purchase handler's 400 check, for any
      selected customer id other than 0. */
  lemma SubmittedCostPassesServerCheck(customerName: string, cost: string, userID: int)
    requires CheckedCost(customerName, cost).Some? && userID != 0
    ensures !InvalidPurchaseInput(Some(userID), CheckedCost(customerName, cost))
  {
  }
}
