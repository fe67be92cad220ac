/** The QR lookup and the non-transactional point credit of
    server/staff-controllers/existingRoutes.js (also present, unchanged, in
    server/controllers/staffController.js). */
module ExistingRoutes {
  import opened Util
  import opened Tables
  import opened Stores

  /** `SELECT userID, name, totalEarnedLifetime`. */
  datatype CustomerCard = CustomerCard(userID: int, name: string, totalEarnedLifetime: int)

  /** `getCustomerByHash`: the first user row whose qrcode is `qrHash`; None is the 404. */
  function GetCustomerByHash(users: seq<User>, qrHash: string): (r: Option<CustomerCard>)
    ensures r.None? <==> forall k :: 0 <= k < |users| ==> users[k].qrcode != Some(qrHash)
    ensures r.Some? ==>
              exists k :: && 0 <= k < |users| && users[k].qrcode == Some(qrHash)
                          && (forall j :: 0 <= j < k ==> users[j].qrcode != Some(qrHash))
                          && r.value == CustomerCard(users[k].userID, users[k].name, users[k].totalEarnedLifetime)
  {
    match FirstIndex(users, (u: User) => u.qrcode == Some(qrHash))
    case None => None
    case Some(k) => Some(CustomerCard(users[k].userID, users[k].name, users[k].totalEarnedLifetime))
  }

  datatype AddPointsReply =
    | InvalidAmount                // 400 "Invalid payment amount"
    | PointsAdded(pointsAdded: int) // 200 "Points added successfully"
    | AddPointsError               // 500 "Error adding points"

  /** `addCustomerPoints`: an UPDATE and then an INSERT, with no transaction around them and
      no check that the customer exists. `insertFails` says whether the INSERT throws; the
      credit is then already in place. */
  method AddCustomerPoints(s: Store, customerID: int, paymentAmount: Option<int>, now: int, insertFails: bool)
    returns (reply: AddPointsReply)
    requires s.Valid()
    modifies s
    ensures s.Valid()
    ensures s.rewards == old(s.rewards) && s.redemptions == old(s.redemptions)
    ensures FalsyInt(paymentAmount) || paymentAmount.value <= 0 ==>
              reply == InvalidAmount && s.users == old(s.users) && s.transactions == old(s.transactions)
    ensures !(FalsyInt(paymentAmount) || paymentAmount.value <= 0) ==>
              var amount := paymentAmount.value;
              && s.users == CreditUser(old(s.users), customerID, FloorPoints(amount))
              && (insertFails ==> reply == AddPointsError && s.transactions == old(s.transactions))
              && (!insertFails ==>
                    && reply == PointsAdded(FloorPoints(amount))
                    && s.transactions == old(s.transactions)
                         + [TxRow(old(s.nextTransactionID), customerID, amount, FloorPoints(amount), now, Some("Purchase"))])
  {
    if FalsyInt(paymentAmount) || paymentAmount.value <= 0 {
      return InvalidAmount;
    }
    var pointsToAdd := FloorPoints(paymentAmount.value);
    s.CreditPoints(customerID, pointsToAdd);
    if insertFails {
      return AddPointsError;
    }
    var _ := s.LogTransaction(customerID, paymentAmount.value, pointsToAdd, now, Some("Purchase"));
    reply := PointsAdded(pointsToAdd);
  }

  /** The reported points are never negative and discard the remainder below 50; for an
      unknown customer the UPDATE changes no row, yet the purchase row is still logged. */
  lemma AddCustomerPointsShape(us: seq<User>, customerID: int, amount: int)
    requires amount > 0
    ensures 0 <= FloorPoints(amount) && 50 * FloorPoints(amount) <= amount < 50 * FloorPoints(amount) + 50
    ensures FindUser(us, customerID).None? ==> CreditUser(us, customerID, FloorPoints(amount)) == us
  {
    if FindUser(us, customerID).None? {
      assert forall k :: 0 <= k < |us| ==> CreditUser(us, customerID, FloorPoints(amount))[k] == us[k];
    }
  }
}
