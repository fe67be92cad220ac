/** The staff handlers of server/controllers/staffController.js and their copies in
    server/staff-controllers/staffController.js: the transactional purchase, the customer
    list and the customer detail page. (`getCustomerByHash` and `addCustomerPoints` are in
    `ExistingRoutes`, `getUserRedemptions` in `StaffRedemptions`, `processRedemptions` is
    `Batch.ProcessPendingRedemptions`, `getTransactions` is in `ClassicStaffTransactions`.) */
module StaffController {
  import opened Util
  import opened Tables
  import opened Stores

  // ------------------------------------------------------------------
  // processPurchase: one database transaction
  // ------------------------------------------------------------------

  /** Which step of the unit of work throws, if any: the log INSERT or the COMMIT. */
  datatype PurchaseFault = NoFault | InsertFails | CommitFails

  datatype TxPurchaseReply =
    | InvalidPurchase                          // 400 "Invalid purchase details"
    | PurchaseProcessed(transactionId: int)    // 200 "Purchase processed successfully"
    | PurchaseError                            // 500 after the rollback

  predicate InvalidPurchaseInput(userID: Option<int>, costOfPurchase: Option<int>)
  {
    FalsyInt(userID) || FalsyInt(costOfPurchase) || costOfPurchase.value <= 0
  }

  /** `processPurchase`: BEGIN; credit the customer; log the purchase; COMMIT. When the
      UPDATE reaches no row, or a later step throws, the ROLLBACK restores both tables. An
      AUTO_INCREMENT value handed out before a failed COMMIT stays used. */
  method ProcessPurchase(s: Store, userID: Option<int>, costOfPurchase: Option<int>, now: int, fault: PurchaseFault)
    returns (reply: TxPurchaseReply)
    requires s.Valid()
    modifies s
    ensures s.Valid()
    ensures s.rewards == old(s.rewards) && s.redemptions == old(s.redemptions)
    ensures s.nextUserID == old(s.nextUserID) && s.nextRewardID == old(s.nextRewardID) && s.nextRedeemID == old(s.nextRedeemID)
    ensures InvalidPurchaseInput(userID, costOfPurchase) ==>
              reply == InvalidPurchase && s.users == old(s.users) && s.transactions == old(s.transactions)
              && s.nextTransactionID == old(s.nextTransactionID)
    ensures !InvalidPurchaseInput(userID, costOfPurchase) ==>
              var id := userID.value;
              var cost := costOfPurchase.value;
              if UsersWithId(old(s.users), id) == 0 || fault != NoFault then
                && reply == PurchaseError && s.users == old(s.users) && s.transactions == old(s.transactions)
                && s.nextTransactionID == old(s.nextTransactionID) + (if UsersWithId(old(s.users), id) != 0 && fault == CommitFails then 1 else 0)
              else
                && reply == PurchaseProcessed(old(s.nextTransactionID))
                && s.users == CreditUser(old(s.users), id, AbsPoints(cost))
                && s.transactions == old(s.transactions) + [TxRow(old(s.nextTransactionID), id, cost, AbsPoints(cost), now, None)]
    // all or nothing: both tables change, or neither does
    ensures || (s.users == old(s.users) && s.transactions == old(s.transactions))
            || (&& !InvalidPurchaseInput(userID, costOfPurchase)
                && s.users == CreditUser(old(s.users), userID.value, AbsPoints(costOfPurchase.value))
                && s.transactions == old(s.transactions)
                     + [TxRow(old(s.nextTransactionID), userID.value, costOfPurchase.value, AbsPoints(costOfPurchase.value), now, None)])
  {
    if FalsyInt(userID) || FalsyInt(costOfPurchase) || costOfPurchase.value <= 0 {
      return InvalidPurchase;
    }
    var id, cost := userID.value, costOfPurchase.value;
    var pointsToAdd := AbsPoints(cost);
    // The unit of work is one atomic step: a rolled-back attempt leaves no trace but the
    // AUTO_INCREMENT value its INSERT consumed.
    if UsersWithId(s.users, id) == 0 || fault == InsertFails {
      return PurchaseError;
    }
    if fault == CommitFails {
      s.nextTransactionID := s.nextTransactionID + 1;
      return PurchaseError;
    }
    s.CreditPoints(id, pointsToAdd);
    var transactionId := s.LogTransaction(id, cost, pointsToAdd, now, None);
    if transactionId == 0 {
      // `!insertResult.insertId`: AUTO_INCREMENT ids start at 1
      assert false;
    }
    reply := PurchaseProcessed(transactionId);
  }

  /** What a committed purchase does to the customer's row: the balance and the lifetime
      total both rise by |floor(cost / 50)|, which for a positive cost is floor(cost / 50). */
  lemma CommittedPurchaseCredit(us: seq<User>, id: int, cost: int, k: nat)
    requires UniqueUserIds(us) && k < |us| && us[k].userID == id && cost > 0
    ensures UsersWithId(us, id) != 0
    ensures CreditUser(us, id, AbsPoints(cost))[k].pointsBalance == us[k].pointsBalance + cost / 50
    ensures CreditUser(us, id, AbsPoints(cost))[k].totalEarnedLifetime == us[k].totalEarnedLifetime + cost / 50
    ensures forall j :: 0 <= j < |us| && j != k ==> CreditUser(us, id, AbsPoints(cost))[j] == us[j]
  {
    UsersWithIdZero(us, id);
    FindUserUnique(us, id, k);
    CreditUserEffect(us, id, AbsPoints(cost), k);
    PointsRules(cost);
  }

  // ------------------------------------------------------------------
  // getAllUsers
  // ------------------------------------------------------------------

  /** `SELECT userID, name, email, qrcode`. */
  datatype UserSummary = UserSummary(userID: int, name: string, email: string, qrcode: Option<string>)

  predicate IsCustomer(u: User) { u.role == Customer }

  function SummaryOf(u: User): UserSummary { UserSummary(u.userID, u.name, u.email, u.qrcode) }

  /** `getAllUsers`: `WHERE role = 'customer'`, in table order. */
  function GetAllUsers(users: seq<User>): (r: seq<UserSummary>)
    ensures |r| <= |users|
    ensures forall k :: 0 <= k < |r| ==> exists j :: 0 <= j < |users| && IsCustomer(users[j]) && r[k] == SummaryOf(users[j])
    ensures forall j :: 0 <= j < |users| && IsCustomer(users[j]) ==> SummaryOf(users[j]) in r
  {
    var customers := Filter(users, IsCustomer);
    assert forall k :: 0 <= k < |customers| ==> exists j :: 0 <= j < |users| && users[j] == customers[k];
    Project(customers, SummaryOf)
  }

  /** With unique ids, no staff or admin account is ever listed. */
  lemma GetAllUsersOnlyCustomers(users: seq<User>, j: nat)
    requires UniqueUserIds(users) && j < |users| && !IsCustomer(users[j])
    ensures forall k :: 0 <= k < |GetAllUsers(users)| ==> GetAllUsers(users)[k].userID != users[j].userID
  {
    var r := GetAllUsers(users);
    forall k | 0 <= k < |r| ensures r[k].userID != users[j].userID {
      var i :| 0 <= i < |users| && IsCustomer(users[i]) && r[k] == SummaryOf(users[i]);
      assert i != j;
    }
  }

  // ------------------------------------------------------------------
  // getUserById
  // ------------------------------------------------------------------

  /** One entry of the customer's `transactions`. */
  datatype UserTx = UserTx(id: int, date: int, points: int, payment: int)

  /** The customer detail: `{ ...user[0], transactions }`. */
  datatype UserDetail = UserDetail(userID: int, name: string, email: string, dateJoined: int,
                                   pointsBalance: int, transactions: seq<UserTx>)

  function TxOfUser(userId: int): TxRow -> bool
  {
    (t: TxRow) => t.userID == userId
  }

  function UserTxOf(t: TxRow): UserTx { UserTx(t.transactionID, t.date, t.pointsChange, t.paymentAmount) }

  function UserTxDate(x: UserTx): int { x.date }

  /** `e` comes from one of the user's log rows. */
  ghost predicate FromUserRow(ts: seq<TxRow>, userId: int, e: UserTx)
  {
    exists j :: 0 <= j < |ts| && ts[j].userID == userId && e == UserTxOf(ts[j])
  }

  /** `SELECT * FROM transactions WHERE userID = ? ORDER BY date DESC`. */
  function UserTxs(ts: seq<TxRow>, userId: int): (r: seq<UserTx>)
    ensures SortedDesc(r, UserTxDate)
    ensures |r| == |Filter(ts, TxOfUser(userId))|
    ensures forall k :: 0 <= k < |r| ==> FromUserRow(ts, userId, r[k])
    ensures forall j :: 0 <= j < |ts| && ts[j].userID == userId ==> UserTxOf(ts[j]) in r
  {
    var mine := Filter(ts, TxOfUser(userId));
    var rows := Project(mine, UserTxOf);
    assert forall k :: 0 <= k < |rows| ==> FromUserRow(ts, userId, rows[k]) by {
      forall k | 0 <= k < |rows| ensures FromUserRow(ts, userId, rows[k]) {
        var j :| 0 <= j < |ts| && ts[j] == mine[k];
      }
    }
    var sorted := SortDesc(rows, UserTxDate);
    SameElements(sorted, rows);
    Inherits(rows, sorted, (e: UserTx) => FromUserRow(ts, userId, e));
    sorted
  }

  /** `getUserById`: None is the 404; otherwise the first user row with the id and all of that
      user's log rows, newest first. */
  function GetUserById(users: seq<User>, ts: seq<TxRow>, userId: int): (r: Option<UserDetail>)
    ensures r.None? <==> FindUser(users, userId).None?
    ensures r.Some? ==>
              var u := users[FindUser(users, userId).value];
              && r.value.(transactions := []) == UserDetail(u.userID, u.name, u.email, u.dateJoined, u.pointsBalance, [])
              && SortedDesc(r.value.transactions, UserTxDate)
              && |r.value.transactions| == |Filter(ts, TxOfUser(userId))|
              && (forall k :: 0 <= k < |r.value.transactions| ==> FromUserRow(ts, userId, r.value.transactions[k]))
              && (forall j :: 0 <= j < |ts| && ts[j].userID == userId ==> UserTxOf(ts[j]) in r.value.transactions)
  {
    match FindUser(users, userId)
    case None => None
    case Some(i) =>
      var u := users[i];
      Some(UserDetail(u.userID, u.name, u.email, u.dateJoined, u.pointsBalance, UserTxs(ts, userId)))
  }
}
