/** The older admin handlers of server/controllers/adminController.js. They were written
    against a `customers` table keyed by `customerID`; here that table is the customer rows
    of `users` (`Tables.CustomerRows`) and `customerID` is `userID`. */
module AdminController {
  import opened Util
  import opened Tables
  import opened Stores
  import AdminHome

  // ------------------------------------------------------------------
  // adminDashboard
  // ------------------------------------------------------------------

  /** The text MySQL stores in `redemption.redeemStatus`. */
  function StatusText(st: RedeemStatus): (t: string)
    ensures t in {"pending", "completed", "denied"}
  {
    match st
    case Pending => "pending"
    case Completed => "completed"
    case Denied => "denied"
  }

  /** `SELECT COUNT(*) FROM redemption WHERE redeemStatus = <text>`. */
  function CountStatusText(rs: seq<Redemption>, text: string): (n: nat)
    ensures n <= |rs|
  {
    if rs == [] then 0
    else (if StatusText(rs[0].redeemStatus) == text then 1 else 0) + CountStatusText(rs[1..], text)
  }

  /** Rows with two different status texts are different rows. */
  lemma {:induction false} CountDisjoint(rs: seq<Redemption>, a: string, b: string)
    requires a != b
    ensures CountStatusText(rs, a) + CountStatusText(rs, b) <= |rs|
  {
    if rs != [] {
      CountDisjoint(rs[1..], a, b);
    }
  }

  /** Counting the rows whose stored text is that of a status counts the rows with that
      status. */
  lemma {:induction false} CountIsFilter(rs: seq<Redemption>, st: RedeemStatus)
    ensures CountStatusText(rs, StatusText(st)) == |Filter(rs, AdminHome.WithStatus(st))|
  {
    if rs != [] {
      CountIsFilter(rs[1..], st);
      assert StatusText(rs[0].redeemStatus) == StatusText(st) <==> rs[0].redeemStatus == st;
    }
  }

  datatype LegacyDashboard = LegacyDashboard(totalCustomers: nat, totalRedeemed: nat, totalPointsIssued: int, totalPending: nat)

  function EarnedLifetime(u: User): int { u.totalEarnedLifetime }

  /** `adminDashboard` as written: the redeemed count asks for status 'approved'. The
      customer count and the points issued range over customers only; `SUM` over no row is
      NULL, which `|| 0` turns into 0. */
  function AdminDashboard(users: seq<User>, rs: seq<Redemption>): (d: LegacyDashboard)
    ensures d.totalCustomers == |CustomerRows(users)| <= |users|
    ensures d.totalPointsIssued == Sum(CustomerRows(users), EarnedLifetime)
    ensures d.totalPending == |Filter(rs, AdminHome.WithStatus(Pending))|
    ensures d.totalRedeemed + d.totalPending <= |rs|
  {
    CountDisjoint(rs, "approved", "pending");
    CountIsFilter(rs, Pending);
    var customers := CustomerRows(users);
    LegacyDashboard(|customers|, CountStatusText(rs, "approved"), Sum(customers, EarnedLifetime), CountStatusText(rs, "pending"))
  }

  /** A staff or admin account is no row of `customers`: adding one changes no figure of
      the dashboard, while adding a customer adds one to the count and their lifetime
      total to the points issued. */
  lemma AccountsCountedOnlyAsCustomers(users: seq<User>, rs: seq<Redemption>, u: User)
    ensures u.role != Customer ==> AdminDashboard(users + [u], rs) == AdminDashboard(users, rs)
    ensures u.role == Customer ==>
              && AdminDashboard(users + [u], rs).totalCustomers == AdminDashboard(users, rs).totalCustomers + 1
              && AdminDashboard(users + [u], rs).totalPointsIssued == AdminDashboard(users, rs).totalPointsIssued + u.totalEarnedLifetime
  {
    FilterConcat(users, [u], IsCustomer);
    SumConcat(CustomerRows(users), Filter([u], IsCustomer), EarnedLifetime);
    assert Filter([u], IsCustomer) == if u.role == Customer then [u] else [];
  }

  /** No redemption is ever stored as 'approved' (approval writes 'completed'), so the
      dashboard always reports 0 redeemed, whatever the table holds. */
  lemma {:induction false} RedeemedCountAlwaysZero(users: seq<User>, rs: seq<Redemption>)
    ensures CountStatusText(rs, "approved") == 0
    ensures AdminDashboard(users, rs).totalRedeemed == 0
  {
    if rs != [] {
      RedeemedCountAlwaysZero(users, rs[1..]);
      assert StatusText(rs[0].redeemStatus) != "approved";
    }
  }

  /** The dashboard with the redeemed count taken over 'completed' rows. */
  function AdminDashboardCorrected(users: seq<User>, rs: seq<Redemption>): (d: LegacyDashboard)
    ensures d.totalCustomers == |CustomerRows(users)| <= |users|
    ensures d.totalPointsIssued == Sum(CustomerRows(users), EarnedLifetime)
    ensures d.totalRedeemed == |Filter(rs, AdminHome.WithStatus(Completed))|
    ensures d.totalPending == |Filter(rs, AdminHome.WithStatus(Pending))|
    ensures d.totalRedeemed + d.totalPending <= |rs|
  {
    CountDisjoint(rs, "completed", "pending");
    CountIsFilter(rs, Completed);
    CountIsFilter(rs, Pending);
    var customers := CustomerRows(users);
    LegacyDashboard(|customers|, CountStatusText(rs, "completed"), Sum(customers, EarnedLifetime), CountStatusText(rs, "pending"))
  }

  lemma CountSplit(rs: seq<Redemption>, i: nat, text: string)
    requires i <= |rs|
    ensures CountStatusText(rs, text) == CountStatusText(rs[..i], text) + CountStatusText(rs[i..], text)
  {
    if i > 0 {
      CountSplit(rs[1..], i - 1, text);
      assert rs[1..][..i - 1] == rs[..i][1..];
      assert rs[1..][i - 1..] == rs[i..];
    }
  }

  /** Approving one pending redemption (which marks exactly its row 'completed') raises the
      corrected redeemed count by one and lowers the pending count by one. */
  lemma ApprovalCountedOnce(users: seq<User>, rs: seq<Redemption>, k: nat)
    requires UniqueRedeemIds(rs) && k < |rs| && rs[k].redeemStatus == Pending
    ensures var after := SetRedeemStatus(rs, rs[k].redeemID, Completed);
      && AdminDashboardCorrected(users, after).totalRedeemed == AdminDashboardCorrected(users, rs).totalRedeemed + 1
      && AdminDashboardCorrected(users, after).totalPending + 1 == AdminDashboardCorrected(users, rs).totalPending
  {
    ApprovalMovesCounts(rs, k);
    var after := SetRedeemStatus(rs, rs[k].redeemID, Completed);
    assert AdminDashboardCorrected(users, after).totalRedeemed == CountStatusText(after, "completed");
    assert AdminDashboardCorrected(users, rs).totalRedeemed == CountStatusText(rs, "completed");
  }

  /** The status counts of one approval: one more 'completed' row, one fewer 'pending'. */
  lemma {:induction false} ApprovalMovesCounts(rs: seq<Redemption>, k: nat)
    requires UniqueRedeemIds(rs) && k < |rs| && rs[k].redeemStatus == Pending
    ensures var after := SetRedeemStatus(rs, rs[k].redeemID, Completed);
      && CountStatusText(after, "completed") == CountStatusText(rs, "completed") + 1
      && CountStatusText(after, "pending") + 1 == CountStatusText(rs, "pending")
  {
    var after := SetRedeemStatus(rs, rs[k].redeemID, Completed);
    assert after[..k] == rs[..k];
    assert after[k + 1..] == rs[k + 1..];
    assert after[k] == rs[k].(redeemStatus := Completed);
    forall text: string ensures CountStatusText(after, text) == CountStatusText(after[..k], text) + CountStatusText([after[k]], text) + CountStatusText(after[k + 1..], text)
                           && CountStatusText(rs, text) == CountStatusText(rs[..k], text) + CountStatusText([rs[k]], text) + CountStatusText(rs[k + 1..], text)
    {
      CountSplit(after, k, text);
      CountSplit(after[k..], 1, text);
      assert after[k..][..1] == [after[k]] && after[k..][1..] == after[k + 1..];
      CountSplit(rs, k, text);
      CountSplit(rs[k..], 1, text);
      assert rs[k..][..1] == [rs[k]] && rs[k..][1..] == rs[k + 1..];
    }
    assert CountStatusText([after[k]], "completed") == 1 && CountStatusText([rs[k]], "completed") == 0;
    assert CountStatusText([after[k]], "pending") == 0 && CountStatusText([rs[k]], "pending") == 1;
  }

  // ------------------------------------------------------------------
  // deleteCustomer: a hard delete
  // ------------------------------------------------------------------

  /** The rows `DELETE FROM customers WHERE customerID = id` removes. */
  predicate CustomerWithId(u: User, id: int) { u.userID == id && u.role == Customer }

  /** `DELETE FROM customers WHERE customerID = id`: the customer rows with that id go,
      every other row (a staff or admin account with that id included) stays, in order. */
  function RemoveCustomer(us: seq<User>, id: int): (r: seq<User>)
    ensures |r| <= |us|
    ensures forall k :: 0 <= k < |r| ==> r[k] in us && !CustomerWithId(r[k], id)
    ensures forall k :: 0 <= k < |us| && !CustomerWithId(us[k], id) ==> us[k] in r
  {
    if us == [] then []
    else
      var rest := RemoveCustomer(us[1..], id);
      assert forall k :: 0 <= k < |rest| ==> rest[k] in us[1..];
      if CustomerWithId(us[0], id) then rest else [us[0]] + rest
  }

  /** The DELETE affects no row exactly when no customer row has the id. */
  lemma {:induction false} RemoveCustomerCount(us: seq<User>, id: int)
    ensures |RemoveCustomer(us, id)| == |us| <==> forall k :: 0 <= k < |us| ==> !CustomerWithId(us[k], id)
  {
    if us != [] {
      var tail := us[1..];
      RemoveCustomerCount(tail, id);
      if CustomerWithId(us[0], id) {
        assert |RemoveCustomer(us, id)| <= |tail| < |us|;
      } else {
        assert |RemoveCustomer(us, id)| == 1 + |RemoveCustomer(tail, id)|;
        assert (forall k :: 0 <= k < |us| ==> !CustomerWithId(us[k], id))
           <==> (forall k :: 0 <= k < |tail| ==> !CustomerWithId(tail[k], id)) by {
          forall k | 0 <= k < |tail| ensures tail[k] == us[k + 1] { }
          assert forall k :: 1 <= k < |us| ==> us[k] == tail[k - 1];
        }
      }
    }
  }

  /** The DELETE keeps the remaining ids unique. */
  lemma {:induction false} RemoveCustomerUnique(us: seq<User>, id: int)
    requires UniqueUserIds(us)
    ensures UniqueUserIds(RemoveCustomer(us, id))
  {
    if us != [] {
      TailUnique(us);
      RemoveCustomerUnique(us[1..], id);
      var rest := RemoveCustomer(us[1..], id);
      if !CustomerWithId(us[0], id) {
        HeadIdFresh(us, rest);
        ConsUnique(us[0], rest);
      }
    }
  }

  lemma TailUnique(us: seq<User>)
    requires UniqueUserIds(us) && us != []
    ensures UniqueUserIds(us[1..])
  {
    var tail := us[1..];
    forall i, j | 0 <= i < j < |tail| ensures tail[i].userID != tail[j].userID {
      assert tail[i] == us[i + 1] && tail[j] == us[j + 1];
    }
  }

  lemma HeadIdFresh(us: seq<User>, rest: seq<User>)
    requires UniqueUserIds(us) && us != []
    requires forall k :: 0 <= k < |rest| ==> rest[k] in us[1..]
    ensures forall k :: 0 <= k < |rest| ==> rest[k].userID != us[0].userID
  {
    forall k | 0 <= k < |rest| ensures rest[k].userID != us[0].userID {
      var j :| 0 <= j < |us[1..]| && us[1..][j] == rest[k];
      assert us[1..][j] == us[j + 1];
    }
  }

  lemma ConsUnique(u: User, rest: seq<User>)
    requires UniqueUserIds(rest) && forall k :: 0 <= k < |rest| ==> rest[k].userID != u.userID
    ensures UniqueUserIds([u] + rest)
  {
    var r := [u] + rest;
    forall i, j | 0 <= i < j < |r| ensures r[i].userID != r[j].userID {
      if i == 0 {
        assert r[j] == rest[j - 1];
      } else {
        assert r[i] == rest[i - 1] && r[j] == rest[j - 1];
      }
    }
  }

  datatype DeleteReply =
    | CustomerIdRequired      // 400
    | CustomerNotFound        // 404: the DELETE affected no row
    | CustomerDeleted(id: int) // 200 "Customer <id> deleted customer successfully."

  /** `deleteCustomer`: the row goes; the customer's redemptions and log rows stay. */
  method DeleteCustomer(s: Store, customerID: Option<int>) returns (reply: DeleteReply)
    requires s.Valid()
    modifies s
    ensures s.Valid()
    ensures s.rewards == old(s.rewards) && s.redemptions == old(s.redemptions) && s.transactions == old(s.transactions)
    ensures customerID.None? ==> reply == CustomerIdRequired && s.users == old(s.users)
    ensures customerID.Some? ==>
              && s.users == RemoveCustomer(old(s.users), customerID.value)
              && (reply == CustomerNotFound <==> FindWithRole(old(s.users), customerID.value, Customer).None?)
              && (reply != CustomerNotFound ==> reply == CustomerDeleted(customerID.value))
  {
    if customerID.None? {
      return CustomerIdRequired;
    }
    var remaining := RemoveCustomer(s.users, customerID.value);
    RemoveCustomerCount(s.users, customerID.value);
    RemoveCustomerUnique(s.users, customerID.value);
    var affectedRows := |s.users| - |remaining|;
    s.users := remaining;
    if affectedRows == 0 {
      return CustomerNotFound;
    }
    reply := CustomerDeleted(customerID.value);
  }

  // ------------------------------------------------------------------
  // addPoints
  // ------------------------------------------------------------------

  datatype AddPointsReply = AmountRequired | PointsAddedOk | AddPointsError

  /** `addPoints`: only a falsy amount is refused, and the points are the plain floor, so a
      negative amount takes points away from both counters. The UPDATE reaches customer rows
      only; the log row is written whatever the id. */
  method AddPoints(s: Store, customerID: int, paymentAmount: Option<int>, now: int, insertFails: bool)
    returns (reply: AddPointsReply)
    requires s.Valid()
    modifies s
    ensures s.Valid()
    ensures s.rewards == old(s.rewards) && s.redemptions == old(s.redemptions)
    ensures FalsyInt(paymentAmount) ==> reply == AmountRequired && s.users == old(s.users) && s.transactions == old(s.transactions)
    ensures !FalsyInt(paymentAmount) ==>
              var amount := paymentAmount.value;
              && s.users == CreditCustomer(old(s.users), customerID, FloorPoints(amount))
              && (insertFails ==> reply == AddPointsError && s.transactions == old(s.transactions))
              && (!insertFails ==>
                    && reply == PointsAddedOk
                    && s.transactions == old(s.transactions) + [TxRow(old(s.nextTransactionID), customerID, amount, FloorPoints(amount), now, None)])
  {
    if FalsyInt(paymentAmount) {
      return AmountRequired;
    }
    var pointsToAdd := FloorPoints(paymentAmount.value);
    var credited := CreditCustomer(s.users, customerID, pointsToAdd);
    assert forall k :: 0 <= k < |credited| ==> credited[k].userID == s.users[k].userID;
    s.SetUsers(credited);
    if insertFails {
      return AddPointsError;
    }
    var _ := s.LogTransaction(customerID, paymentAmount.value, pointsToAdd, now, None);
    reply := PointsAddedOk;
  }

  /** A negative payment of at least one peso lowers the balance and the lifetime total by
      the same positive number of points: -75 takes 2 points. */
  lemma NegativePaymentLowersBoth(us: seq<User>, id: int, amount: int, k: nat)
    requires k < |us| && us[k].userID == id && us[k].role == Customer && amount < 0
    ensures var after := CreditCustomer(us, id, FloorPoints(amount))[k];
      && us[k].pointsBalance - after.pointsBalance == us[k].totalEarnedLifetime - after.totalEarnedLifetime > 0
    ensures FloorPoints(-75) == -2
  {
    PointsRules(amount);
  }

  // ------------------------------------------------------------------
  // viewCustomerPage
  // ------------------------------------------------------------------

  datatype CustomerPage = CustomerPage(customerID: int, name: string, totalEarnedLifetime: int, pendingRedemptions: seq<Redemption>)

  function PendingOfUser(id: int): Redemption -> bool
  {
    (r: Redemption) => r.userID == id && r.redeemStatus == Pending
  }

  /** `viewCustomerPage`: None is the 404 (no customer row has the id); otherwise the
      customer and, in table order, their pending redemptions. */
  function ViewCustomerPage(users: seq<User>, rs: seq<Redemption>, customerID: int): (r: Option<CustomerPage>)
    ensures r.None? <==> FindWithRole(users, customerID, Customer).None?
    ensures r.Some? ==>
              var u := users[FindWithRole(users, customerID, Customer).value];
              && r.value.(pendingRedemptions := []) == CustomerPage(u.userID, u.name, u.totalEarnedLifetime, [])
              && (forall k :: 0 <= k < |r.value.pendingRedemptions| ==>
                    var x := r.value.pendingRedemptions[k];
                    x in rs && x.userID == customerID && x.redeemStatus == Pending)
              && (forall j :: 0 <= j < |rs| && rs[j].userID == customerID && rs[j].redeemStatus == Pending ==>
                    rs[j] in r.value.pendingRedemptions)
  {
    match FindWithRole(users, customerID, Customer)
    case None => None
    case Some(i) => Some(CustomerPage(users[i].userID, users[i].name, users[i].totalEarnedLifetime, Filter(rs, PendingOfUser(customerID))))
  }
}
