/** The customer's own history of server/controllers/transactionController.js: purchases and
    redemptions, pending requests first, one page at a time, with the page count and the
    balance. The handler was written against a `customers` table keyed by `customerID`; here
    that is the `users` table and `userID`, and `customerID` comes from the login token. */
module CustomerTransactions {
  import opened Util
  import opened Tables

  /** `'purchase' as type` or `'redeemed' as type`. */
  datatype TxKind = Purchased | Redeemed

  /** One listed line: `type, amount, description, date, status`. Purchases carry the
      status 'completed'. */
  datatype CustomerTx = CustomerTx(kind: TxKind, amount: int, description: string, date: int, status: RedeemStatus)

  function DateOf(e: CustomerTx): int { e.date }

  /** `t.pointsChange as amount, CONCAT('Payment - ₱', t.paymentAmount), 'completed'`. */
  function PurchaseTxOf(t: TxRow): CustomerTx
  {
    CustomerTx(Purchased, t.pointsChange, "Payment - ₱" + IntToString(t.paymentAmount), t.date, Completed)
  }

  /** `r.pointsUsed as amount, CONCAT(rew.rewardName, ' - ', rew.brand), r.redeemStatus`. */
  function RedeemTxOf(rewards: seq<Reward>): Redemption -> CustomerTx
  {
    (r: Redemption) =>
      match FindReward(rewards, r.rewardID)
      case Some(w) => CustomerTx(Redeemed, r.pointsUsed, rewards[w].rewardName + " - " + rewards[w].brand, r.dateRedeemed, r.redeemStatus)
      case None => CustomerTx(Redeemed, r.pointsUsed, "", r.dateRedeemed, r.redeemStatus)
  }

  /** `req.query.type`: only "completed" and "pending" change the queries. */
  datatype TypeParam = AllTypes | CompletedType | PendingType

  function TypeOf(typ: Option<string>): (t: TypeParam)
    ensures t == CompletedType <==> typ == Some("completed")
    ensures t == PendingType <==> typ == Some("pending")
  {
    if typ == Some("completed") then CompletedType else if typ == Some("pending") then PendingType else AllTypes
  }

  /** The redemption condition: `!= 'denied'`, `= 'completed'` or `= 'pending'`. */
  predicate Wanted(t: TypeParam, st: RedeemStatus)
  {
    match t
    case AllTypes => st != Denied
    case CompletedType => st == Completed
    case PendingType => st == Pending
  }

  // ------------------------------------------------------------------
  // The rows of the listing query
  // ------------------------------------------------------------------

  /** `FROM transactions t WHERE t.customerID = ?`; with `paidOnly`, also `t.paymentAmount > 0`. */
  predicate IsPurchaseLine(t: TxRow, customerID: int, paidOnly: bool)
  {
    t.userID == customerID && (paidOnly ==> t.paymentAmount > 0)
  }

  function PurchaseLines(customerID: int, paidOnly: bool): TxRow -> bool
  {
    (t: TxRow) => IsPurchaseLine(t, customerID, paidOnly)
  }

  ghost predicate PurchaseLineOf(ts: seq<TxRow>, customerID: int, paidOnly: bool, e: CustomerTx)
  {
    exists j :: 0 <= j < |ts| && IsPurchaseLine(ts[j], customerID, paidOnly) && e == PurchaseTxOf(ts[j])
  }

  function PurchaseTxs(ts: seq<TxRow>, customerID: int, paidOnly: bool): (r: seq<CustomerTx>)
    ensures |r| == |Filter(ts, PurchaseLines(customerID, paidOnly))|
    ensures forall k :: 0 <= k < |r| ==> PurchaseLineOf(ts, customerID, paidOnly, r[k])
    ensures forall j :: 0 <= j < |ts| && IsPurchaseLine(ts[j], customerID, paidOnly) ==> PurchaseTxOf(ts[j]) in r
  {
    var rows := Filter(ts, PurchaseLines(customerID, paidOnly));
    assert forall k :: 0 <= k < |rows| ==> exists j :: 0 <= j < |ts| && ts[j] == rows[k];
    Project(rows, PurchaseTxOf)
  }

  /** `FROM redemption r JOIN rewards rew ON r.rewardID = rew.rewardID WHERE r.customerID = ?
      AND <status condition>`. */
  predicate IsRedeemLine(rewards: seq<Reward>, r: Redemption, customerID: int, t: TypeParam)
  {
    r.userID == customerID && Wanted(t, r.redeemStatus) && FindReward(rewards, r.rewardID).Some?
  }

  function RedeemLines(rewards: seq<Reward>, customerID: int, t: TypeParam): Redemption -> bool
  {
    (r: Redemption) => IsRedeemLine(rewards, r, customerID, t)
  }

  ghost predicate RedeemLineOf(rewards: seq<Reward>, rs: seq<Redemption>, customerID: int, t: TypeParam, e: CustomerTx)
  {
    exists j :: 0 <= j < |rs| && IsRedeemLine(rewards, rs[j], customerID, t) && e == RedeemTxOf(rewards)(rs[j])
  }

  function RedeemTxs(rewards: seq<Reward>, rs: seq<Redemption>, customerID: int, t: TypeParam): (r: seq<CustomerTx>)
    ensures |r| == |Filter(rs, RedeemLines(rewards, customerID, t))|
    ensures forall k :: 0 <= k < |r| ==> RedeemLineOf(rewards, rs, customerID, t, r[k])
    ensures forall j :: 0 <= j < |rs| && IsRedeemLine(rewards, rs[j], customerID, t) ==> RedeemTxOf(rewards)(rs[j]) in r
  {
    var rows := Filter(rs, RedeemLines(rewards, customerID, t));
    assert forall k :: 0 <= k < |rows| ==> exists j :: 0 <= j < |rs| && rs[j] == rows[k];
    Project(rows, RedeemTxOf(rewards))
  }

  /** `e` is a line the type asks for: a purchase (except for "pending") or a redemption with
      a wanted status. */
  ghost predicate Listed(rewards: seq<Reward>, ts: seq<TxRow>, rs: seq<Redemption>, customerID: int,
                         t: TypeParam, paidOnly: bool, e: CustomerTx)
  {
    (t != PendingType && PurchaseLineOf(ts, customerID, paidOnly, e)) || RedeemLineOf(rewards, rs, customerID, t, e)
  }

  /** The UNION ALL before ordering; "pending" has no purchase part. */
  function Lines(rewards: seq<Reward>, ts: seq<TxRow>, rs: seq<Redemption>, customerID: int, t: TypeParam, paidOnly: bool): (r: seq<CustomerTx>)
    ensures |r| == (if t == PendingType then 0 else |Filter(ts, PurchaseLines(customerID, paidOnly))|) + |Filter(rs, RedeemLines(rewards, customerID, t))|
    ensures forall k :: 0 <= k < |r| ==> Listed(rewards, ts, rs, customerID, t, paidOnly, r[k])
    ensures t != PendingType ==> forall j :: 0 <= j < |ts| && IsPurchaseLine(ts[j], customerID, paidOnly) ==> PurchaseTxOf(ts[j]) in r
    ensures forall j :: 0 <= j < |rs| && IsRedeemLine(rewards, rs[j], customerID, t) ==> RedeemTxOf(rewards)(rs[j]) in r
  {
    var p := if t == PendingType then [] else PurchaseTxs(ts, customerID, paidOnly);
    var q := RedeemTxs(rewards, rs, customerID, t);
    BothInherit(p, q, (e: CustomerTx) => Listed(rewards, ts, rs, customerID, t, paidOnly, e));
    p + q
  }

  // ------------------------------------------------------------------
  // ORDER BY CASE WHEN status = 'pending' THEN 0 ELSE 1 END, date DESC
  // ------------------------------------------------------------------

  function IsPendingTx(): CustomerTx -> bool { (e: CustomerTx) => e.status == Pending }

  function NotPendingTx(): CustomerTx -> bool { (e: CustomerTx) => e.status != Pending }

  /** Pending lines come before all others, and within each group the newest come first. */
  ghost predicate PendingFirstOrder(r: seq<CustomerTx>)
  {
    && (forall i, j :: 0 <= i < j < |r| && r[j].status == Pending ==> r[i].status == Pending)
    && (forall i, j :: 0 <= i < j < |r| && (r[i].status == Pending <==> r[j].status == Pending) ==> r[i].date >= r[j].date)
  }

  function PendingFirst(s: seq<CustomerTx>): (r: seq<CustomerTx>)
    ensures |r| == |s| && multiset(r) == multiset(s)
    ensures PendingFirstOrder(r)
  {
    var pend := SortDesc(Filter(s, IsPendingTx()), DateOf);
    var rest := SortDesc(Filter(s, NotPendingTx()), DateOf);
    FilterPartition(s, IsPendingTx(), NotPendingTx());
    SameElements(pend, Filter(s, IsPendingTx()));
    SameElements(rest, Filter(s, NotPendingTx()));
    PendingFirstJoin(pend, rest);
    pend + rest
  }

  lemma PendingFirstJoin(pend: seq<CustomerTx>, rest: seq<CustomerTx>)
    requires forall k :: 0 <= k < |pend| ==> pend[k].status == Pending
    requires forall k :: 0 <= k < |rest| ==> rest[k].status != Pending
    requires SortedDesc(pend, DateOf) && SortedDesc(rest, DateOf)
    ensures PendingFirstOrder(pend + rest)
  {
    var r := pend + rest;
    forall i, j | 0 <= i < j < |r| && (r[i].status == Pending <==> r[j].status == Pending)
      ensures r[i].date >= r[j].date
    {
      if j < |pend| {
        assert r[i] == pend[i] && r[j] == pend[j];
      } else if i >= |pend| {
        assert r[i] == rest[i - |pend|] && r[j] == rest[j - |pend|];
      }
    }
    forall i, j | 0 <= i < j < |r| && r[j].status == Pending
      ensures r[i].status == Pending
    {
      if j < |pend| {
        assert r[i] == pend[i];
      }
    }
  }

  /** A single line is its own order. */
  lemma PendingFirstSingle(e: CustomerTx)
    ensures PendingFirst([e]) == [e]
  {
    var r := PendingFirst([e]);
    assert r[0] in multiset(r);
  }

  /** Every line the query selects, in the order it returns them. */
  function AllLines(rewards: seq<Reward>, ts: seq<TxRow>, rs: seq<Redemption>, customerID: int, t: TypeParam, paidOnly: bool): (r: seq<CustomerTx>)
    ensures |r| == |Lines(rewards, ts, rs, customerID, t, paidOnly)|
    ensures PendingFirstOrder(r)
    ensures forall k :: 0 <= k < |r| ==> Listed(rewards, ts, rs, customerID, t, paidOnly, r[k])
    ensures t != PendingType ==> forall j :: 0 <= j < |ts| && IsPurchaseLine(ts[j], customerID, paidOnly) ==> PurchaseTxOf(ts[j]) in r
    ensures forall j :: 0 <= j < |rs| && IsRedeemLine(rewards, rs[j], customerID, t) ==> RedeemTxOf(rewards)(rs[j]) in r
  {
    var lines := Lines(rewards, ts, rs, customerID, t, paidOnly);
    var r := PendingFirst(lines);
    Reordered(lines, r, (e: CustomerTx) => Listed(rewards, ts, rs, customerID, t, paidOnly, e));
    r
  }

  // ------------------------------------------------------------------
  // Paging and the count query
  // ------------------------------------------------------------------

  /** `parseInt(x) || d`: NaN and 0 fall back to `d`. */
  function ParseOr(x: Option<string>, d: int): (n: int)
    ensures d != 0 ==> n != 0
    ensures x.Some? && ParseInt(x.value).Some? && ParseInt(x.value).value != 0 ==> n == ParseInt(x.value).value
  {
    if x.None? then d
    else match ParseInt(x.value)
      case None => d
      case Some(v) => if v == 0 then d else v
  }

  /** A printed non-zero number is read back. */
  lemma ParseOrReadsNumbers(i: int, d: int)
    requires i != 0
    ensures ParseOr(Some(IntToString(i)), d) == i
  {
    ParseIntOfIntToStringThen(i, []);
    assert IntToString(i) + [] == IntToString(i);
  }

  /** No text and text without digits give the default. */
  lemma ParseOrDefaults(d: int)
    ensures ParseOr(None, d) == d && ParseOr(Some("all"), d) == d
  {
    var s := "all";
    assert s[0] == 'a' && !IsSpace(s[0]) && !IsDigit(s[0]);
    assert TrimStart(s) == s;
    assert SignFree(s) == s;
    assert LeadingDigits(s) == [];
    assert ParseInt(s) == None;
  }

  /** "0" gives the default too: `parseInt("0")` is 0, which is falsy. */
  lemma ParseOrZero(d: int)
    ensures ParseOr(Some("0"), d) == d
  {
    ParseIntOfNatToString(0);
    assert NatToString(0) == "0";
  }

  /** `SELECT COUNT(*) FROM (<log rows> UNION ALL <redemption rows>)`: the same conditions
      without the rewards join. */
  function CountLines(ts: seq<TxRow>, rs: seq<Redemption>, customerID: int, t: TypeParam, paidOnly: bool): nat
  {
    (if t == PendingType then 0 else |Filter(ts, PurchaseLines(customerID, paidOnly))|)
      + |Filter(rs, (r: Redemption) => r.userID == customerID && Wanted(t, r.redeemStatus))|
  }

  /** `userPoints[0]?.pointsBalance || 0`, read from the customer rows. */
  function PointsOf(users: seq<User>, customerID: int): (p: int)
    ensures FindWithRole(users, customerID, Customer).None? ==> p == 0
    ensures FindWithRole(users, customerID, Customer).Some? ==>
              p == users[FindWithRole(users, customerID, Customer).value].pointsBalance
  {
    match FindWithRole(users, customerID, Customer)
    case None => 0
    case Some(i) => users[i].pointsBalance
  }

  /** `offset = (page - 1) * limit`. */
  function Offset(page: int, limit: int): (offset: nat)
    requires page >= 1 && limit >= 0
    ensures page == 1 ==> offset == 0
  {
    (page - 1) * limit
  }

  /** `shown` is the run of `all` that starts at `offset`. */
  predicate Slice(shown: seq<CustomerTx>, all: seq<CustomerTx>, offset: nat)
  {
    forall k :: 0 <= k < |shown| ==> offset + k < |all| && shown[k] == all[offset + k]
  }

  datatype TxReply =
    | TxPage(transactions: seq<CustomerTx>, page: int, limit: int, total: nat, totalPages: nat, points: int)
    | TxError    // 500: a negative LIMIT or OFFSET is invalid SQL

  /** One page of `all`: `page` and `limit` read with their defaults, `LIMIT ? OFFSET ?`
      applied, the page count derived from `total`. */
  function PageOf(all: seq<CustomerTx>, total: nat, points: int, page: Option<string>, limit: Option<string>): (r: TxReply)
    ensures r.TxError? <==> ParseOr(page, 1) < 0 || ParseOr(limit, 20) < 0
    ensures r.TxPage? ==> r.page == ParseOr(page, 1) >= 1 && r.limit == ParseOr(limit, 20) >= 1
    ensures r.TxPage? ==> |r.transactions| <= r.limit && r.totalPages == CeilDiv(r.total, r.limit)
    ensures r.TxPage? ==> Slice(r.transactions, all, Offset(r.page, r.limit))
    ensures r.TxPage? ==> |r.transactions| == WindowLength(|all|, Offset(r.page, r.limit), r.limit)
    ensures r.TxPage? ==> r.total == total && r.points == points
  {
    var p := ParseOr(page, 1);
    var n := ParseOr(limit, 20);
    if p < 0 || n < 0 then TxError
    else TxPage(Window(all, Offset(p, n), n), p, n, total, CeilDiv(total, n), points)
  }

  /** The handler, with the purchase part either as written (every log row) or restricted to
      rows with a payment. */
  function ViewWith(users: seq<User>, rewards: seq<Reward>, ts: seq<TxRow>, rs: seq<Redemption>, customerID: int,
                    page: Option<string>, limit: Option<string>, typ: Option<string>, paidOnly: bool): (r: TxReply)
    ensures r.TxError? <==> ParseOr(page, 1) < 0 || ParseOr(limit, 20) < 0
    ensures r.TxPage? ==> r.page == ParseOr(page, 1) >= 1 && r.limit == ParseOr(limit, 20) >= 1
    ensures r.TxPage? ==> |r.transactions| <= r.limit && r.totalPages == CeilDiv(r.total, r.limit)
    ensures r.TxPage? ==> var all := AllLines(rewards, ts, rs, customerID, TypeOf(typ), paidOnly);
              && Slice(r.transactions, all, Offset(r.page, r.limit))
              && |r.transactions| == WindowLength(|all|, Offset(r.page, r.limit), r.limit)
    ensures r.TxPage? ==> r.total == CountLines(ts, rs, customerID, TypeOf(typ), paidOnly) && r.points == PointsOf(users, customerID)
  {
    var all := AllLines(rewards, ts, rs, customerID, TypeOf(typ), paidOnly);
    PageOf(all, CountLines(ts, rs, customerID, TypeOf(typ), paidOnly), PointsOf(users, customerID), page, limit)
  }

  /** When every request of the customer still has its reward row, `total` counts exactly
      the lines the listing query can return, so the pages cover the list. */
  lemma CountMatchesList(rewards: seq<Reward>, ts: seq<TxRow>, rs: seq<Redemption>, customerID: int, t: TypeParam, paidOnly: bool)
    requires forall j :: 0 <= j < |rs| && rs[j].userID == customerID ==> FindReward(rewards, rs[j].rewardID).Some?
    ensures CountLines(ts, rs, customerID, t, paidOnly) == |AllLines(rewards, ts, rs, customerID, t, paidOnly)|
  {
    FilterSame(rs, RedeemLines(rewards, customerID, t), (r: Redemption) => r.userID == customerID && Wanted(t, r.redeemStatus));
  }

  /** `viewTransactions` as written: every log row of the customer is listed and counted as a
      purchase, the approval rows (payment 0) included. */
  function ViewTransactionsAsWritten(users: seq<User>, rewards: seq<Reward>, ts: seq<TxRow>, rs: seq<Redemption>, customerID: int,
                                     page: Option<string>, limit: Option<string>, typ: Option<string>): (r: TxReply)
    ensures r.TxError? <==> ParseOr(page, 1) < 0 || ParseOr(limit, 20) < 0
    ensures r.TxPage? ==> r.page == ParseOr(page, 1) >= 1 && r.limit == ParseOr(limit, 20) >= 1
    ensures r.TxPage? ==> |r.transactions| <= r.limit
    ensures r.TxPage? ==> var all := AllLines(rewards, ts, rs, customerID, TypeOf(typ), false);
              && Slice(r.transactions, all, Offset(r.page, r.limit))
              && |r.transactions| == WindowLength(|all|, Offset(r.page, r.limit), r.limit)
    ensures r.TxPage? ==> r.total == CountLines(ts, rs, customerID, TypeOf(typ), false) && r.totalPages == CeilDiv(r.total, r.limit)
    ensures r.TxPage? ==> r.points == PointsOf(users, customerID)
  {
    ViewWith(users, rewards, ts, rs, customerID, page, limit, typ, false)
  }

  /** `viewTransactions` with purchases restricted to rows with a payment, as every other
      history in the system lists them. */
  function ViewTransactions(users: seq<User>, rewards: seq<Reward>, ts: seq<TxRow>, rs: seq<Redemption>, customerID: int,
                            page: Option<string>, limit: Option<string>, typ: Option<string>): (r: TxReply)
    ensures r.TxError? <==> ParseOr(page, 1) < 0 || ParseOr(limit, 20) < 0
    ensures r.TxPage? ==> r.page == ParseOr(page, 1) >= 1 && r.limit == ParseOr(limit, 20) >= 1
    ensures r.TxPage? ==> |r.transactions| <= r.limit
    ensures r.TxPage? ==> var all := AllLines(rewards, ts, rs, customerID, TypeOf(typ), true);
              && Slice(r.transactions, all, Offset(r.page, r.limit))
              && |r.transactions| == WindowLength(|all|, Offset(r.page, r.limit), r.limit)
    ensures r.TxPage? ==> r.total == CountLines(ts, rs, customerID, TypeOf(typ), true) && r.totalPages == CeilDiv(r.total, r.limit)
    ensures r.TxPage? ==> r.points == PointsOf(users, customerID)
  {
    ViewWith(users, rewards, ts, rs, customerID, page, limit, typ, true)
  }

  /** Approving a request logs a row for the customer with payment 0 (and the points as
      `pointsChange`). As written, a history holding only that row shows it as a purchase and
      counts it. */
  lemma ApprovalShownAsPurchase(users: seq<User>, rewards: seq<Reward>, t: TxRow)
    requires t.paymentAmount == 0
    ensures var r := ViewTransactionsAsWritten(users, rewards, [t], [], t.userID, None, None, None);
      r.TxPage? && r.transactions == [PurchaseTxOf(t)] && r.total == 1 && r.totalPages == 1
  {
    ApprovalLinesAsWritten(rewards, t);
    DefaultPages(PurchaseTxOf(t), PointsOf(users, t.userID));
    assert ViewWith(users, rewards, [t], [], t.userID, None, None, None, false)
        == PageOf(AllLines(rewards, [t], [], t.userID, AllTypes, false), CountLines([t], [], t.userID, AllTypes, false),
                  PointsOf(users, t.userID), None, None);
  }

  /** With the payment condition, the same history is empty. */
  lemma ApprovalNotShownWhenPaid(users: seq<User>, rewards: seq<Reward>, t: TxRow)
    requires t.paymentAmount == 0
    ensures var r := ViewTransactions(users, rewards, [t], [], t.userID, None, None, None);
      r.TxPage? && r.transactions == [] && r.total == 0 && r.totalPages == 0
  {
    ApprovalLinesPaid(rewards, t);
    DefaultPages(PurchaseTxOf(t), PointsOf(users, t.userID));
    assert ViewWith(users, rewards, [t], [], t.userID, None, None, None, true)
        == PageOf(AllLines(rewards, [t], [], t.userID, AllTypes, true), CountLines([t], [], t.userID, AllTypes, true),
                  PointsOf(users, t.userID), None, None);
  }

  /** Without `page` and `limit`, a one-line history is one page of one line, and an empty one
      is a first page with no lines and no pages. */
  lemma DefaultPages(e: CustomerTx, points: int)
    ensures PageOf([e], 1, points, None, None) == TxPage([e], 1, 20, 1, 1, points)
    ensures PageOf([], 0, points, None, None) == TxPage([], 1, 20, 0, 0, points)
  {
    assert ParseOr(None, 1) == 1 && ParseOr(None, 20) == 20;
    assert Offset(1, 20) == 0;
    assert Window([e], 0, 20) == [e];
    assert Window<CustomerTx>([], 0, 20) == [];
    assert CeilDiv(1, 20) == 1 by {
      assert CeilDiv(0, 20) == 0;
    }
  }

  /** As written, a history holding one log row without a payment has that row as its one line. */
  lemma ApprovalLinesAsWritten(rewards: seq<Reward>, t: TxRow)
    requires t.paymentAmount == 0
    ensures AllLines(rewards, [t], [], t.userID, AllTypes, false) == [PurchaseTxOf(t)]
    ensures CountLines([t], [], t.userID, AllTypes, false) == 1
  {
    assert Filter([t], PurchaseLines(t.userID, false)) == [t] by {
      assert Filter([t][1..], PurchaseLines(t.userID, false)) == [];
    }
    assert Lines(rewards, [t], [], t.userID, AllTypes, false) == [PurchaseTxOf(t)];
    PendingFirstSingle(PurchaseTxOf(t));
  }

  /** With the payment condition, the same history has no lines. */
  lemma ApprovalLinesPaid(rewards: seq<Reward>, t: TxRow)
    requires t.paymentAmount == 0
    ensures AllLines(rewards, [t], [], t.userID, AllTypes, true) == []
    ensures CountLines([t], [], t.userID, AllTypes, true) == 0
  {
    assert Filter([t], PurchaseLines(t.userID, true)) == [] by {
      assert Filter([t][1..], PurchaseLines(t.userID, true)) == [];
    }
  }

  /** With the payment condition, every purchase line in the history comes from a row with a
      payment, so no approval row is shown as an earning. */
  lemma PurchasesArePaid(rewards: seq<Reward>, ts: seq<TxRow>, rs: seq<Redemption>, customerID: int, t: TypeParam, k: nat)
    requires k < |AllLines(rewards, ts, rs, customerID, t, true)|
    requires AllLines(rewards, ts, rs, customerID, t, true)[k].kind == Purchased
    ensures exists j :: 0 <= j < |ts| && ts[j].userID == customerID && ts[j].paymentAmount > 0
                        && AllLines(rewards, ts, rs, customerID, t, true)[k] == PurchaseTxOf(ts[j])
  {
    var e := AllLines(rewards, ts, rs, customerID, t, true)[k];
    assert Listed(rewards, ts, rs, customerID, t, true, e);
    PurchaseIsNoRedeemLine(rewards, rs, customerID, t, e);
    assert PurchaseLineOf(ts, customerID, true, e);
  }

  /** A line that says 'purchase' never comes from the redemption part. */
  lemma PurchaseIsNoRedeemLine(rewards: seq<Reward>, rs: seq<Redemption>, customerID: int, t: TypeParam, e: CustomerTx)
    requires e.kind == Purchased
    ensures !RedeemLineOf(rewards, rs, customerID, t, e)
  {
    forall j | 0 <= j < |rs|
      ensures RedeemTxOf(rewards)(rs[j]).kind == Redeemed
    {
    }
  }
}
