/** The admin home screen of server/admin-controllers/homeController.js: the dashboard
    aggregates, the recent-transactions panel and the top customers. `new Date()` with the day
    set to 1 and the time to midnight is the parameter `thisMonthStart`. */
module AdminHome {
  import opened Util
  import opened Tables
  import opened TxViews

  // ------------------------------------------------------------------
  // adminDashboard
  // ------------------------------------------------------------------

  datatype DashboardData = DashboardData(
    totalUsers: nat,
    activeMembers: nat,
    pointsRedeemed: int,
    totalPending: nat,
    thisMonthActive: nat,
    thisMonthRedeemed: int,
    thisMonthPending: nat,
    totalPointsEarned: int,
    engagementRate: int)


  function HasPoints(): User -> bool { (u: User) => u.pointsBalance > 0 }

  function WithStatus(st: RedeemStatus): Redemption -> bool { (r: Redemption) => r.redeemStatus == st }

  function WithStatusSince(st: RedeemStatus, start: int): Redemption -> bool
  {
    (r: Redemption) => r.redeemStatus == st && r.dateRedeemed >= start
  }

  function PointsUsed(r: Redemption): int { r.pointsUsed }

  function EarnedLifetime(u: User): int { u.totalEarnedLifetime }

  /** `SELECT DISTINCT userID FROM redemption WHERE dateRedeemed >= ?`, whatever the status. */
  function UserIdsSince(rs: seq<Redemption>, start: int): (ids: set<int>)
    ensures forall k :: 0 <= k < |rs| && rs[k].dateRedeemed >= start ==> rs[k].userID in ids
    ensures forall id :: id in ids ==> exists k :: 0 <= k < |rs| && rs[k].dateRedeemed >= start && rs[k].userID == id
  {
    if rs == [] then {}
    else
      var rest := UserIdsSince(rs[1..], start);
      assert forall id :: id in rest ==> exists k :: 1 <= k < |rs| && rs[k].dateRedeemed >= start && rs[k].userID == id by {
        forall id | id in rest ensures exists k :: 1 <= k < |rs| && rs[k].dateRedeemed >= start && rs[k].userID == id {
          var k :| 0 <= k < |rs[1..]| && rs[1..][k].dateRedeemed >= start && rs[1..][k].userID == id;
          assert rs[k + 1] == rs[1..][k];
        }
      }
      (if rs[0].dateRedeemed >= start then {rs[0].userID} else {}) + rest
  }

  /** `COUNT(DISTINCT userID)` is at most the number of rows it looks at. */
  lemma {:induction false} DistinctAtMostRows(rs: seq<Redemption>, start: int)
    ensures |UserIdsSince(rs, start)| <= |rs|
  {
    if rs != [] {
      DistinctAtMostRows(rs[1..], start);
    }
  }

  /** `totalPointsEarned > 0 ? Math.round((pointsRedeemed / totalPointsEarned) * 100) : 0`:
      the percentage rounded to the nearest integer, halves up. */
  function EngagementRate(redeemed: int, earned: int): (rate: int)
    ensures earned <= 0 ==> rate == 0
    ensures earned > 0 ==> 200 * redeemed - earned < 2 * earned * rate <= 200 * redeemed + earned
  {
    if earned > 0 then (200 * redeemed + earned) / (2 * earned) else 0
  }

  /** While no more points were redeemed than earned, the rate is a percentage. */
  lemma EngagementRateIsPercentage(redeemed: int, earned: int)
    requires 0 <= redeemed <= earned && earned > 0
    ensures 0 <= EngagementRate(redeemed, earned) <= 100
  {
    var rate := EngagementRate(redeemed, earned);
    assert 2 * earned * rate < 2 * earned * 101;
    CancelFactor(2 * earned, rate, 101);
    assert 2 * earned * -1 < 2 * earned * rate;
    CancelFactor(2 * earned, -1, rate);
  }

  lemma CancelFactor(a: int, x: int, y: int)
    requires a > 0 && a * x < a * y
    ensures x < y
  {
  }

  /** With no negative costs, the points redeemed this month are part of all points redeemed. */
  lemma MonthWithinTotal(rs: seq<Redemption>, thisMonthStart: int)
    ensures (forall k :: 0 <= k < |rs| ==> rs[k].pointsUsed >= 0) ==>
              0 <= Sum(Filter(rs, WithStatusSince(Completed, thisMonthStart)), PointsUsed) <= Sum(Filter(rs, WithStatus(Completed)), PointsUsed)
  {
    if forall k :: 0 <= k < |rs| ==> rs[k].pointsUsed >= 0 {
      var month := Filter(rs, WithStatusSince(Completed, thisMonthStart));
      SumNonNegative(month, PointsUsed);
      SumNarrower(rs, WithStatus(Completed), WithStatusSince(Completed, thisMonthStart), PointsUsed);
    }
  }

  /** `adminDashboard`: customers; users of any role holding points; points of completed
      requests; pending requests; distinct requesters, completed points and pending requests
      since the month start; lifetime points earned by all users; the engagement rate. SUMs
      over no rows are 0. */
  function AdminDashboard(users: seq<User>, rs: seq<Redemption>, thisMonthStart: int): (d: DashboardData)
    ensures d.totalUsers == |CustomerRows(users)| && d.activeMembers == |Filter(users, HasPoints())|
    ensures d.pointsRedeemed == Sum(Filter(rs, WithStatus(Completed)), PointsUsed)
    ensures d.totalPending == |Filter(rs, WithStatus(Pending))|
    ensures d.thisMonthActive == |UserIdsSince(rs, thisMonthStart)|
    ensures d.thisMonthRedeemed == Sum(Filter(rs, WithStatusSince(Completed, thisMonthStart)), PointsUsed)
    ensures d.thisMonthPending == |Filter(rs, WithStatusSince(Pending, thisMonthStart))|
    ensures d.totalPointsEarned == Sum(users, EarnedLifetime)
    ensures d.totalUsers <= |users| && d.activeMembers <= |users|
    ensures d.thisMonthPending <= d.totalPending <= |rs|
    ensures d.thisMonthActive <= |rs|
    ensures (forall k :: 0 <= k < |rs| ==> rs[k].pointsUsed >= 0) ==> 0 <= d.thisMonthRedeemed <= d.pointsRedeemed
    ensures d.engagementRate == EngagementRate(d.pointsRedeemed, d.totalPointsEarned)
  {
    var pointsRedeemed := Sum(Filter(rs, WithStatus(Completed)), PointsUsed);
    var thisMonthRedeemed := Sum(Filter(rs, WithStatusSince(Completed, thisMonthStart)), PointsUsed);
    var totalPointsEarned := Sum(users, EarnedLifetime);
    FilterNarrower(rs, WithStatus(Pending), WithStatusSince(Pending, thisMonthStart));
    DistinctAtMostRows(rs, thisMonthStart);
    MonthWithinTotal(rs, thisMonthStart);
    DashboardData(
      |CustomerRows(users)|,
      |Filter(users, HasPoints())|,
      pointsRedeemed,
      |Filter(rs, WithStatus(Pending))|,
      |UserIdsSince(rs, thisMonthStart)|,
      thisMonthRedeemed,
      |Filter(rs, WithStatusSince(Pending, thisMonthStart))|,
      totalPointsEarned,
      EngagementRate(pointsRedeemed, totalPointsEarned))
  }

  /** Approving one pending request (which marks exactly its row 'completed') adds its
      `pointsUsed` to the points redeemed and takes one off the pending count. */
  lemma DashboardApproval(users: seq<User>, rs: seq<Redemption>, k: nat, thisMonthStart: int)
    requires UniqueRedeemIds(rs) && k < |rs| && rs[k].redeemStatus == Pending
    ensures var after := SetRedeemStatus(rs, rs[k].redeemID, Completed);
      && AdminDashboard(users, after, thisMonthStart).pointsRedeemed == AdminDashboard(users, rs, thisMonthStart).pointsRedeemed + rs[k].pointsUsed
      && AdminDashboard(users, after, thisMonthStart).totalPending + 1 == AdminDashboard(users, rs, thisMonthStart).totalPending
  {
    var after := SetRedeemStatus(rs, rs[k].redeemID, Completed);
    assert after[..k] == rs[..k];
    assert after[k + 1..] == rs[k + 1..];
    assert after[k] == rs[k].(redeemStatus := Completed);
    var done := WithStatus(Completed);
    var open := WithStatus(Pending);
    FilterAround(after, k, done);
    FilterAround(rs, k, done);
    FilterAround(after, k, open);
    FilterAround(rs, k, open);
    assert Filter([after[k]], done) == [after[k]] && Filter([rs[k]], done) == [];
    assert Filter([after[k]], open) == [] && Filter([rs[k]], open) == [rs[k]];
    SumConcat(Filter(rs[..k], done), [after[k]], PointsUsed);
    SumConcat(Filter(rs[..k], done) + [after[k]], Filter(rs[k + 1..], done), PointsUsed);
    SumConcat(Filter(rs[..k], done), Filter(rs[k + 1..], done), PointsUsed);
    assert Filter(rs[..k], done) + [] == Filter(rs[..k], done);
  }

  /** A new account counts as a user only when it is a customer's, and as an active member
      exactly when it holds points, whatever its role; its lifetime points are added to the
      points earned whatever its role. */
  lemma DashboardNewAccount(users: seq<User>, rs: seq<Redemption>, u: User, thisMonthStart: int)
    ensures var before := AdminDashboard(users, rs, thisMonthStart);
      var after := AdminDashboard(users + [u], rs, thisMonthStart);
      && after.totalUsers == before.totalUsers + (if u.role == Customer then 1 else 0)
      && after.activeMembers == before.activeMembers + (if u.pointsBalance > 0 then 1 else 0)
      && after.totalPointsEarned == before.totalPointsEarned + u.totalEarnedLifetime
      && after.pointsRedeemed == before.pointsRedeemed && after.totalPending == before.totalPending
  {
    FilterConcat(users, [u], IsCustomer);
    assert Filter([u], IsCustomer) == if u.role == Customer then [u] else [];
    FilterConcat(users, [u], HasPoints());
    assert Filter([u], HasPoints()) == if u.pointsBalance > 0 then [u] else [];
    SumConcat(users, [u], EarnedLifetime);
  }

  // ------------------------------------------------------------------
  // getDashboardTransactions
  // ------------------------------------------------------------------

  /** `req.query.limit || 10`, pasted into the query text three times: a missing or empty
      parameter is 10, digits (white space around them aside) are that count, anything else
      makes the SQL invalid (None). */
  function DashboardLimit(limit: Option<string>): (r: Option<nat>)
    ensures FalsyStr(limit) ==> r == Some(10)
    ensures !FalsyStr(limit) ==> (r.Some? <==> Trim(limit.value) != "" && AllDigits(Trim(limit.value)))
  {
    if FalsyStr(limit) then Some(10)
    else
      var t := Trim(limit.value);
      if t != "" && AllDigits(t) then Some(DigitsValue(t)) else None
  }

  /** A printed count is read back as that count. */
  lemma DashboardLimitReadsCounts(n: nat)
    ensures DashboardLimit(Some(NatToString(n))) == Some(n)
  {
    DigitsAreTrimmed(NatToString(n));
    DigitsValueOfNatToString(n);
  }

  /** The redemption condition after the replacement: `!= 'denied'`, `= 'completed'` for
      "purchase", `= 'pending'` for "redeem". */
  function DashFilter(typ: Option<string>): (f: StatusFilter)
    ensures f == OnlyCompleted <==> typ == Some("purchase")
    ensures f == OnlyPending <==> typ == Some("redeem")
  {
    if typ == Some("purchase") then OnlyCompleted else if typ == Some("redeem") then OnlyPending else NotDenied
  }

  /** `(SELECT ... purchases ... ORDER BY t.date DESC LIMIT n)`. */
  function LatestPurchases(users: seq<User>, ts: seq<TxRow>, n: nat): (r: seq<Entry>)
    ensures var m := |Filter(ts, PurchaseRows(users, None))|; |r| == if n < m then n else m
    ensures SortedDesc(r, SortKey)
    ensures forall k :: 0 <= k < |r| ==> PurchaseOf(users, ts, None, AdminWording, r[k])
    ensures |r| < n ==> forall j :: 0 <= j < |ts| && IsPurchaseRow(users, ts[j], None) ==> PurchaseEntryOf(users, AdminWording)(ts[j]) in r
  {
    var all := PurchaseEntries(users, ts, None, AdminWording);
    var r := Latest(all, n);
    Inherits(all, r, (e: Entry) => PurchaseOf(users, ts, None, AdminWording, e));
    r
  }

  /** `(SELECT ... redemptions ... ORDER BY r.dateRedeemed DESC LIMIT n)`. */
  function LatestRedemptions(users: seq<User>, rewards: seq<Reward>, rs: seq<Redemption>, f: StatusFilter, n: nat): (r: seq<Entry>)
    ensures var m := |Filter(rs, RedeemRows(users, rewards, None, f))|; |r| == if n < m then n else m
    ensures SortedDesc(r, SortKey)
    ensures forall k :: 0 <= k < |r| ==> RedeemOf(users, rewards, rs, None, f, r[k])
    ensures |r| < n ==> forall j :: 0 <= j < |rs| && IsRedeemRow(users, rewards, rs[j], None, f) ==> RedeemEntryOf(users, rewards)(rs[j]) in r
  {
    var all := RedeemEntries(users, rewards, rs, None, f);
    var r := Latest(all, n);
    Inherits(all, r, (e: Entry) => RedeemOf(users, rewards, rs, None, f, e));
    r
  }

  /** `ORDER BY t.date DESC LIMIT n` keeps the newest purchases: every paid purchase left out
      is no newer than the last one listed. */
  lemma LatestPurchasesKeepNewest(users: seq<User>, ts: seq<TxRow>, n: nat)
    ensures var r := LatestPurchases(users, ts, n);
      |r| > 0 ==> forall j :: 0 <= j < |ts| && IsPurchaseRow(users, ts[j], None) && PurchaseEntryOf(users, AdminWording)(ts[j]) !in r ==>
                    SortKey(PurchaseEntryOf(users, AdminWording)(ts[j])) <= SortKey(r[|r| - 1])
  {
    assert LatestPurchases(users, ts, n) == Latest(PurchaseEntries(users, ts, None, AdminWording), n);
  }

  /** `ORDER BY r.dateRedeemed DESC LIMIT n` keeps the newest admitted redemptions: every one
      left out is no newer than the last one listed. */
  lemma LatestRedemptionsKeepNewest(users: seq<User>, rewards: seq<Reward>, rs: seq<Redemption>, f: StatusFilter, n: nat)
    ensures var r := LatestRedemptions(users, rewards, rs, f, n);
      |r| > 0 ==> forall j :: 0 <= j < |rs| && IsRedeemRow(users, rewards, rs[j], None, f) && RedeemEntryOf(users, rewards)(rs[j]) !in r ==>
                    SortKey(RedeemEntryOf(users, rewards)(rs[j])) <= SortKey(r[|r| - 1])
  {
    assert LatestRedemptions(users, rewards, rs, f, n) == Latest(RedeemEntries(users, rewards, rs, None, f), n);
  }

  /** `e` may appear in the panel: a purchase (when that part is kept) or a redemption the
      filter admits. */
  ghost predicate Shown(users: seq<User>, rewards: seq<Reward>, ts: seq<TxRow>, rs: seq<Redemption>,
                        withPurchases: bool, f: StatusFilter, e: Entry)
  {
    (withPurchases && PurchaseOf(users, ts, None, AdminWording, e)) || RedeemOf(users, rewards, rs, None, f, e)
  }

  /** The two parts of the panel, before the outer ORDER BY and LIMIT. */
  function DashboardParts(users: seq<User>, rewards: seq<Reward>, ts: seq<TxRow>, rs: seq<Redemption>,
                          withPurchases: bool, f: StatusFilter, n: nat): (r: seq<Entry>)
    ensures forall k :: 0 <= k < |r| ==> Shown(users, rewards, ts, rs, withPurchases, f, r[k])
  {
    var p := if withPurchases then LatestPurchases(users, ts, n) else [];
    var q := LatestRedemptions(users, rewards, rs, f, n);
    BothInherit(p, q, (e: Entry) => Shown(users, rewards, ts, rs, withPurchases, f, e));
    p + q
  }

  /** `<purchases> UNION ALL <redemptions> ORDER BY sortDate DESC LIMIT n`, with or without
      the purchase part: at most `n` rows, newest first, each one that may be shown. */
  function DashboardRows(users: seq<User>, rewards: seq<Reward>, ts: seq<TxRow>, rs: seq<Redemption>,
                         withPurchases: bool, f: StatusFilter, n: nat): (r: seq<Entry>)
    ensures var m := |DashboardParts(users, rewards, ts, rs, withPurchases, f, n)|; |r| == if n < m then n else m
    ensures SortedDesc(r, SortKey)
    ensures forall k :: 0 <= k < |r| ==> Shown(users, rewards, ts, rs, withPurchases, f, r[k])
  {
    var parts := DashboardParts(users, rewards, ts, rs, withPurchases, f, n);
    var r := Latest(parts, n);
    Inherits(parts, r, (e: Entry) => Shown(users, rewards, ts, rs, withPurchases, f, e));
    r
  }

  /** The outer `ORDER BY sortDate DESC LIMIT n` keeps the newest rows of the two parts:
      every row of the parts left out is no newer than the last row listed. */
  lemma DashboardRowsKeepNewest(users: seq<User>, rewards: seq<Reward>, ts: seq<TxRow>, rs: seq<Redemption>,
                                withPurchases: bool, f: StatusFilter, n: nat)
    ensures var parts := DashboardParts(users, rewards, ts, rs, withPurchases, f, n);
      var r := DashboardRows(users, rewards, ts, rs, withPurchases, f, n);
      |r| > 0 ==> forall e :: e in parts && e !in r ==> SortKey(e) <= SortKey(r[|r| - 1])
  {
    var parts := DashboardParts(users, rewards, ts, rs, withPurchases, f, n);
    assert DashboardRows(users, rewards, ts, rs, withPurchases, f, n) == Latest(parts, n);
  }

  /** When fewer than `n` rows come back, nothing was cut: every purchase (when that part is
      kept) and every admitted redemption is listed. */
  lemma ShortListIsComplete(users: seq<User>, rewards: seq<Reward>, ts: seq<TxRow>, rs: seq<Redemption>,
                            withPurchases: bool, f: StatusFilter, n: nat)
    requires |DashboardRows(users, rewards, ts, rs, withPurchases, f, n)| < n
    ensures withPurchases ==>
              forall j :: 0 <= j < |ts| && IsPurchaseRow(users, ts[j], None) ==>
                PurchaseEntryOf(users, AdminWording)(ts[j]) in DashboardRows(users, rewards, ts, rs, withPurchases, f, n)
    ensures forall j :: 0 <= j < |rs| && IsRedeemRow(users, rewards, rs[j], None, f) ==>
              RedeemEntryOf(users, rewards)(rs[j]) in DashboardRows(users, rewards, ts, rs, withPurchases, f, n)
  {
    var parts := DashboardParts(users, rewards, ts, rs, withPurchases, f, n);
    assert DashboardRows(users, rewards, ts, rs, withPurchases, f, n) == Latest(parts, n);
    ShortListHoldsAll(parts, n);
  }

  /** `getDashboardTransactions` as written. For "redeem" the pattern meant to drop the
      purchase part looks for the literal text `LIMIT ${totalLimit}`, but the query already
      holds the number, so nothing is removed and purchases stay in the list. */
  function GetDashboardTransactionsAsWritten(users: seq<User>, rewards: seq<Reward>, ts: seq<TxRow>, rs: seq<Redemption>,
                                             typ: Option<string>, limit: Option<string>): (r: ListReply)
    ensures r.ListError? <==> DashboardLimit(limit).None?
    ensures r.Listed? ==> r.transactions == DashboardRows(users, rewards, ts, rs, true, DashFilter(typ), DashboardLimit(limit).value)
  {
    match DashboardLimit(limit)
    case None => ListError
    case Some(n) => Listed(DashboardRows(users, rewards, ts, rs, true, DashFilter(typ), n))
  }

  /** `getDashboardTransactions` as intended: "redeem" lists pending requests only. */
  function GetDashboardTransactions(users: seq<User>, rewards: seq<Reward>, ts: seq<TxRow>, rs: seq<Redemption>,
                                    typ: Option<string>, limit: Option<string>): (r: ListReply)
    ensures r.ListError? <==> DashboardLimit(limit).None?
    ensures r.Listed? ==> |r.transactions| <= DashboardLimit(limit).value && SortedDesc(r.transactions, SortKey)
    ensures r.Listed? && typ == Some("redeem") ==>
              forall k :: 0 <= k < |r.transactions| ==> RedeemOf(users, rewards, rs, None, OnlyPending, r.transactions[k])
    ensures r.Listed? && typ == Some("redeem") ==>
              r.transactions == DashboardRows(users, rewards, ts, rs, false, OnlyPending, DashboardLimit(limit).value)
    ensures r.Listed? && typ != Some("redeem") ==>
              r.transactions == DashboardRows(users, rewards, ts, rs, true, DashFilter(typ), DashboardLimit(limit).value)
  {
    match DashboardLimit(limit)
    case None => ListError
    case Some(n) => Listed(DashboardRows(users, rewards, ts, rs, typ != Some("redeem"), DashFilter(typ), n))
  }

  /** One customer with one purchase and no redemptions: asking for "redeem" lists the
      purchase as written, and nothing once the purchase part is dropped. */
  lemma RedeemTypeShowsPurchases()
    ensures var u := NewAccount("Ana", "ana@example.com", "h", Customer, 0).(userID := 1);
      var t := TxRow(7, 1, 100, 2, 5, Some("Purchase"));
      && GetDashboardTransactionsAsWritten([u], [], [t], [], Some("redeem"), None) == Listed([PurchaseEntryOf([u], AdminWording)(t)])
      && GetDashboardTransactions([u], [], [t], [], Some("redeem"), None) == Listed([])
  {
    var u := NewAccount("Ana", "ana@example.com", "h", Customer, 0).(userID := 1);
    var t := TxRow(7, 1, 100, 2, 5, Some("Purchase"));
    OnePurchasePanel(u, t);
  }

  /** The panel of one customer with one purchase, with and without the purchase part. */
  lemma OnePurchasePanel(u: User, t: TxRow)
    requires u.userID == 1 && u.role == Customer && t == TxRow(7, 1, 100, 2, 5, Some("Purchase"))
    ensures DashboardRows([u], [], [t], [], true, OnlyPending, 10) == [PurchaseEntryOf([u], AdminWording)(t)]
    ensures DashboardRows([u], [], [t], [], false, OnlyPending, 10) == []
  {
    var e := PurchaseEntryOf([u], AdminWording)(t);
    OnePurchaseLatest(u, t);
    assert RedeemEntries([u], [], [], None, OnlyPending) == [];
    assert LatestRedemptions([u], [], [], OnlyPending, 10) == [];
    assert DashboardParts([u], [], [t], [], true, OnlyPending, 10) == [e];
    assert Latest([e], 10) == [e];
  }

  lemma OnePurchaseLatest(u: User, t: TxRow)
    requires u.userID == 1 && u.role == Customer && t == TxRow(7, 1, 100, 2, 5, Some("Purchase"))
    ensures LatestPurchases([u], [t], 10) == [PurchaseEntryOf([u], AdminWording)(t)]
    ensures Latest([PurchaseEntryOf([u], AdminWording)(t)], 10) == [PurchaseEntryOf([u], AdminWording)(t)]
  {
    var e := PurchaseEntryOf([u], AdminWording)(t);
    assert FindUser([u], 1) == Some(0);
    assert Filter([t], PurchaseRows([u], None)) == [t] by {
      assert Filter([t][1..], PurchaseRows([u], None)) == [];
    }
    assert PurchaseEntries([u], [t], None, AdminWording) == [e];
    assert NewestFirst([e]) == [e] by {
      assert multiset(NewestFirst([e])) == multiset{e};
    }
  }

  // ------------------------------------------------------------------
  // getTopCustomers
  // ------------------------------------------------------------------

  /** `c.name, c.pointsBalance as points, COUNT(t.transactionID) as purchases, c.role`. */
  datatype TopCustomer = TopCustomer(name: string, points: int, purchases: nat, role: Role)

  function Balance(u: User): int { u.pointsBalance }

  function Points(c: TopCustomer): int { c.points }

  /** `LEFT JOIN transactions t ON c.userID = t.userID ... COUNT(t.transactionID)`: every log
      row of the customer, approval rows included; 0 when there is none. */
  function PurchaseCount(ts: seq<TxRow>, userID: int): nat
  {
    |Filter(ts, (t: TxRow) => t.userID == userID)|
  }

  function TopRowOf(ts: seq<TxRow>): User -> TopCustomer
  {
    (u: User) => TopCustomer(u.name, u.pointsBalance, PurchaseCount(ts, u.userID), u.role)
  }

  /** The first five of a ranking by balance, summarised, are ranked by points. */
  lemma RankedByPoints(ranked: seq<User>, ts: seq<TxRow>)
    requires SortedDesc(ranked, Balance)
    ensures SortedDesc(Project(Take(ranked, 5), TopRowOf(ts)), Points)
  {
    var top := Take(ranked, 5);
    var r := Project(top, TopRowOf(ts));
    forall i, j | 0 <= i < j < |r| ensures Points(r[i]) >= Points(r[j]) {
      assert r[i].points == Balance(ranked[i]) && r[j].points == Balance(ranked[j]);
    }
  }

  /** `c` summarises one customer of `users`. */
  ghost predicate CustomerRow(users: seq<User>, ts: seq<TxRow>, c: TopCustomer)
  {
    exists j :: 0 <= j < |users| && users[j].role == Customer && c == TopRowOf(ts)(users[j])
  }

  /** Summaries of customers drawn from `users` summarise customers of `users`. */
  lemma TopRowsAreCustomers(users: seq<User>, ranked: seq<User>, ts: seq<TxRow>)
    requires forall k :: 0 <= k < |ranked| ==> ranked[k] in users && ranked[k].role == Customer
    ensures var r := Project(Take(ranked, 5), TopRowOf(ts));
      forall k :: 0 <= k < |r| ==> r[k].role == Customer && CustomerRow(users, ts, r[k])
  {
    var top := Take(ranked, 5);
    var r := Project(top, TopRowOf(ts));
    forall k | 0 <= k < |r| ensures r[k].role == Customer && CustomerRow(users, ts, r[k]) {
      assert top[k] == ranked[k];
      var j :| 0 <= j < |users| && users[j] == ranked[k];
    }
  }

  /** `getTopCustomers`: customers only, richest first, at most five, grouped one row per
      customer (user ids are unique). */
  function GetTopCustomers(users: seq<User>, ts: seq<TxRow>): (r: seq<TopCustomer>)
    ensures |r| == if |Filter(users, IsCustomer)| < 5 then |Filter(users, IsCustomer)| else 5
    ensures SortedDesc(r, Points)
    ensures forall k :: 0 <= k < |r| ==> r[k].role == Customer && CustomerRow(users, ts, r[k])
  {
    var ranked := SelectDesc(users, IsCustomer, Balance);
    RankedByPoints(ranked, ts);
    TopRowsAreCustomers(users, ranked, ts);
    Project(Take(ranked, 5), TopRowOf(ts))
  }

  /** A customer missing from the list has no more points than the last one listed: every
      customer is listed while there are fewer than five, and otherwise every customer richer
      than the fifth is. */
  lemma RicherCustomersListed(users: seq<User>, ts: seq<TxRow>, j: nat)
    requires j < |users| && users[j].role == Customer
    requires var r := GetTopCustomers(users, ts); |r| < 5 || users[j].pointsBalance > r[|r| - 1].points
    ensures TopRowOf(ts)(users[j]) in GetTopCustomers(users, ts)
  {
    var r := GetTopCustomers(users, ts);
    var ranked := SelectDesc(users, IsCustomer, Balance);
    var top := Take(ranked, 5);
    assert users[j] in ranked;
    var i :| 0 <= i < |ranked| && ranked[i] == users[j];
    assert r[i] == TopRowOf(ts)(users[j]);
  }
}
