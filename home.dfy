/** The customer home page summary of server/controllers/homeController.js (`viewHome`;
    `quickRedeem` is `CustomerRewards.RedeemReward`). The month boundaries come from the
    clock and are inputs here. */
module Home {
  import opened Util
  import opened Tables

  datatype MonthMetrics = MonthMetrics(pointsAvailable: int, totalEarned: int, totalRedeemed: int)

  datatype HomeData = HomeData(
    pointsAvailable: int,
    totalEarnedLifetime: int,
    totalRedeemedLifetime: int,
    quickRewards: seq<Reward>,
    lastMonthMetrics: MonthMetrics)

  /** `COALESCE(SUM(pointsUsed), 0) FROM redemption WHERE userID = ? AND dateRedeemed >= from
      [AND dateRedeemed <= until] [AND redeemStatus = 'completed']`. */
  function PointsUsedIn(rs: seq<Redemption>, userID: int, from: int, until: Option<int>, onlyCompleted: bool): int
  {
    if rs == [] then 0
    else
      var r := rs[0];
      var counted := r.userID == userID && from <= r.dateRedeemed && (until.None? || r.dateRedeemed <= until.value)
                     && (!onlyCompleted || r.redeemStatus == Completed);
      (if counted then r.pointsUsed else 0) + PointsUsedIn(rs[1..], userID, from, until, onlyCompleted)
  }

  /** `viewHome`: None is the 404. The stored counters are reported as they are; the
      "last month" balance is estimated as the current balance plus this month's completed
      redemptions minus this month's requested ones; at most six rewards, in table order and
      whatever their status, are offered as quick rewards. */
  function ViewHome(users: seq<User>, rewards: seq<Reward>, rs: seq<Redemption>, userID: int,
                    lastMonthStart: int, lastMonthEnd: int, thisMonthStart: int): (r: Option<HomeData>)
    ensures r.None? <==> FindUser(users, userID).None?
    ensures r.Some? ==>
              var u := users[FindUser(users, userID).value];
              && r.value.pointsAvailable == u.pointsBalance
              && r.value.totalEarnedLifetime == u.totalEarnedLifetime
              && r.value.totalRedeemedLifetime == u.totalRedeemedLifetime
              && |r.value.quickRewards| == (if |rewards| < 6 then |rewards| else 6)
              && r.value.quickRewards == rewards[..|r.value.quickRewards|]
              && r.value.lastMonthMetrics.pointsAvailable
                   == u.pointsBalance + PointsUsedIn(rs, userID, thisMonthStart, None, true)
                      - PointsUsedIn(rs, userID, thisMonthStart, None, false)
              && r.value.lastMonthMetrics.totalEarned == PointsUsedIn(rs, userID, lastMonthStart, Some(lastMonthEnd), false)
              && r.value.lastMonthMetrics.totalRedeemed == PointsUsedIn(rs, userID, lastMonthStart, Some(lastMonthEnd), true)
  {
    match FindUser(users, userID)
    case None => None
    case Some(i) =>
      var u := users[i];
      var lastMonthEarned := PointsUsedIn(rs, userID, lastMonthStart, Some(lastMonthEnd), false);
      var lastMonthRedeemed := PointsUsedIn(rs, userID, lastMonthStart, Some(lastMonthEnd), true);
      var thisMonthEarned := PointsUsedIn(rs, userID, thisMonthStart, None, false);
      var thisMonthRedeemed := PointsUsedIn(rs, userID, thisMonthStart, None, true);
      var lastMonthAvailable := u.pointsBalance + thisMonthRedeemed - thisMonthEarned;
      Some(HomeData(u.pointsBalance, u.totalEarnedLifetime, u.totalRedeemedLifetime, Take(rewards, 6),
                    MonthMetrics(lastMonthAvailable, lastMonthEarned, lastMonthRedeemed)))
  }

  /** Completed requests are among all requests, so with non-negative costs the completed
      sum never exceeds the requested sum. */
  lemma {:induction false} CompletedWithinRequested(rs: seq<Redemption>, userID: int, from: int, until: Option<int>)
    requires forall k :: 0 <= k < |rs| ==> rs[k].pointsUsed >= 0
    ensures 0 <= PointsUsedIn(rs, userID, from, until, true) <= PointsUsedIn(rs, userID, from, until, false)
  {
    if rs != [] {
      CompletedWithinRequested(rs[1..], userID, from, until);
    }
  }

  /** Hence the estimated last-month balance never exceeds the current balance, and the
      last-month redeemed figure never exceeds the last-month requested figure. */
  lemma LastMonthEstimateBounded(users: seq<User>, rewards: seq<Reward>, rs: seq<Redemption>, userID: int,
                                 lastMonthStart: int, lastMonthEnd: int, thisMonthStart: int)
    requires FindUser(users, userID).Some?
    requires forall k :: 0 <= k < |rs| ==> rs[k].pointsUsed >= 0
    ensures var h := ViewHome(users, rewards, rs, userID, lastMonthStart, lastMonthEnd, thisMonthStart).value;
      && h.lastMonthMetrics.pointsAvailable <= h.pointsAvailable
      && 0 <= h.lastMonthMetrics.totalRedeemed <= h.lastMonthMetrics.totalEarned
  {
    CompletedWithinRequested(rs, userID, thisMonthStart, None);
    CompletedWithinRequested(rs, userID, lastMonthStart, Some(lastMonthEnd));
  }
}
