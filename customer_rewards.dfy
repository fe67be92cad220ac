/** The customer's reward catalogue and redemption request
    (server/customer-controllers/rewardsController.js). `quickRedeem` of
    server/controllers/homeController.js is the same handler line for line, with the debit
    commented out in both, and is modelled by `RedeemReward` too. */
module CustomerRewards {
  import opened Util
  import opened Tables
  import opened Stores
  import opened Batch

  // ------------------------------------------------------------------
  // viewRewards
  // ------------------------------------------------------------------

  datatype RewardsPage = RewardsPage(message: string, points: int, rewards: seq<Reward>)

  /** `WHERE isActive = "active"`, plus `AND category = ?` when a category is given; the
      category is compared under the collation, so its letter case does not matter. */
  function Offered(category: Option<string>): Reward -> bool
  {
    (w: Reward) => w.isActive == Active && (FalsyStr(category) || SameText(w.category, category.value))
  }

  /** `viewRewards`: None is the 404 for an unknown user. */
  function ViewRewards(users: seq<User>, rewards: seq<Reward>, userID: int, category: Option<string>): (r: Option<RewardsPage>)
    ensures r.None? <==> FindUser(users, userID).None?
    ensures r.Some? ==>
              && r.value.points == users[FindUser(users, userID).value].pointsBalance
              && (forall k :: 0 <= k < |r.value.rewards| ==>
                    var w := r.value.rewards[k];
                    w in rewards && w.isActive == Active && (FalsyStr(category) || SameText(w.category, category.value)))
              && (forall j :: 0 <= j < |rewards| && Offered(category)(rewards[j]) ==> rewards[j] in r.value.rewards)
              && (FalsyStr(category) ==> r.value.message == "All rewards")
              && (!FalsyStr(category) ==> r.value.message == "Rewards for category: " + category.value)
  {
    match FindUser(users, userID)
    case None => None
    case Some(i) =>
      var message := if !FalsyStr(category) then "Rewards for category: " + category.value else "All rewards";
      Some(RewardsPage(message, users[i].pointsBalance, Filter(rewards, Offered(category))))
  }

  /** An inactive reward is never offered, whatever the category. */
  lemma ViewRewardsHidesInactive(users: seq<User>, rewards: seq<Reward>, userID: int, category: Option<string>, j: nat)
    requires j < |rewards| && rewards[j].isActive == Inactive && FindUser(users, userID).Some?
    requires UniqueRewardIds(rewards)
    ensures forall k :: 0 <= k < |ViewRewards(users, rewards, userID, category).value.rewards| ==>
              ViewRewards(users, rewards, userID, category).value.rewards[k].rewardID != rewards[j].rewardID
  {
    var page := ViewRewards(users, rewards, userID, category).value;
    forall k | 0 <= k < |page.rewards| ensures page.rewards[k].rewardID != rewards[j].rewardID {
      var w := page.rewards[k];
      var i :| 0 <= i < |rewards| && rewards[i] == w;
      assert i != j;
    }
  }

  /** The category filter does not depend on how the category is cased: two spellings that
      differ only in letter case list the same rewards. */
  lemma ViewRewardsIgnoresCase(users: seq<User>, rewards: seq<Reward>, userID: int, c: string, d: string)
    requires c != "" && d != "" && Lower(c) == Lower(d) && FindUser(users, userID).Some?
    ensures ViewRewards(users, rewards, userID, Some(c)).value.rewards == ViewRewards(users, rewards, userID, Some(d)).value.rewards
  {
    FilterSame(rewards, Offered(Some(c)), Offered(Some(d)));
  }

  // ------------------------------------------------------------------
  // redeemReward (and quickRedeem)
  // ------------------------------------------------------------------

  datatype RedeemReply =
    | UserNotFound           // 404 "User not found"
    | RewardUnavailable      // 404 "Reward not found or inactive"
    | InsufficientPoints     // 400 "Insufficient points for this reward"
    | AddedToPending         // 200 "Reward added to pending"

  /** `SELECT * FROM rewards WHERE rewardID = ? AND isActive = "active"`, first row. */
  function FindActiveReward(rewards: seq<Reward>, rewardID: Option<int>): (r: Option<nat>)
    ensures r.Some? ==> rewardID.Some? && r.value < |rewards| && rewards[r.value].rewardID == rewardID.value
                        && rewards[r.value].isActive == Active
    ensures r.None? <==> rewardID.None? || forall k :: 0 <= k < |rewards| ==>
                           !(rewards[k].rewardID == rewardID.value && rewards[k].isActive == Active)
  {
    if rewardID.None? then None
    else FirstIndex(rewards, (w: Reward) => w.rewardID == rewardID.value && w.isActive == Active)
  }

  /** `redeemReward`: the request is only recorded, as a pending row costing the reward's
      `pointsRequired`; no balance changes until an approval. A missing `rewardID` in the
      body matches no reward. `quickRedeem` of server/controllers/homeController.js runs the
      same three checks, the same INSERT and the same replies, so this method models both. */
  method RedeemReward(s: Store, userID: int, rewardID: Option<int>, now: int) returns (reply: RedeemReply)
    requires s.Valid()
    modifies s
    ensures s.Valid()
    ensures s.users == old(s.users) && s.rewards == old(s.rewards) && s.transactions == old(s.transactions)
    ensures FindUser(old(s.users), userID).None? ==> reply == UserNotFound && s.redemptions == old(s.redemptions)
    ensures FindUser(old(s.users), userID).Some? && FindActiveReward(old(s.rewards), rewardID).None? ==>
              reply == RewardUnavailable && s.redemptions == old(s.redemptions)
    ensures FindUser(old(s.users), userID).Some? && FindActiveReward(old(s.rewards), rewardID).Some? ==>
              var balance := old(s.users)[FindUser(old(s.users), userID).value].pointsBalance;
              var cost := old(s.rewards)[FindActiveReward(old(s.rewards), rewardID).value].pointsRequired;
              if balance < cost then reply == InsufficientPoints && s.redemptions == old(s.redemptions)
              else && reply == AddedToPending
                   && s.redemptions == old(s.redemptions) + [Redemption(old(s.nextRedeemID), userID, rewardID.value, cost, Pending, now)]
  {
    var u := FindUser(s.users, userID);
    if u.None? {
      return UserNotFound;
    }
    var points := s.users[u.value].pointsBalance;
    var w := FindActiveReward(s.rewards, rewardID);
    if w.None? {
      return RewardUnavailable;
    }
    var rewardCost := s.rewards[w.value].pointsRequired;
    if points < rewardCost {
      return InsufficientPoints;
    }
    var _ := s.AddRedemption(userID, rewardID.value, rewardCost, now);
    reply := AddedToPending;
  }

  lemma {:induction false} SelectPendingConcat(a: seq<Redemption>, b: seq<Redemption>, ids: seq<int>)
    ensures SelectPending(a + b, ids) == SelectPending(a, ids) + SelectPending(b, ids)
  {
    if a == [] {
      assert a + b == b;
    } else {
      assert (a + b)[1..] == a[1..] + b;
      SelectPendingConcat(a[1..], b, ids);
    }
  }

  /** The request just recorded is exactly what a later batch naming only new ids selects. */
  lemma NewRequestIsSelected(rs: seq<Redemption>, row: Redemption, ids: seq<int>)
    requires row.redeemStatus == Pending && row.redeemID in ids
    requires forall k :: 0 <= k < |rs| ==> rs[k].redeemID !in ids
    ensures SelectPending(rs + [row], ids) == [row]
  {
    SelectPendingConcat(rs, [row], ids);
    NothingOldSelected(rs, ids);
    assert SelectPending([row], ids) == [row] + SelectPending([], ids);
  }

  lemma {:induction false} NothingOldSelected(rs: seq<Redemption>, ids: seq<int>)
    requires forall k :: 0 <= k < |rs| ==> rs[k].redeemID !in ids
    ensures SelectPending(rs, ids) == []
  {
    if rs != [] {
      assert rs[0].redeemID !in ids;
      NothingOldSelected(rs[1..], ids);
    }
  }
}
