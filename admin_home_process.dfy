/** The admin's purchase, add-reward and delete-reward handlers
    (server/admin-controllers/homeProcessControllers.js). The batch handler of the same
    file is `Batch.ProcessPendingRedemptions`. */
module AdminHomeProcess {
  import opened Util
  import opened Tables
  import opened Stores

  datatype PurchaseReply =
    | PurchaseBadRequest     // 400 "User ID and cost of purchase are required."
    | CustomerNotFound       // 404
    | Purchased(customerName: string, costOfPurchase: int, pointsAdded: nat, newBalance: int)   // 200
    | PurchaseFailed         // 500 from the catch block

  /** `processPurchase`: two separate queries and no transaction. `insertFails` says whether
      the log INSERT throws; the credit is then already in place. A zero or negative cost is
      not rejected here. */
  method ProcessPurchase(s: Store, userId: Option<int>, costOfPurchase: Option<int>, now: int, insertFails: bool)
    returns (reply: PurchaseReply)
    requires s.Valid()
    modifies s
    ensures s.Valid()
    ensures s.rewards == old(s.rewards) && s.redemptions == old(s.redemptions)
    ensures FalsyInt(userId) || FalsyInt(costOfPurchase) ==>
              reply == PurchaseBadRequest && s.users == old(s.users) && s.transactions == old(s.transactions)
    ensures !FalsyInt(userId) && !FalsyInt(costOfPurchase) && FindUser(old(s.users), userId.value).None? ==>
              reply == CustomerNotFound && s.users == old(s.users) && s.transactions == old(s.transactions)
    ensures !FalsyInt(userId) && !FalsyInt(costOfPurchase) && FindUser(old(s.users), userId.value).Some? ==>
              var id := userId.value;
              var cost := costOfPurchase.value;
              var u := old(s.users)[FindUser(old(s.users), id).value];
              && s.users == CreditUser(old(s.users), id, AbsPoints(cost))
              && (insertFails ==> reply == PurchaseFailed && s.transactions == old(s.transactions))
              && (!insertFails ==>
                    && s.transactions == old(s.transactions) + [TxRow(old(s.nextTransactionID), id, cost, AbsPoints(cost), now, None)]
                    && reply == Purchased(u.name, cost, AbsPoints(cost), u.pointsBalance + AbsPoints(cost)))
  {
    if FalsyInt(userId) || FalsyInt(costOfPurchase) {
      return PurchaseBadRequest;
    }
    var found := FindUser(s.users, userId.value);
    if found.None? {
      return CustomerNotFound;
    }
    var u := s.users[found.value];
    var pointsToAdd := AbsPoints(costOfPurchase.value);
    s.CreditPoints(u.userID, pointsToAdd);
    if insertFails {
      return PurchaseFailed;
    }
    var _ := s.LogTransaction(u.userID, costOfPurchase.value, pointsToAdd, now, None);
    reply := Purchased(u.name, costOfPurchase.value, pointsToAdd, u.pointsBalance + pointsToAdd);
  }

  /** The reported newBalance is the balance now stored for the customer, and the lifetime
      total rose by the same number of points. */
  lemma PurchaseReportsStoredBalance(us: seq<User>, id: int, cost: int)
    requires UniqueUserIds(us) && FindUser(us, id).Some?
    ensures var k := FindUser(us, id).value;
      && CreditUser(us, id, AbsPoints(cost))[k].pointsBalance == us[k].pointsBalance + AbsPoints(cost)
      && CreditUser(us, id, AbsPoints(cost))[k].totalEarnedLifetime == us[k].totalEarnedLifetime + AbsPoints(cost)
      && forall j :: 0 <= j < |us| && j != k ==> CreditUser(us, id, AbsPoints(cost))[j] == us[j]
  {
    CreditUserEffect(us, id, AbsPoints(cost), FindUser(us, id).value);
  }

  datatype AddRewardReply =
    | RewardFieldsMissing    // 400 "All fields are required: ..."
    | RewardAdded(rewardID: int, name: string, description: string, pointsRequired: int, brand: string, category: string)   // 201

  /** `!name || !description || !pointsRequired || !brand || !category`. */
  predicate RewardFieldsMissingIn(name: Option<string>, description: Option<string>, pointsRequired: Option<int>,
                                  brand: Option<string>, category: Option<string>)
  {
    FalsyStr(name) || FalsyStr(description) || FalsyInt(pointsRequired) || FalsyStr(brand) || FalsyStr(category)
  }

  /** `addReward`: every field must be truthy; the new row is active and gets the next id. */
  method AddReward(s: Store, name: Option<string>, description: Option<string>, pointsRequired: Option<int>,
                   brand: Option<string>, category: Option<string>, now: int)
    returns (reply: AddRewardReply)
    requires s.Valid()
    modifies s
    ensures s.Valid()
    ensures s.users == old(s.users) && s.redemptions == old(s.redemptions) && s.transactions == old(s.transactions)
    ensures RewardFieldsMissingIn(name, description, pointsRequired, brand, category) ==>
              reply == RewardFieldsMissing && s.rewards == old(s.rewards)
    ensures !(RewardFieldsMissingIn(name, description, pointsRequired, brand, category)) ==>
              && reply == RewardAdded(old(s.nextRewardID), name.value, description.value, pointsRequired.value, brand.value, category.value)
              && s.rewards == old(s.rewards) + [Reward(reply.rewardID, name.value, description.value, pointsRequired.value,
                                                       brand.value, category.value, Active, now)]
              && FindReward(s.rewards, reply.rewardID) == Some(|old(s.rewards)|)
  {
    if RewardFieldsMissingIn(name, description, pointsRequired, brand, category) {
      return RewardFieldsMissing;
    }
    var id := s.nextRewardID;
    var w := Reward(id, name.value, description.value, pointsRequired.value, brand.value, category.value, Active, now);
    assert forall k :: 0 <= k < |s.rewards| ==> s.rewards[k].rewardID != id;
    s.rewards := s.rewards + [w];
    assert s.rewards[|s.rewards| - 1] == w;
    s.nextRewardID := s.nextRewardID + 1;
    reply := RewardAdded(id, name.value, description.value, pointsRequired.value, brand.value, category.value);
  }

  datatype DeleteRewardReply =
    | RewardIdMissing        // 400
    | RewardNotFound         // 404 (no row, or the UPDATE affected none)
    | RewardDeleted(rewardID: int, rewardName: string)   // 200

  /** `deleteReward`: a soft delete. `rewardId` is None when the route parameter is empty. */
  method DeleteReward(s: Store, rewardId: Option<int>) returns (reply: DeleteRewardReply)
    requires s.Valid()
    modifies s
    ensures s.Valid()
    ensures s.users == old(s.users) && s.redemptions == old(s.redemptions) && s.transactions == old(s.transactions)
    ensures rewardId.None? ==> reply == RewardIdMissing && s.rewards == old(s.rewards)
    ensures rewardId.Some? && FindReward(old(s.rewards), rewardId.value).None? ==>
              reply == RewardNotFound && s.rewards == old(s.rewards)
    ensures rewardId.Some? && FindReward(old(s.rewards), rewardId.value).Some? ==>
              && reply == RewardDeleted(rewardId.value, old(s.rewards)[FindReward(old(s.rewards), rewardId.value).value].rewardName)
              && s.rewards == DeactivateReward(old(s.rewards), rewardId.value)
  {
    if rewardId.None? {
      return RewardIdMissing;
    }
    var found := FindReward(s.rewards, rewardId.value);
    if found.None? {
      return RewardNotFound;
    }
    var rewardName := s.rewards[found.value].rewardName;
    var affected := RewardsWithId(s.rewards, rewardId.value);
    RewardsWithIdZero(s.rewards, rewardId.value);
    DeactivateRewardOnlyFlag(s.rewards, rewardId.value);
    s.rewards := DeactivateReward(s.rewards, rewardId.value);
    if affected == 0 {
      // the row was found just before, so the UPDATE always reaches it
      assert false;
    }
    reply := RewardDeleted(rewardId.value, rewardName);
  }

  /** A soft delete keeps every reward row, changes no column but `isActive`, leaves the
      rows with other ids alone and leaves the row with the id inactive. */
  lemma DeactivateRewardOnlyFlag(rs: seq<Reward>, id: int)
    ensures |DeactivateReward(rs, id)| == |rs|
    ensures forall k :: 0 <= k < |rs| ==> DeactivateReward(rs, id)[k].(isActive := rs[k].isActive) == rs[k]
    ensures forall k :: 0 <= k < |rs| && rs[k].rewardID != id ==> DeactivateReward(rs, id)[k] == rs[k]
    ensures forall k :: 0 <= k < |rs| && rs[k].rewardID == id ==> DeactivateReward(rs, id)[k].isActive == Inactive
    ensures UniqueRewardIds(rs) ==> UniqueRewardIds(DeactivateReward(rs, id))
  {
  }
}
