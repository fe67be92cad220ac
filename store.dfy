/** The MySQL database the Express handlers share: four tables and their AUTO_INCREMENT
    counters. Every handler that writes is a method that takes the store and names it in
    `modifies`; the ones that only read are functions of the table contents. */
module Stores {
  import opened Util
  import opened Tables

  class Store {
    var users: seq<User>
    var rewards: seq<Reward>
    var redemptions: seq<Redemption>
    var transactions: seq<TxRow>
    var nextUserID: int
    var nextRewardID: int
    var nextRedeemID: int
    var nextTransactionID: int

    /** Primary keys are unique and positive, and each AUTO_INCREMENT counter lies above
        every id it has handed out. */
    ghost predicate Valid()
      reads this
    {
      && nextUserID >= 1 && nextRewardID >= 1 && nextRedeemID >= 1 && nextTransactionID >= 1
      && UniqueUserIds(users) && UniqueRewardIds(rewards)
      && UniqueRedeemIds(redemptions) && UniqueTxIds(transactions)
      && (forall k :: 0 <= k < |users| ==> 0 < users[k].userID < nextUserID)
      && (forall k :: 0 <= k < |rewards| ==> 0 < rewards[k].rewardID < nextRewardID)
      && (forall k :: 0 <= k < |redemptions| ==> 0 < redemptions[k].redeemID < nextRedeemID)
      && (forall k :: 0 <= k < |transactions| ==> 0 < transactions[k].transactionID < nextTransactionID)
    }

    /** An empty database. */
    constructor ()
      ensures Valid()
      ensures users == [] && rewards == [] && redemptions == [] && transactions == []
      ensures nextUserID == nextRewardID == nextRedeemID == nextTransactionID == 1
    {
      users, rewards, redemptions, transactions := [], [], [], [];
      nextUserID, nextRewardID, nextRedeemID, nextTransactionID := 1, 1, 1, 1;
    }

    /** `UPDATE users SET totalEarnedLifetime = totalEarnedLifetime + p,
        pointsBalance = pointsBalance + p WHERE userID = id`. */
    method CreditPoints(id: int, p: int)
      requires Valid()
      modifies this
      ensures Valid()
      ensures users == CreditUser(old(users), id, p)
      ensures rewards == old(rewards) && redemptions == old(redemptions) && transactions == old(transactions)
      ensures nextUserID == old(nextUserID) && nextRewardID == old(nextRewardID)
      ensures nextRedeemID == old(nextRedeemID) && nextTransactionID == old(nextTransactionID)
    {
      var updated := CreditUser(users, id, p);
      assert forall k :: 0 <= k < |users| ==> updated[k].userID == users[k].userID;
      users := updated;
    }

    /** An UPDATE on `users` that leaves every key in place: the table becomes `us`. */
    method SetUsers(us: seq<User>)
      requires Valid()
      requires |us| == |users| && forall k :: 0 <= k < |us| ==> us[k].userID == users[k].userID
      modifies this
      ensures Valid()
      ensures users == us
      ensures rewards == old(rewards) && redemptions == old(redemptions) && transactions == old(transactions)
      ensures nextUserID == old(nextUserID) && nextRewardID == old(nextRewardID)
      ensures nextRedeemID == old(nextRedeemID) && nextTransactionID == old(nextTransactionID)
    {
      users := us;
    }

    /** An UPDATE on `redemption` that leaves every key in place: the table becomes `rs`. */
    method SetRedemptions(rs: seq<Redemption>)
      requires Valid()
      requires |rs| == |redemptions| && forall k :: 0 <= k < |rs| ==> rs[k].redeemID == redemptions[k].redeemID
      modifies this
      ensures Valid()
      ensures redemptions == rs
      ensures users == old(users) && rewards == old(rewards) && transactions == old(transactions)
      ensures nextUserID == old(nextUserID) && nextRewardID == old(nextRewardID)
      ensures nextRedeemID == old(nextRedeemID) && nextTransactionID == old(nextTransactionID)
    {
      redemptions := rs;
    }

    /** `INSERT INTO users (...)`: appends `row` under the next id and returns that id. */
    method AddUser(row: User) returns (id: int)
      requires Valid()
      modifies this
      ensures Valid()
      ensures id == old(nextUserID) && nextUserID == id + 1
      ensures users == old(users) + [row.(userID := id)]
      ensures rewards == old(rewards) && redemptions == old(redemptions) && transactions == old(transactions)
      ensures nextRewardID == old(nextRewardID) && nextRedeemID == old(nextRedeemID)
      ensures nextTransactionID == old(nextTransactionID)
    {
      id := nextUserID;
      var added := row.(userID := id);
      assert forall k :: 0 <= k < |users| ==> users[k].userID != added.userID;
      users := users + [added];
      nextUserID := nextUserID + 1;
    }

    /** `INSERT INTO redemption (userID, rewardID, dateRedeemed, pointsUsed, redeemStatus)
        VALUES (?, ?, NOW(), ?, 'pending')`: appends one pending request under the next id. */
    method AddRedemption(userID: int, rewardID: int, pointsUsed: int, date: int) returns (id: int)
      requires Valid()
      modifies this
      ensures Valid()
      ensures id == old(nextRedeemID) && nextRedeemID == id + 1
      ensures redemptions == old(redemptions) + [Redemption(id, userID, rewardID, pointsUsed, Pending, date)]
      ensures users == old(users) && rewards == old(rewards) && transactions == old(transactions)
      ensures nextUserID == old(nextUserID) && nextRewardID == old(nextRewardID)
      ensures nextTransactionID == old(nextTransactionID)
    {
      id := nextRedeemID;
      var row := Redemption(id, userID, rewardID, pointsUsed, Pending, date);
      assert forall k :: 0 <= k < |redemptions| ==> redemptions[k].redeemID != row.redeemID;
      redemptions := redemptions + [row];
      nextRedeemID := nextRedeemID + 1;
    }

    /** `INSERT INTO transactions(...)`: appends one row under the next id and returns it. */
    method LogTransaction(userID: int, paymentAmount: int, pointsChange: int, date: int, txType: Option<string>)
      returns (id: int)
      requires Valid()
      modifies this
      ensures Valid()
      ensures id == old(nextTransactionID) && nextTransactionID == id + 1
      ensures transactions == old(transactions) + [TxRow(id, userID, paymentAmount, pointsChange, date, txType)]
      ensures users == old(users) && rewards == old(rewards) && redemptions == old(redemptions)
      ensures nextUserID == old(nextUserID) && nextRewardID == old(nextRewardID)
      ensures nextRedeemID == old(nextRedeemID)
    {
      id := nextTransactionID;
      var row := TxRow(id, userID, paymentAmount, pointsChange, date, txType);
      assert forall k :: 0 <= k < |transactions| ==> transactions[k].transactionID != row.transactionID;
      transactions := transactions + [row];
      nextTransactionID := nextTransactionID + 1;
    }
  }
}
