/** The staff screen's redemption handlers (server/staff-controllers/redemptionController.js;
    `getUserRedemptions` also appears unchanged in server/controllers/staffController.js). */
module StaffRedemptions {
  import opened Util
  import opened Tables
  import opened Stores
  import opened Batch

  /** One entry of `pendingRedemptions`. */
  datatype PendingRow = PendingRow(
    redeemID: int,
    dateRedeemed: int,
    customerName: string,
    rewardName: string,
    pointsUsed: int,
    redeemStatus: RedeemStatus)

  /** `JOIN users u ON r.userID = u.userID JOIN rewards rew ON r.rewardID = rew.rewardID`
      finds both rows. */
  predicate Joined(users: seq<User>, rewards: seq<Reward>, r: Redemption)
  {
    FindUser(users, r.userID).Some? && FindReward(rewards, r.rewardID).Some?
  }

  /** `WHERE r.userID = ? AND r.redeemStatus = 'pending'`, on rows the joins keep. */
  function PendingOf(users: seq<User>, rewards: seq<Reward>, userId: int): Redemption -> bool
  {
    (r: Redemption) => r.userID == userId && r.redeemStatus == Pending && Joined(users, rewards, r)
  }

  /** The SELECT list of the query for one joined row. */
  function RowOf(users: seq<User>, rewards: seq<Reward>): Redemption -> PendingRow
  {
    (r: Redemption) =>
      PendingRow(r.redeemID, r.dateRedeemed,
                 match FindUser(users, r.userID) case Some(i) => users[i].name case None => "",
                 match FindReward(rewards, r.rewardID) case Some(i) => rewards[i].rewardName case None => "",
                 r.pointsUsed, r.redeemStatus)
  }

  function DateKey(p: PendingRow): int { p.dateRedeemed }

  /** The 200 reply: `{ pendingRedemptions, total: pendingRedemptions.length }`. */
  datatype PendingReply = PendingReply(pendingRedemptions: seq<PendingRow>, total: nat)

  /** `getUserRedemptions`: the customer's pending requests, newest first. The `status` query
      parameter is read and then not used. */
  function GetUserRedemptions(users: seq<User>, rewards: seq<Reward>, rs: seq<Redemption>,
                              userId: int, status: Option<string>): (reply: PendingReply)
    ensures reply.total == |reply.pendingRedemptions| <= |rs|
    ensures SortedDesc(reply.pendingRedemptions, DateKey)
    ensures forall k :: 0 <= k < |reply.pendingRedemptions| ==>
              && reply.pendingRedemptions[k].redeemStatus == Pending
              && exists j :: 0 <= j < |rs| && rs[j].userID == userId && rs[j].redeemStatus == Pending
                   && Joined(users, rewards, rs[j]) && reply.pendingRedemptions[k] == RowOf(users, rewards)(rs[j])
    ensures forall j :: 0 <= j < |rs| && rs[j].userID == userId && rs[j].redeemStatus == Pending && Joined(users, rewards, rs[j])
              ==> RowOf(users, rewards)(rs[j]) in reply.pendingRedemptions
  {
    var matching := Filter(rs, PendingOf(users, rewards, userId));
    var rows := SortDesc(Project(matching, RowOf(users, rewards)), DateKey);
    SameElements(rows, Project(matching, RowOf(users, rewards)));
    PendingReply(rows, |rows|)
  }

  /** The status parameter changes nothing, and a request that was approved or denied never
      shows up again. */
  lemma GetUserRedemptionsOnlyPending(users: seq<User>, rewards: seq<Reward>, rs: seq<Redemption>,
                                      userId: int, status: Option<string>, id: int)
    requires forall j :: 0 <= j < |rs| && rs[j].redeemID == id ==> rs[j].redeemStatus != Pending
    ensures GetUserRedemptions(users, rewards, rs, userId, status) == GetUserRedemptions(users, rewards, rs, userId, None)
    ensures forall k :: 0 <= k < |GetUserRedemptions(users, rewards, rs, userId, status).pendingRedemptions| ==>
              GetUserRedemptions(users, rewards, rs, userId, status).pendingRedemptions[k].redeemID != id
  {
    var rows := GetUserRedemptions(users, rewards, rs, userId, status).pendingRedemptions;
    forall k | 0 <= k < |rows| ensures rows[k].redeemID != id {
      var j :| 0 <= j < |rs| && rs[j].userID == userId && rs[j].redeemStatus == Pending
               && Joined(users, rewards, rs[j]) && rows[k] == RowOf(users, rewards)(rs[j]);
    }
  }

  // ------------------------------------------------------------------
  // The id list as the staff handler sends it
  // ------------------------------------------------------------------

  /** `redemptionIds.join(",")`: the ids printed and separated by commas. */
  function JoinIds(ids: seq<int>): string
  {
    if ids == [] then ""
    else if |ids| == 1 then IntToString(ids[0])
    else IntToString(ids[0]) + "," + JoinIds(ids[1..])
  }

  /** MySQL's reading of a text compared with an integer column: its leading integer, and 0
      when it has none (the empty text included). */
  function MySqlNumber(text: string): int
  {
    match ParseInt(text) case Some(n) => n case None => 0
  }

  /** The joined text starts with the first id, printed, and then a comma or nothing. */
  lemma JoinedTextReadsFirst(ids: seq<int>)
    ensures ids == [] ==> MySqlNumber(JoinIds(ids)) == 0
    ensures ids != [] ==> MySqlNumber(JoinIds(ids)) == ids[0]
  {
    if ids != [] {
      var rest := if |ids| == 1 then "" else "," + JoinIds(ids[1..]);
      assert JoinIds(ids) == IntToString(ids[0]) + rest;
      ParseIntOfIntToStringThen(ids[0], rest);
    }
  }

  /** The values `r.redeemID IN (?)` compares with, as written: the joined text is one value,
      read as a number, so only the first requested id (or 0, for no ids) is ever matched. */
  function JoinedMatch(ids: seq<int>): (m: seq<int>)
    ensures ids == [] ==> m == [0]
    ensures ids != [] ==> m == [ids[0]]
  {
    JoinedTextReadsFirst(ids);
    [MySqlNumber(JoinIds(ids))]
  }

  /** As written, asking for two pending requests processes only the first: the second one's
      row is not selected through the joined text, though the id list itself names it. */
  lemma JoinedIdsSelectOnlyFirst(rs: seq<Redemption>, ids: seq<int>, k: nat)
    requires |ids| >= 2 && ids[1] != ids[0]
    requires k < |rs| && rs[k].redeemStatus == Pending && rs[k].redeemID == ids[1]
    ensures rs[k] !in SelectPending(rs, JoinedMatch(ids))
    ensures rs[k] in SelectPending(rs, ids)
  {
  }

  /** `processRedemptions` of the staff screen, with the ids bound as a list (`IN (?)` given
      the array itself): the same loop as the admin batch over every pending request whose id
      was asked for. The handler as written joins the ids into one text first, so that only
      the first id is matched (`JoinedMatch`). */
  method ProcessRedemptions(s: Store, action: Option<string>, redemptionIds: Option<seq<int>>,
                            faults: map<int, nat>, now: int)
    returns (reply: BatchReply)
    requires s.Valid()
    modifies s
    ensures s.Valid() && KeepsOthers(s)
    ensures FalsyStr(action) || redemptionIds.None? ==> reply == BadRequest && LedgerOf(s) == old(LedgerOf(s))
    ensures !FalsyStr(action) && redemptionIds.Some? ==>
              var sel := SelectPending(old(s.redemptions), redemptionIds.value);
              if sel == [] then reply == NoPendingFound && LedgerOf(s) == old(LedgerOf(s))
              else
                var t := Fold(Tally(old(LedgerOf(s)), 0, 0), sel, ActionOf(action.value), faults, now);
                && LedgerOf(s) == t.db
                && reply == Summary(BatchMessage(ActionOf(action.value), t.processed, t.failed),
                                    t.processed, t.failed, t.processed + t.failed)
  {
    if FalsyStr(action) || redemptionIds.None? {
      return BadRequest;
    }
    var sel := SelectPending(s.redemptions, redemptionIds.value);
    reply := ProcessSelection(s, sel, ActionOf(action.value), faults, now);
  }

  /** With the ids bound as a list, every pending request that was asked for is selected and
      nothing else; an empty list selects nothing. */
  lemma RequestedSelected(rs: seq<Redemption>, ids: seq<int>)
    ensures forall k :: 0 <= k < |rs| && rs[k].redeemStatus == Pending && rs[k].redeemID in ids ==>
              rs[k] in SelectPending(rs, ids)
    ensures forall r :: r in SelectPending(rs, ids) ==> r.redeemID in ids
    ensures ids == [] ==> SelectPending(rs, ids) == []
  {
  }
}
