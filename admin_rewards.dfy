/** The admin reward list of server/admin-controllers/rewardsController.js. */
module AdminRewards {
  import opened Util
  import opened Tables

  function RewardKey(w: Reward): int { w.rewardID }

  /** No WHERE clause when inactive rows are asked for, `WHERE isActive = 'active'` otherwise. */
  function RewardListed(showInactive: bool): Reward -> bool
  {
    (w: Reward) => showInactive || w.isActive == Active
  }

  /** `viewAllRewards`: highest rewardID first; every reward when `showInactive` is exactly
      "true", otherwise exactly the active ones. */
  function ViewAllRewards(rewards: seq<Reward>, showInactive: Option<string>): (r: seq<Reward>)
    ensures SortedDesc(r, RewardKey)
    ensures forall k :: 0 <= k < |r| ==> r[k] in rewards && (ShowInactive(showInactive) || r[k].isActive == Active)
    ensures forall j :: 0 <= j < |rewards| && (ShowInactive(showInactive) || rewards[j].isActive == Active) ==> rewards[j] in r
    ensures ShowInactive(showInactive) ==> |r| == |rewards|
  {
    if ShowInactive(showInactive) then
      FilterAll(rewards, RewardListed(true));
      SelectDesc(rewards, RewardListed(true), RewardKey)
    else
      SelectDesc(rewards, RewardListed(false), RewardKey)
  }

  /** Only the exact text "true" shows inactive rewards: "True", "1" or no parameter hide them. */
  lemma ShowInactiveExactText(rewards: seq<Reward>, j: nat)
    requires j < |rewards| && rewards[j].isActive == Inactive
    ensures rewards[j] in ViewAllRewards(rewards, Some("true"))
    ensures rewards[j] !in ViewAllRewards(rewards, Some("True"))
    ensures rewards[j] !in ViewAllRewards(rewards, Some("1"))
    ensures rewards[j] !in ViewAllRewards(rewards, None)
  {
  }
}
